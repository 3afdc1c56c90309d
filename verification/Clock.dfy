/** Times kept as text: where the order of the strings is the order of the instants, and where not. */
module Clock {
  import opened Basics

  /** A UTC time to the microsecond. */
  datatype Instant = Instant(year: nat, month: nat, day: nat, hour: nat, minute: nat, second: nat, micro: nat) {
    predicate Valid() {
      && year <= 9999 && 1 <= month <= 12 && 1 <= day <= 31
      && hour <= 23 && minute <= 59 && second <= 59 && micro <= 999_999
    }

    /** The same time without its fraction of a second. */
    function Seconds(): Instant {
      this.(micro := 0)
    }
  }

  predicate Then(m: nat, n: nat, rest: bool) {
    m < n || (m == n && rest)
  }

  predicate Before(a: Instant, b: Instant) {
    Then(a.year, b.year, Then(a.month, b.month, Then(a.day, b.day,
    Then(a.hour, b.hour, Then(a.minute, b.minute, Then(a.second, b.second, a.micro < b.micro))))))
  }

  /** The order in which the database compares texts. */
  predicate Less(a: string, b: string) {
    b != "" && (a == "" || a[0] < b[0] || (a[0] == b[0] && Less(a[1..], b[1..])))
  }

  function Pad(n: nat, width: nat): (s: string)
    ensures |s| == width
  {
    if width == 0 then "" else Pad(n / 10, width - 1) + ['0' + (n % 10) as char]
  }

  function Power10(w: nat): nat {
    if w == 0 then 1 else 10 * Power10(w - 1)
  }

  /** datetime.isoformat() without the offset: the fraction is written only when there is one. */
  function Fraction(t: Instant): string {
    if t.micro == 0 then "" else "." + Pad(t.micro, 6)
  }

  function Stem(t: Instant, tail: string): string {
    Pad(t.year, 4) + ("-" + (Pad(t.month, 2) + ("-" + (Pad(t.day, 2) + ("T" +
    (Pad(t.hour, 2) + (":" + (Pad(t.minute, 2) + (":" + (Pad(t.second, 2) + tail))))))))))
  }

  /** The form with the offset "+00:00", as API tokens store it. */
  function PlusForm(t: Instant): string {
    Stem(t, Fraction(t) + "+00:00")
  }

  /** The form with "Z", as enrollment tickets store it. */
  function ZuluForm(t: Instant): string {
    Stem(t, Fraction(t) + "Z")
  }

  lemma {:induction false} PadOrder(m: nat, n: nat, w: nat, x: string, y: string)
    requires m < Power10(w) && n < Power10(w)
    ensures Less(Pad(m, w) + x, Pad(n, w) + y) <==> m < n || (m == n && Less(x, y))
  {
    if w == 0 {
      assert "" + x == x && "" + y == y;
    } else {
      var c, d := ['0' + (m % 10) as char], ['0' + (n % 10) as char];
      assert Pad(m, w) + x == Pad(m / 10, w - 1) + (c + x);
      assert Pad(n, w) + y == Pad(n / 10, w - 1) + (d + y);
      PadOrder(m / 10, n / 10, w - 1, c + x, d + y);
      assert (c + x)[1..] == x && (d + y)[1..] == y;
    }
  }

  lemma SeparatorOrder(c: string, x: string, y: string)
    requires |c| == 1
    ensures Less(c + x, c + y) <==> Less(x, y)
  {
    assert (c + x)[1..] == x && (c + y)[1..] == y;
  }

  lemma FieldOrder(m: nat, n: nat, sep: string, x: string, y: string)
    requires m < 100 && n < 100 && |sep| == 1
    ensures Less(sep + (Pad(m, 2) + x), sep + (Pad(n, 2) + y)) <==> m < n || (m == n && Less(x, y))
  {
    SeparatorOrder(sep, Pad(m, 2) + x, Pad(n, 2) + y);
    assert Power10(2) == 100;
    PadOrder(m, n, 2, x, y);
  }

  /** Down to the second the order of the texts is the order of the times. */
  lemma StemOrder(a: Instant, b: Instant, x: string, y: string)
    requires a.Valid() && b.Valid()
    ensures Less(Stem(a, x), Stem(b, y))
            <==> Before(a.Seconds(), b.Seconds()) || (a.Seconds() == b.Seconds() && Less(x, y))
  {
    hide Less, Pad;
    var a5, b5 := ":" + (Pad(a.second, 2) + x), ":" + (Pad(b.second, 2) + y);
    var a4, b4 := ":" + (Pad(a.minute, 2) + a5), ":" + (Pad(b.minute, 2) + b5);
    var a3, b3 := "T" + (Pad(a.hour, 2) + a4), "T" + (Pad(b.hour, 2) + b4);
    var a2, b2 := "-" + (Pad(a.day, 2) + a3), "-" + (Pad(b.day, 2) + b3);
    var a1, b1 := "-" + (Pad(a.month, 2) + a2), "-" + (Pad(b.month, 2) + b2);
    FieldOrder(a.second, b.second, ":", x, y);
    FieldOrder(a.minute, b.minute, ":", a5, b5);
    FieldOrder(a.hour, b.hour, "T", a4, b4);
    FieldOrder(a.day, b.day, "-", a3, b3);
    FieldOrder(a.month, b.month, "-", a2, b2);
    assert Power10(4) == 10000;
    PadOrder(a.year, b.year, 4, a1, b1);
  }

  lemma SixDigits()
    ensures Power10(6) == 1_000_000
  {
    assert Power10(3) == 1000;
    assert Power10(5) == 100_000;
  }

  /** How two fractions of a second compare, each followed by the offset. */
  lemma FractionOrder(a: Instant, b: Instant, suffix: string)
    requires a.Valid() && b.Valid() && suffix != "" && suffix[0] != '.'
    ensures Less(Fraction(a) + suffix, Fraction(b) + suffix)
            <==> if a.micro > 0 && b.micro > 0 then a.micro < b.micro
                 else if a.micro == 0 && b.micro > 0 then suffix[0] < '.'
                 else a.micro > 0 && '.' < suffix[0]
  {
    hide Pad, Power10;
    var x, y := Pad(a.micro, 6) + suffix, Pad(b.micro, 6) + suffix;
    NotLessItself(suffix);
    assert "" + suffix == suffix;
    assert a.micro > 0 ==> Fraction(a) + suffix == "." + x;
    assert b.micro > 0 ==> Fraction(b) + suffix == "." + y;
    if a.micro > 0 && b.micro > 0 {
      SixDigits();
      NotLessItself(suffix);
      PadOrder(a.micro, b.micro, 6, suffix, suffix);
      SeparatorOrder(".", x, y);
    }
  }

  lemma {:induction false} NotLessItself(s: string)
    ensures !Less(s, s)
  {
    if s != "" {
      NotLessItself(s[1..]);
    }
  }

  /** The "+00:00" form orders all times rightly. */
  lemma {:induction false} PlusFormOrder(a: Instant, b: Instant)
    requires a.Valid() && b.Valid()
    ensures Less(PlusForm(a), PlusForm(b)) <==> Before(a, b)
  {
    StemOrder(a, b, Fraction(a) + "+00:00", Fraction(b) + "+00:00");
    FractionOrder(a, b, "+00:00");
  }

  /** The order the "Z" form gives: within one second the whole second comes after all its fractions. */
  predicate ZuluBefore(a: Instant, b: Instant) {
    Before(a.Seconds(), b.Seconds()) || (a.Seconds() == b.Seconds() && ZuluFraction(a.micro, b.micro))
  }

  predicate ZuluFraction(m: nat, n: nat) {
    m > 0 && (n == 0 || m < n)
  }

  lemma ZuluFormOrder(a: Instant, b: Instant)
    requires a.Valid() && b.Valid()
    ensures Less(ZuluForm(a), ZuluForm(b)) <==> ZuluBefore(a, b)
  {
    StemOrder(a, b, Fraction(a) + "Z", Fraction(b) + "Z");
    FractionOrder(a, b, "Z");
  }

  /** The "Z" form orders two times wrongly exactly when they fall into the same second and just one
      of them is a whole second. */
  lemma {:induction false} ZuluFormIsRightExactly(a: Instant, b: Instant)
    requires a.Valid() && b.Valid()
    ensures (Less(ZuluForm(a), ZuluForm(b)) <==> Before(a, b))
            <==> !(a.Seconds() == b.Seconds() && (a.micro == 0) != (b.micro == 0))
  {
    ZuluFormOrder(a, b);
    if a.Seconds() == b.Seconds() {
      assert a.year == b.year && a.month == b.month && a.day == b.day;
      assert a.hour == b.hour && a.minute == b.minute && a.second == b.second;
      assert Before(a, b) <==> a.micro < b.micro;
      assert !Before(a.Seconds(), b.Seconds());
    } else {
      assert Before(a, b) <==> Before(a.Seconds(), b.Seconds());
    }
  }

  lemma {:induction false} ZuluFormGoesWrong()
    ensures var whole, half := Instant(2026, 1, 1, 12, 0, 0, 0), Instant(2026, 1, 1, 12, 0, 0, 500_000);
            whole.Valid() && half.Valid() && Before(whole, half) && Less(ZuluForm(half), ZuluForm(whole))
  {
    var whole, half := Instant(2026, 1, 1, 12, 0, 0, 0), Instant(2026, 1, 1, 12, 0, 0, 500_000);
    ZuluFormOrder(half, whole);
  }

  /** How a time is written. */
  lemma {:induction false} FormsAreWritten()
    ensures PlusForm(Instant(2026, 1, 2, 3, 4, 5, 60)) == "2026-01-02T03:04:05" + ".000060+00:00"
    ensures PlusForm(Instant(2026, 1, 2, 3, 4, 5, 0)) == "2026-01-02T03:04:05" + "+00:00"
    ensures ZuluForm(Instant(2026, 1, 2, 3, 4, 5, 60)) == "2026-01-02T03:04:05" + ".000060Z"
  {
    hide Pad, Stem;
    PadsAre();
    var t := Instant(2026, 1, 2, 3, 4, 5, 60);
    StemIsWritten(t, ".000060+00:00");
    StemIsWritten(t.Seconds(), "+00:00");
    StemIsWritten(t, ".000060Z");
    assert "." + "000060" + "+00:00" == ".000060+00:00" && "." + "000060" + "Z" == ".000060Z";
    assert "" + "+00:00" == "+00:00";
  }

  lemma StemIsWritten(t: Instant, tail: string)
    requires t.(micro := 0) == Instant(2026, 1, 2, 3, 4, 5, 0)
    ensures Stem(t, tail) == "2026-01-02T03:04:05" + tail
  {
    hide Pad;
    PadsAre();
    assert ":" + ("04" + (":" + ("05" + tail))) == ":04:05" + tail;
    assert "T" + ("03" + (":04:05" + tail)) == "T03:04:05" + tail;
    assert "-" + ("02" + ("T03:04:05" + tail)) == "-02T03:04:05" + tail;
    assert "-" + ("01" + ("-02T03:04:05" + tail)) == "-01-02T03:04:05" + tail;
    assert "2026" + ("-01-02T03:04:05" + tail) == "2026-01-02T03:04:05" + tail;
  }

  lemma PadsAre()
    ensures Pad(2026, 4) == "2026" && Pad(1, 2) == "01" && Pad(2, 2) == "02" && Pad(3, 2) == "03" && Pad(4, 2) == "04"
    ensures Pad(5, 2) == "05" && Pad(60, 6) == "000060"
  {
    hide Pad;
    PadLast(0, 0);
    PadLast(0, 1);
    PadLast(0, 2);
    PadLast(0, 3);
    PadLast(6, 4);
    PadLast(60, 5);
    PadLast(2, 0);
    PadLast(20, 1);
    PadLast(202, 2);
    PadLast(2026, 3);
    OneDigit(1);
    OneDigit(2);
    OneDigit(3);
    OneDigit(4);
    OneDigit(5);
  }

  lemma PadLast(n: nat, width: nat)
    ensures Pad(n, width + 1) == Pad(n / 10, width) + ['0' + (n % 10) as char]
    ensures Pad(n, 0) == ""
  {
  }

  lemma OneDigit(n: nat)
    requires n < 10
    ensures Pad(n, 2) == ['0', '0' + n as char]
  {
  }

  // ----- Times as a count of microseconds -----

  const MICROS := 1_000_000
  const DAY := 24 * 60 * 60 * MICROS

  datatype Date = Date(year: nat, month: nat, day: nat) {
    predicate Valid() {
      1 <= year && 1 <= month <= 12 && 1 <= day <= DaysIn(year, month)
    }
  }

  function DaysIn(year: nat, month: nat): (n: nat)
    ensures 28 <= n <= 31
  {
    if month == 2 then if year % 4 == 0 && (year % 100 != 0 || year % 400 == 0) then 29 else 28
    else if month in {4, 6, 9, 11} then 30
    else 31
  }

  function NextDay(d: Date): Date {
    if d.day < DaysIn(d.year, d.month) then d.(day := d.day + 1)
    else if d.month < 12 then Date(d.year, d.month + 1, 1)
    else Date(d.year + 1, 1, 1)
  }

  /** The date so many days after the first day of year 1. */
  function DateOf(days: nat): (d: Date)
    ensures d.Valid()
  {
    if days == 0 then Date(1, 1, 1) else NextDay(DateOf(days - 1))
  }

  predicate DateBefore(a: Date, b: Date) {
    Then(a.year, b.year, Then(a.month, b.month, a.day < b.day))
  }

  lemma {:induction false} DateOrder(m: nat, n: nat)
    requires m < n
    ensures DateBefore(DateOf(m), DateOf(n))
  {
    if m < n - 1 {
      DateOrder(m, n - 1);
    }
  }

  /** The first day of the next month comes DaysIn days after that of this month. */
  lemma {:induction false} DaysOn(n: nat, k: nat)
    requires var d := DateOf(n); d.day + k <= DaysIn(d.year, d.month)
    ensures DateOf(n + k) == DateOf(n).(day := DateOf(n).day + k)
  {
    if k > 0 {
      DaysOn(n, k - 1);
    }
  }

  lemma MonthOn(n: nat)
    requires DateOf(n).day == 1
    ensures var d := DateOf(n);
            DateOf(n + DaysIn(d.year, d.month)) == if d.month < 12 then Date(d.year, d.month + 1, 1)
                                                   else Date(d.year + 1, 1, 1)
  {
    var d := DateOf(n);
    DaysOn(n, DaysIn(d.year, d.month) - 1);
  }

  /** The days of the months before the given one, in a common or a leap year. */
  function DaysBeforeMonth(month: nat, leap: bool): nat
    requires 1 <= month <= 13
  {
    [0, 31, 59, 90, 120, 151, 181, 212, 243, 273, 304, 334, 365][month - 1] + (if leap && month > 2 then 1 else 0)
  }

  predicate IsLeap(year: nat) {
    year % 4 == 0 && (year % 100 != 0 || year % 400 == 0)
  }

  lemma {:induction false} MonthStarts(n: nat, year: nat, month: nat)
    requires 1 <= month <= 12 && DateOf(n) == Date(year, 1, 1)
    ensures DateOf(n + DaysBeforeMonth(month, IsLeap(year))) == Date(year, month, 1)
  {
    hide DateOf;
    if month > 1 {
      MonthStarts(n, year, month - 1);
      MonthOn(n + DaysBeforeMonth(month - 1, IsLeap(year)));
    }
  }

  lemma YearOn(n: nat, year: nat)
    requires DateOf(n) == Date(year, 1, 1)
    ensures DateOf(n + (if IsLeap(year) then 366 else 365)) == Date(year + 1, 1, 1)
  {
    hide DateOf;
    MonthStarts(n, year, 12);
    MonthOn(n + DaysBeforeMonth(12, IsLeap(year)));
  }

  /** The Gregorian calendar: how many days precede a year. */
  lemma {:induction false} YearStarts(year: nat)
    requires year >= 1
    ensures var y := year - 1; DateOf(365 * y + y / 4 - y / 100 + y / 400) == Date(year, 1, 1)
  {
    if year > 1 {
      hide DateOf;
      YearStarts(year - 1);
      var y := year - 2;
      YearOn(365 * y + y / 4 - y / 100 + y / 400, year - 1);
      YearLength(y);
    }
  }

  lemma YearLength(y: nat)
    ensures 365 * (y + 1) + (y + 1) / 4 - (y + 1) / 100 + (y + 1) / 400
            == 365 * y + y / 4 - y / 100 + y / 400 + (if IsLeap(y + 1) then 366 else 365)
  {
    LeapDays(y);
  }

  lemma LeapDays(y: nat)
    ensures (y + 1) / 4 == y / 4 + (if (y + 1) % 4 == 0 then 1 else 0)
    ensures (y + 1) / 100 == y / 100 + (if (y + 1) % 100 == 0 then 1 else 0)
    ensures (y + 1) / 400 == y / 400 + (if (y + 1) % 400 == 0 then 1 else 0)
    ensures (y + 1) % 100 == 0 ==> (y + 1) % 4 == 0
    ensures (y + 1) % 400 == 0 ==> (y + 1) % 100 == 0
  {
  }

  /** Any day of any year, by its number. */
  lemma {:induction false} DateIs(year: nat, month: nat, day: nat)
    requires Date(year, month, day).Valid()
    ensures var y := year - 1;
            DateOf(365 * y + y / 4 - y / 100 + y / 400 + DaysBeforeMonth(month, IsLeap(year)) + (day - 1))
            == Date(year, month, day)
  {
    hide DateOf;
    var y := year - 1;
    var n: nat := 365 * y + y / 4 - y / 100 + y / 400;
    YearStarts(year);
    MonthStarts(n, year, month);
    DaysOn(n + DaysBeforeMonth(month, IsLeap(year)), day - 1);
  }

  /** The time so many microseconds after the start of year 1. */
  function InstantOf(t: nat): Instant {
    var d, s := DateOf(t / DAY), t % DAY / MICROS;
    Instant(d.year, d.month, d.day, s / 3600, s / 60 % 60, s % 60, t % MICROS)
  }

  /** Up to the end of year 9999. */
  predicate Representable(t: int) {
    t >= 0 && InstantOf(t).year <= 9999
  }

  lemma ClockOrder(m: nat, n: nat)
    requires m < 24 * 3600 && n < 24 * 3600
    ensures Then(m / 3600, n / 3600, Then(m / 60 % 60, n / 60 % 60, m % 60 < n % 60)) <==> m < n
    ensures m / 3600 == n / 3600 && m / 60 % 60 == n / 60 % 60 && m % 60 == n % 60 ==> m == n
    ensures m / 3600 <= 23
  {
    assert m == 3600 * (m / 3600) + 60 * (m / 60 % 60) + m % 60 by { SplitTime(m); }
    assert n == 3600 * (n / 3600) + 60 * (n / 60 % 60) + n % 60 by { SplitTime(n); }
  }

  lemma SplitTime(s: nat)
    ensures s == 3600 * (s / 3600) + 60 * (s / 60 % 60) + s % 60
  {
    assert s / 60 / 60 == s / 3600;
  }

  lemma SplitDay(t: nat)
    ensures t / MICROS == t / DAY * 86400 + t % DAY / MICROS && t % DAY / MICROS < 86400
  {
  }

  /** Instants of later seconds are later, and those of the same second differ in the fraction only. */
  lemma {:induction false} SecondsOrder(a: nat, b: nat)
    ensures Before(InstantOf(a).Seconds(), InstantOf(b).Seconds()) <==> a / MICROS < b / MICROS
    ensures InstantOf(a).Seconds() == InstantOf(b).Seconds() <==> a / MICROS == b / MICROS
  {
    hide DateOf;
    SplitDay(a);
    SplitDay(b);
    ClockOrder(a % DAY / MICROS, b % DAY / MICROS);
    if a / DAY < b / DAY {
      DateOrder(a / DAY, b / DAY);
    } else if b / DAY < a / DAY {
      DateOrder(b / DAY, a / DAY);
    }
  }

  lemma {:induction false} InstantOrder(a: nat, b: nat)
    ensures Before(InstantOf(a), InstantOf(b)) <==> a < b
  {
    SecondsOrder(a, b);
  }

  /** The order of the stored texts, in terms of the counts. */
  lemma {:induction false} StoredOrder(a: int, b: int)
    requires Representable(a) && Representable(b)
    ensures Less(ZuluForm(InstantOf(a)), ZuluForm(InstantOf(b)))
            <==> a / MICROS < b / MICROS || (a / MICROS == b / MICROS && ZuluFraction(a % MICROS, b % MICROS))
  {
    InstantIsValid(a);
    InstantIsValid(b);
    SecondsOrder(a, b);
    ZuluFormOrder(InstantOf(a), InstantOf(b));
  }

  lemma InstantIsValid(t: int)
    requires Representable(t)
    ensures InstantOf(t).Valid()
  {
    SplitDay(t);
    ClockOrder(t % DAY / MICROS, 0);
  }

  // ----- API tokens -----

  datatype ApiToken = ApiToken(hash: nat, expiresAt: Option<Instant>, revoked: bool, ownerActive: bool,
                               scopes: set<nat>)

  datatype AuthError = InvalidToken | RevokedToken | ExpiredToken | InactiveOwner | MissingScope

  datatype Auth = Accepted(token: ApiToken) | Rejected(reason: AuthError)

  function Authenticate(hash: nat, tokens: seq<ApiToken>, scope: nat, now: Instant): Auth {
    if tokens == [] then Rejected(InvalidToken)
    else
      var t := tokens[0];
      if t.hash != hash then Authenticate(hash, tokens[1..], scope, now)
      else if t.revoked then Rejected(RevokedToken)
      else if t.expiresAt.Some? && !Before(now, t.expiresAt.value) then Rejected(ExpiredToken)
      else if !t.ownerActive then Rejected(InactiveOwner)
      else if scope !in t.scopes then Rejected(MissingScope)
      else Accepted(t)
  }

  /** The place of the token that decides. */
  ghost predicate IsFirst(tokens: seq<ApiToken>, i: nat, hash: nat) {
    i < |tokens| && tokens[i].hash == hash && forall j :: 0 <= j < i ==> tokens[j].hash != hash
  }

  /** The first matching token decides: it is accepted if it is not revoked, not expired, of an active owner and
      with the scope among its own; the first of these rules that it breaks is the reason of a rejection. */
  method AuthenticateApiToken(hash: nat, tokens: seq<ApiToken>, scope: nat, now: Instant) returns (r: Auth)
    ensures r == Authenticate(hash, tokens, scope, now)
    ensures r == Rejected(InvalidToken) <==> forall t :: t in tokens ==> t.hash != hash
    ensures r == Rejected(RevokedToken) <==> exists i: nat :: IsFirst(tokens, i, hash) && tokens[i].revoked
    ensures r == Rejected(ExpiredToken) <==> exists i: nat ::
      && IsFirst(tokens, i, hash) && !tokens[i].revoked
      && tokens[i].expiresAt.Some? && !Before(now, tokens[i].expiresAt.value)
    ensures r == Rejected(InactiveOwner) <==> exists i: nat ::
      && IsFirst(tokens, i, hash) && !tokens[i].revoked
      && (tokens[i].expiresAt.Some? ==> Before(now, tokens[i].expiresAt.value)) && !tokens[i].ownerActive
    ensures r == Rejected(MissingScope) <==> exists i: nat ::
      && IsFirst(tokens, i, hash) && !tokens[i].revoked
      && (tokens[i].expiresAt.Some? ==> Before(now, tokens[i].expiresAt.value))
      && tokens[i].ownerActive && scope !in tokens[i].scopes
    ensures forall t :: r == Accepted(t) <==> exists i: nat ::
      && IsFirst(tokens, i, hash) && tokens[i] == t && !t.revoked
      && (t.expiresAt.Some? ==> Before(now, t.expiresAt.value)) && t.ownerActive && scope in t.scopes
  {
    hide Before;
    for i := 0 to |tokens|
      invariant Authenticate(hash, tokens, scope, now) == Authenticate(hash, tokens[i..], scope, now)
      invariant forall j :: 0 <= j < i ==> tokens[j].hash != hash
    {
      var t := tokens[i];
      FirstIsUnique(tokens, i, hash);
      assert tokens[i..][1..] == tokens[i + 1..];
      if t.hash == hash {
        if t.revoked {
          return Rejected(RevokedToken);
        }
        if t.expiresAt.Some? && !Before(now, t.expiresAt.value) {
          return Rejected(ExpiredToken);
        }
        if !t.ownerActive {
          return Rejected(InactiveOwner);
        }
        if scope !in t.scopes {
          return Rejected(MissingScope);
        }
        return Accepted(t);
      }
    }
    return Rejected(InvalidToken);
  }

  lemma FirstIsUnique(tokens: seq<ApiToken>, i: nat, hash: nat)
    ensures IsFirst(tokens, i, hash) ==> forall j: nat :: IsFirst(tokens, j, hash) ==> j == i
  {
  }

  /** The filter in the query compares the stored text with the text of the current time. */
  predicate SelectedBySql(t: ApiToken, hash: nat, now: Instant) {
    t.hash == hash && !t.revoked && (t.expiresAt.None? || Less(PlusForm(now), PlusForm(t.expiresAt.value)))
  }

  predicate Known(a: Auth) {
    a !in {Rejected(InvalidToken), Rejected(RevokedToken), Rejected(ExpiredToken)}
  }

  predicate HasTimes(tokens: seq<ApiToken>) {
    forall t :: t in tokens && t.expiresAt.Some? ==> t.expiresAt.value.Valid()
  }

  /** Hashes are unique in the table. */
  predicate UniqueHashes(tokens: seq<ApiToken>) {
    forall i, j :: 0 <= i < j < |tokens| ==> tokens[i].hash != tokens[j].hash
  }

  /** The query selects a token exactly if the check in code, at the same instant, finds it neither unknown, revoked
      nor expired; and the token that the code accepts is the one selected. */
  lemma {:induction false} SqlFilterAgreesWithCode(tokens: seq<ApiToken>, hash: nat, scope: nat, now: Instant)
    requires now.Valid() && HasTimes(tokens) && UniqueHashes(tokens)
    ensures (exists t :: t in tokens && SelectedBySql(t, hash, now)) <==> Known(Authenticate(hash, tokens, scope, now))
    ensures forall t ::
      Authenticate(hash, tokens, scope, now) == Accepted(t) ==> t in tokens && SelectedBySql(t, hash, now)
    ensures forall t, u ::
      t in tokens && u in tokens && SelectedBySql(t, hash, now) && SelectedBySql(u, hash, now) ==> t == u
  {
    hide Less, PlusForm, Before;
    if tokens != [] {
      var first, rest := tokens[0], tokens[1..];
      assert tokens == [first] + rest;
      if first.expiresAt.Some? {
        PlusFormOrder(now, first.expiresAt.value);
      }
      SqlFilterAgreesWithCode(rest, hash, scope, now);
      assert forall t :: t in tokens <==> t == first || t in rest;
      forall t | t in rest ensures t.hash != first.hash {
        var i :| 0 <= i < |rest| && rest[i] == t;
        assert tokens[i + 1] == t;
      }
    }
  }
}
