/** The canonical file names of configs, and the check that every attached file name has to pass. */
module Identity {
  import opened Basics
  import Text

  const BRAND := "NEOBYATNAYA.NET"
  const EXTENSION := ".conf"
  const MAX_FILENAME_LENGTH := 96

  /** The device names that Windows reserves. */
  predicate IsReserved(name: string) {
    name in {"CON", "PRN", "AUX", "NUL"}
    || (|name| == 4 && name[..3] in {"COM", "LPT"} && '1' <= name[3] <= '9')
  }

  datatype ConfigIdentity = ConfigIdentity(displayName: string, filename: string)

  // ----- Strings -----

  predicate IsDigit(c: char) {
    '0' <= c <= '9'
  }

  predicate IsAlnum(c: char) {
    IsDigit(c) || 'a' <= c <= 'z' || 'A' <= c <= 'Z'
  }

  function UpperChar(c: char): char {
    if 'a' <= c <= 'z' then 'A' + (c - 'a') else c
  }

  /** str.upper on ASCII text. */
  function Upper(s: string): (r: string)
    ensures |r| == |s|
  {
    seq(|s|, i requires 0 <= i < |s| => UpperChar(s[i]))
  }

  function TrimLeft(s: string, cs: set<char>): (r: string)
    ensures |r| <= |s| && r == s[|s| - |r|..]
    ensures r != "" ==> r[0] !in cs
  {
    if s != "" && s[0] in cs then TrimLeft(s[1..], cs) else s
  }

  function TrimRight(s: string, cs: set<char>): (r: string)
    ensures r <= s
    ensures r != "" ==> r[|r| - 1] !in cs
    ensures forall i :: |r| <= i < |s| ==> s[i] in cs
  {
    if s != "" && s[|s| - 1] in cs then TrimRight(s[..|s| - 1], cs) else s
  }

  /** Every longest run of other characters becomes one dash. */
  function Dashed(s: string, inRun: bool): (r: string)
    ensures forall i :: 0 <= i < |r| ==> IsAlnum(r[i]) || r[i] == '-'
  {
    if s == "" then ""
    else if IsAlnum(s[0]) then [s[0]] + Dashed(s[1..], false)
    else if inRun then Dashed(s[1..], true)
    else "-" + Dashed(s[1..], true)
  }

  function Decimal(n: nat): (s: string)
    ensures s != "" && forall i :: 0 <= i < |s| ==> IsDigit(s[i])
  {
    if n < 10 then ['0' + (n as char)] else Decimal(n / 10) + ['0' + ((n % 10) as char)]
  }

  lemma {:induction false} DecimalsDiffer(a: nat, b: nat)
    requires Decimal(a) == Decimal(b)
    ensures a == b
  {
    var s, t := Decimal(a), Decimal(b);
    assert s[|s| - 1] == '0' + ((a % 10) as char) && t[|t| - 1] == '0' + ((b % 10) as char);
    assert a >= 10 ==> s[..|s| - 1] == Decimal(a / 10) != "";
    assert b >= 10 ==> t[..|t| - 1] == Decimal(b / 10) != "";
    if a >= 10 {
      DecimalsDiffer(a / 10, b / 10);
    }
  }

  // ----- Building a name -----

  /** One part of a file name, from a label that was brought to ASCII. */
  function Component(text: string, fallback: string): string {
    var dashed := TrimLeft(TrimRight(Dashed(text, false), {'-'}), {'-'});
    var named := if dashed == "" then fallback else dashed;
    if IsReserved(Upper(named)) then "_" + named else named
  }

  function Base(user: string, device: string): string {
    BRAND + "-" + user + "-" + device
  }

  function Suffix(id: Option<int>): string
    requires id.Some? ==> id.value > 0
  {
    if id.Some? then "-d" + Decimal(id.value) else ""
  }

  /** What is left of a name to make room for a suffix and the extension. */
  function Stem(user: string, device: string, suffix: string): string
    requires |suffix| <= 72
  {
    TrimRight(CutTo(Base(user, device), MAX_FILENAME_LENGTH - |suffix| - |EXTENSION|), {'-', '.', '_'})
  }

  function Filename(user: string, device: string, suffix: string): string
    requires |suffix| <= 72
  {
    Stem(user, device, suffix) + suffix + EXTENSION
  }

  /** The name for a user and a device; None where the source raises. Transliteration is a parameter. */
  function BuildConfigIdentity(
      userLabel: string, deviceLabel: string, id: Option<int>, ascii: string -> string): Option<ConfigIdentity>
  {
    var user, device := Text.Strip(userLabel), Text.Strip(deviceLabel);
    if user == "" || device == "" || (id.Some? && id.value <= 0) then None
    else
      var suffix := Suffix(id);
      if |BRAND + "-u-d"| + |suffix| + |EXTENSION| > MAX_FILENAME_LENGTH then None
      else Some(ConfigIdentity(
                  BRAND + " \U{2014} " + user + " \U{2014} " + device,
                  Filename(Component(ascii(user), "user"), Component(ascii(device), "device"), suffix)))
  }

  function TwoDigits(n: nat): string {
    if n < 10 then "0" + Decimal(n) else Decimal(n)
  }

  function BuildUnassignedSlotIdentity(
      recipientLabel: string, sequence: int, ascii: string -> string): Option<ConfigIdentity>
  {
    if 1 <= sequence <= 100 then BuildConfigIdentity(recipientLabel, TwoDigits(sequence), None, ascii) else None
  }

  // ----- The check on attachments -----

  predicate IsNameChar(c: char) {
    IsAlnum(c) || c in {'.', '_', '-'}
  }

  predicate IsSafeAttachment(filename: string) {
    && 6 <= |filename| <= 96 && filename[|filename| - 5..] == EXTENSION
    && IsAlnum(filename[0]) && (forall i :: 0 <= i < |filename| - 5 ==> IsNameChar(filename[i]))
    && !IsReserved(Upper(Text.Before(filename[..|filename| - 5], '.')))
  }

  // ----- Properties -----

  lemma ComponentIsClean(text: string, fallback: string)
    requires fallback == "user" || fallback == "device"
    ensures var c := Component(text, fallback);
      c != "" && c[0] != '-' && Clean(c)
  {
    hide IsReserved, Upper, Dashed, TrimLeft, TrimRight;
  }

  lemma TrimKeeps(s: string, cs: set<char>, n: nat)
    requires 0 < n <= |s| && s[n - 1] !in cs
    ensures s[..n] <= TrimRight(s, cs)
  {
  }

  lemma BrandFirst(rest: string)
    requires rest == "" || rest[0] == '-'
    ensures Text.Before(BRAND + rest, '.') == "NEOBYATNAYA"
  {
    assert BRAND == "NEOBYATNAYA" + ['.'] + "NET";
    assert BRAND + rest == "NEOBYATNAYA" + ['.'] + ("NET" + rest);
    Text.BeforeIs("NEOBYATNAYA", '.', "NET" + rest);
  }

  lemma BrandShape()
    ensures |BRAND| == 15 && BRAND[14] == 'T' && |EXTENSION| == 5
    ensures IsAlnum(BRAND[0]) && forall i :: 0 <= i < 15 ==> IsNameChar(BRAND[i])
  {
  }

  /** What is kept of a name still starts with the brand. */
  lemma StemStartsWithBrand(user: string, device: string, suffix: string) returns (tail: string)
    requires |suffix| <= 72
    ensures Filename(user, device, suffix) == BRAND + tail + suffix + EXTENSION
    ensures |BRAND + tail + suffix| <= 91
    ensures tail <= "-" + user + "-" + device
  {
    hide BRAND, EXTENSION, TrimRight;
    BrandShape();
    var whole := "-" + user + "-" + device;
    assert Base(user, device) == BRAND + whole;
    tail := TrimmedTail(BRAND, whole, MAX_FILENAME_LENGTH - |suffix| - |EXTENSION|, {'-', '.', '_'});
  }

  function CutTo(s: string, most: nat): string {
    if |s| <= most then s else s[..most]
  }

  lemma TrimmedTail(brand: string, whole: string, most: nat, cs: set<char>) returns (tail: string)
    requires brand != "" && brand[|brand| - 1] !in cs && |brand| <= most
    ensures TrimRight(CutTo(brand + whole, most), cs) == brand + tail
    ensures tail <= whole && |brand + tail| <= most
  {
    var cut := CutTo(brand + whole, most);
    assert cut[..|brand|] == brand;
    TrimKeeps(cut, cs, |brand|);
    tail := TrimRight(cut, cs)[|brand|..];
    assert tail == whole[..|tail|];
  }

  predicate Clean(s: string) {
    forall i :: 0 <= i < |s| ==> IsAlnum(s[i]) || s[i] in {'-', '_'}
  }

  lemma BrandedIsSafe(name: string, rest: string)
    requires name == BRAND + rest + EXTENSION && |BRAND + rest| <= 91
    requires rest == "" || rest[0] == '-'
    requires Clean(rest)
    ensures IsSafeAttachment(name)
  {
    hide BRAND, EXTENSION, Text.Before, IsReserved;
    var bare := BRAND + rest;
    BrandShape();
    BrandFirst(rest);
    BrandIsNotReserved();
    assert name[..|name| - 5] == bare && name[|name| - 5..] == EXTENSION;
    forall i | 0 <= i < |bare| ensures IsNameChar(bare[i]) {
      assert bare[i] == if i < 15 then BRAND[i] else rest[i - 15];
    }
  }

  lemma BrandIsNotReserved()
    ensures !IsReserved(Upper("NEOBYATNAYA"))
  {
    assert |Upper("NEOBYATNAYA")| == 11;
  }

  lemma FilenameIsSafe(user: string, device: string, suffix: string)
    requires |suffix| <= 72 && Clean(user) && Clean(device) && Clean(suffix)
    requires suffix != "" ==> suffix[0] == '-'
    ensures IsSafeAttachment(Filename(user, device, suffix))
  {
    hide Filename, IsSafeAttachment, IsAlnum, BRAND;
    var tail := StemStartsWithBrand(user, device, suffix);
    var whole := "-" + user + "-" + device;
    assert Clean(whole) && Clean(tail) && Clean(tail + suffix) by {
      assert forall i :: 0 <= i < |tail| ==> tail[i] == whole[i];
    }
    assert BRAND + tail + suffix == BRAND + (tail + suffix);
    BrandedIsSafe(Filename(user, device, suffix), tail + suffix);
  }

  lemma SuffixIsClean(id: Option<int>)
    requires id.Some? ==> id.value > 0
    ensures Clean(Suffix(id)) && (Suffix(id) != "" ==> Suffix(id)[0] == '-')
  {
  }

  function BuiltName(userLabel: string, deviceLabel: string, id: Option<int>, ascii: string -> string): string
    requires BuildConfigIdentity(userLabel, deviceLabel, id, ascii).Some?
  {
    BuildConfigIdentity(userLabel, deviceLabel, id, ascii).value.filename
  }

  /** A name is built exactly for labels that are not blank and a positive id of at most 70 digits. */
  lemma {:induction false} IsNamedExactly(
      userLabel: string, deviceLabel: string, id: Option<int>, ascii: string -> string)
    ensures BuildConfigIdentity(userLabel, deviceLabel, id, ascii).Some?
            <==> && Text.Strip(userLabel) != "" && Text.Strip(deviceLabel) != ""
                 && (id.Some? ==> id.value > 0) && |Suffix(id)| <= 72
    ensures BuildConfigIdentity(userLabel, deviceLabel, id, ascii).Some? ==>
      BuildConfigIdentity(userLabel, deviceLabel, id, ascii).value.displayName
      == BRAND + " \U{2014} " + Text.Strip(userLabel) + " \U{2014} " + Text.Strip(deviceLabel)
    ensures BuildConfigIdentity(userLabel, deviceLabel, id, ascii).Some? ==>
      BuiltName(userLabel, deviceLabel, id, ascii)
      == Filename(Component(ascii(Text.Strip(userLabel)), "user"), Component(ascii(Text.Strip(deviceLabel)), "device"),
                  Suffix(id))
  {
    hide Component, Filename, Text.Strip, Decimal;
    assert |BRAND + "-u-d"| == 19;
  }

  lemma BuiltFrom(userLabel: string, deviceLabel: string, id: Option<int>, ascii: string -> string)
    returns (user: string, device: string)
    requires BuildConfigIdentity(userLabel, deviceLabel, id, ascii).Some?
    ensures Clean(user) && Clean(device) && (id.Some? ==> id.value > 0) && |Suffix(id)| <= 72
    ensures BuiltName(userLabel, deviceLabel, id, ascii) == Filename(user, device, Suffix(id))
  {
    hide Filename, Component, Suffix, Clean, Text.Strip;
    user := Component(ascii(Text.Strip(userLabel)), "user");
    device := Component(ascii(Text.Strip(deviceLabel)), "device");
    ComponentIsClean(ascii(Text.Strip(userLabel)), "user");
    ComponentIsClean(ascii(Text.Strip(deviceLabel)), "device");
  }

  /** Every built name can be attached. */
  lemma {:induction false} BuiltNamesAreSafe(
      userLabel: string, deviceLabel: string, id: Option<int>, ascii: string -> string)
    requires BuildConfigIdentity(userLabel, deviceLabel, id, ascii).Some?
    ensures IsSafeAttachment(BuiltName(userLabel, deviceLabel, id, ascii))
  {
    hide BuildConfigIdentity, BuiltName, Filename, IsSafeAttachment, Suffix, Clean;
    var user, device := BuiltFrom(userLabel, deviceLabel, id, ascii);
    SuffixIsClean(id);
    FilenameIsSafe(user, device, Suffix(id));
  }

  /** The digits at the end of a string, up to a character that is not a digit, can be read off. */
  lemma DigitsAtEnd(x: string, p: string, c: char, d: string, q: string, e: char, f: string)
    requires x == p + [c] + d && x == q + [e] + f && !IsDigit(c) && !IsDigit(e)
    requires (forall i :: 0 <= i < |d| ==> IsDigit(d[i])) && (forall i :: 0 <= i < |f| ==> IsDigit(f[i]))
    ensures c == e && d == f
  {
    assert x[|p|] == c && x[|q|] == e;
    assert forall i :: |p| < i < |x| ==> x[i] == d[i - |p| - 1];
    assert forall i :: |q| < i < |x| ==> x[i] == f[i - |q| - 1];
    assert d == x[|p| + 1..] && f == x[|q| + 1..];
  }

  lemma IdAtEnd(user: string, device: string, id: nat) returns (before: string)
    requires id > 0 && |Suffix(Some(id))| <= 72
    ensures Filename(user, device, Suffix(Some(id))) == before + ['d'] + Decimal(id) + EXTENSION
  {
    hide Filename, Decimal, BRAND;
    var tail := StemStartsWithBrand(user, device, Suffix(Some(id)));
    before := BRAND + tail + "-";
    assert Suffix(Some(id)) == "-" + ['d'] + Decimal(id);
    assert before + ['d'] + Decimal(id) == BRAND + tail + Suffix(Some(id));
  }

  lemma CutExtension(x: string, y: string)
    requires x + EXTENSION == y + EXTENSION
    ensures x == y
  {
    assert (x + EXTENSION)[..|x|] == x && (y + EXTENSION)[..|y|] == y;
  }

  /** Different device ids give different names, whatever the labels are and however much is cut off. */
  lemma {:induction false} CollisionIdsSeparate(
      user1: string, device1: string, id1: int, ascii1: string -> string,
      user2: string, device2: string, id2: int, ascii2: string -> string)
    requires BuildConfigIdentity(user1, device1, Some(id1), ascii1).Some?
    requires BuildConfigIdentity(user2, device2, Some(id2), ascii2).Some?
    requires id1 != id2
    ensures BuiltName(user1, device1, Some(id1), ascii1) != BuiltName(user2, device2, Some(id2), ascii2)
  {
    hide BuildConfigIdentity, BuiltName, Filename, Suffix, Clean, Decimal, EXTENSION;
    var u1, d1 := BuiltFrom(user1, device1, Some(id1), ascii1);
    var u2, d2 := BuiltFrom(user2, device2, Some(id2), ascii2);
    var p := IdAtEnd(u1, d1, id1);
    var q := IdAtEnd(u2, d2, id2);
    if BuiltName(user1, device1, Some(id1), ascii1) == BuiltName(user2, device2, Some(id2), ascii2) {
      var x := p + ['d'] + Decimal(id1);
      CutExtension(x, q + ['d'] + Decimal(id2));
      DigitsAtEnd(x, p, 'd', Decimal(id1), q, 'd', Decimal(id2));
      DecimalsDiffer(id1, id2);
    }
  }

  // ----- Unassigned slots -----

  /** Transliteration leaves ASCII text as it is. */
  ghost predicate KeepsAscii(ascii: string -> string) {
    forall s :: (forall i :: 0 <= i < |s| ==> s[i] <= '~') ==> ascii(s) == s
  }

  lemma {:induction false} DashedKeeps(s: string, inRun: bool)
    requires forall i :: 0 <= i < |s| ==> IsAlnum(s[i])
    ensures Dashed(s, inRun) == s
  {
    if s != "" {
      DashedKeeps(s[1..], false);
    }
  }

  lemma AlnumIsNoSpace(c: char)
    requires IsAlnum(c)
    ensures !Text.IsSpace(c)
  {
  }

  lemma {:induction false} StripKeeps(s: string)
    requires forall i :: 0 <= i < |s| ==> IsAlnum(s[i])
    ensures Text.Strip(s) == s
  {
    hide Text.IsSpace, Text.Strip;
    if s != "" {
      AlnumIsNoSpace(s[0]);
      AlnumIsNoSpace(s[|s| - 1]);
    }
    Text.StripOfUnpadded(s);
  }

  lemma NotReserved(s: string)
    requires s != "" && IsDigit(s[0])
    ensures !IsReserved(Upper(s))
  {
    assert Upper(s)[0] == s[0];
  }

  lemma DigitsAreComponent(s: string)
    requires s != "" && forall i :: 0 <= i < |s| ==> IsDigit(s[i])
    ensures Component(s, "device") == s
  {
    hide Dashed, IsReserved;
    DashedKeeps(s, false);
    assert TrimRight(s, {'-'}) == s && TrimLeft(s, {'-'}) == s;
    NotReserved(s);
  }

  lemma TwoDigitsShape(n: nat)
    requires 1 <= n <= 100
    ensures 2 <= |TwoDigits(n)| <= 3 && (|TwoDigits(n)| == 3 <==> n == 100)
    ensures forall i :: 0 <= i < |TwoDigits(n)| ==> IsDigit(TwoDigits(n)[i])
  {
    if n >= 10 {
      assert |Decimal(n / 10)| == (if n < 100 then 1 else 2);
    }
  }

  lemma LeadingZero(n: nat)
    requires 1 <= n <= 100
    ensures TwoDigits(n)[0] == '0' <==> n < 10
  {
    if n >= 10 {
      assert Decimal(n / 10) <= Decimal(n);
      assert n == 100 ==> Decimal(10)[0] == Decimal(1)[0] == '1';
    }
  }

  lemma TwoDigitsDiffer(a: nat, b: nat)
    requires 1 <= a <= 100 && 1 <= b <= 100 && TwoDigits(a) == TwoDigits(b)
    ensures a == b
  {
    LeadingZero(a);
    LeadingZero(b);
    assert Decimal(a) == if a < 10 then TwoDigits(a)[1..] else TwoDigits(a);
    assert Decimal(b) == if b < 10 then TwoDigits(b)[1..] else TwoDigits(b);
    DecimalsDiffer(a, b);
  }

  /** A slot has a name exactly if its number is in range and the recipient's label is not blank. */
  lemma {:induction false} SlotIsNamedExactly(recipientLabel: string, n: int, ascii: string -> string)
    ensures BuildUnassignedSlotIdentity(recipientLabel, n, ascii).Some?
            <==> 1 <= n <= 100 && Text.Strip(recipientLabel) != ""
  {
    hide Component, Filename, Text.Strip, TwoDigits;
    if 1 <= n <= 100 {
      TwoDigitsShape(n);
      StripKeeps(TwoDigits(n));
    }
  }

  function RecipientComponent(recipientLabel: string, ascii: string -> string): string {
    Component(ascii(Text.Strip(recipientLabel)), "user")
  }

  function SlotName(recipientLabel: string, n: nat, ascii: string -> string): string
    requires 1 <= n <= 100 && BuildUnassignedSlotIdentity(recipientLabel, n, ascii).Some?
  {
    BuildUnassignedSlotIdentity(recipientLabel, n, ascii).value.filename
  }

  lemma PlainFilename(user: string, device: string)
    ensures Filename(user, device, "") == TrimRight(CutTo(Base(user, device), 91), {'-', '.', '_'}) + EXTENSION
  {
    hide TrimRight, CutTo, Base;
    var stem := TrimRight(CutTo(Base(user, device), 91), {'-', '.', '_'});
    assert stem + "" + EXTENSION == stem + EXTENSION;
  }

  lemma DigitsStay(digits: string, ascii: string -> string)
    requires KeepsAscii(ascii) && digits != "" && forall i :: 0 <= i < |digits| ==> IsDigit(digits[i])
    ensures Text.Strip(digits) == digits && Component(ascii(digits), "device") == digits
  {
    hide Component, Text.Strip;
    StripKeeps(digits);
    DigitsAreComponent(digits);
    assert ascii(digits) == digits;
  }

  /** The name of a slot, before the extension, is cut after 91 characters. */
  lemma SlotNameIs(recipientLabel: string, n: nat, ascii: string -> string)
    requires 1 <= n <= 100 && KeepsAscii(ascii) && BuildUnassignedSlotIdentity(recipientLabel, n, ascii).Some?
    ensures SlotName(recipientLabel, n, ascii)
         == TrimRight(CutTo(Base(RecipientComponent(recipientLabel, ascii), TwoDigits(n)), 91), {'-', '.', '_'})
            + EXTENSION
  {
    hide Component, TwoDigits, TrimRight, Filename, KeepsAscii, Text.Strip, CutTo, Base, BRAND, EXTENSION;
    TwoDigitsShape(n);
    DigitsStay(TwoDigits(n), ascii);
    PlainFilename(RecipientComponent(recipientLabel, ascii), TwoDigits(n));
  }

  lemma BaseLength(user: string, device: string)
    ensures |Base(user, device)| == 17 + |user| + |device|
    ensures Base(user, device) == (BRAND + "-" + user + "-") + device
  {
  }

  lemma UncutSlotName(recipientLabel: string, n: nat, ascii: string -> string)
    requires 1 <= n <= 100 && KeepsAscii(ascii) && BuildUnassignedSlotIdentity(recipientLabel, n, ascii).Some?
    requires |RecipientComponent(recipientLabel, ascii)| <= 71
    ensures SlotName(recipientLabel, n, ascii)
         == (BRAND + "-" + RecipientComponent(recipientLabel, ascii) + "-") + TwoDigits(n) + EXTENSION
  {
    hide BuildUnassignedSlotIdentity, SlotName, RecipientComponent, TwoDigits, KeepsAscii, Base, BRAND, EXTENSION;
    var user, device := RecipientComponent(recipientLabel, ascii), TwoDigits(n);
    SlotNameIs(recipientLabel, n, ascii);
    TwoDigitsShape(n);
    BaseLength(user, device);
    var base := Base(user, device);
    assert base[|base| - 1] == device[|device| - 1];
    assert !IsDigit('-') && !IsDigit('.') && !IsDigit('_');
    assert TrimRight(base, {'-', '.', '_'}) == base;
  }

  /** With a recipient part of 72 characters or more, slots 10 and 100 have the same name. */
  lemma CutSlotNames(recipientLabel: string, ascii: string -> string)
    requires KeepsAscii(ascii) && |RecipientComponent(recipientLabel, ascii)| >= 72
    requires BuildUnassignedSlotIdentity(recipientLabel, 10, ascii).Some?
    requires BuildUnassignedSlotIdentity(recipientLabel, 100, ascii).Some?
    ensures SlotName(recipientLabel, 10, ascii) == SlotName(recipientLabel, 100, ascii)
  {
    hide BuildUnassignedSlotIdentity, SlotName, RecipientComponent, KeepsAscii, Base, BRAND, EXTENSION;
    var user := RecipientComponent(recipientLabel, ascii);
    SlotNameIs(recipientLabel, 10, ascii);
    SlotNameIs(recipientLabel, 100, ascii);
    assert Decimal(1) == "1" && Decimal(10) == "10" && Decimal(100) == "100";
    BaseLength(user, "10");
    BaseLength(user, "100");
    var p := BRAND + "-" + user + "-";
    assert p + "100" == (p + "10") + "0";
    assert CutTo(p + "10", 91) == CutTo(p + "100", 91);
  }

  /** The slots of a recipient have different names exactly when the recipient's part has at most 71 characters. */
  lemma {:induction false} SlotNamesDifferExactly(recipientLabel: string, ascii: string -> string)
    requires KeepsAscii(ascii)
    requires forall n :: 1 <= n <= 100 ==> BuildUnassignedSlotIdentity(recipientLabel, n, ascii).Some?
    ensures (forall a: nat, b: nat ::
               1 <= a < b <= 100 ==> SlotName(recipientLabel, a, ascii) != SlotName(recipientLabel, b, ascii))
            <==> |RecipientComponent(recipientLabel, ascii)| <= 71
  {
    hide BuildUnassignedSlotIdentity, SlotName, RecipientComponent, KeepsAscii, BRAND, EXTENSION, TwoDigits;
    if |RecipientComponent(recipientLabel, ascii)| >= 72 {
      CutSlotNames(recipientLabel, ascii);
    } else {
      forall a: nat, b: nat | 1 <= a < b <= 100
        ensures SlotName(recipientLabel, a, ascii) != SlotName(recipientLabel, b, ascii)
      {
        UncutSlotName(recipientLabel, a, ascii);
        UncutSlotName(recipientLabel, b, ascii);
        var p := BRAND + "-" + RecipientComponent(recipientLabel, ascii) + "-";
        if SlotName(recipientLabel, a, ascii) == SlotName(recipientLabel, b, ascii) {
          CutExtension(p + TwoDigits(a), p + TwoDigits(b));
          assert TwoDigits(a) == (p + TwoDigits(a))[|p|..] == (p + TwoDigits(b))[|p|..] == TwoDigits(b);
          TwoDigitsDiffer(a, b);
        }
      }
    }
  }

  /** The name of an uncut slot is never the name of a device that carries its id. */
  lemma {:induction false} SlotsAndDevicesDiffer(
      recipientLabel: string, n: nat, ascii1: string -> string,
      user: string, device: string, id: int, ascii2: string -> string)
    requires 1 <= n <= 100 && KeepsAscii(ascii1) && BuildUnassignedSlotIdentity(recipientLabel, n, ascii1).Some?
    requires |RecipientComponent(recipientLabel, ascii1)| <= 71
    requires BuildConfigIdentity(user, device, Some(id), ascii2).Some?
    ensures SlotName(recipientLabel, n, ascii1) != BuiltName(user, device, Some(id), ascii2)
  {
    hide BuildUnassignedSlotIdentity, BuildConfigIdentity, SlotName, BuiltName, RecipientComponent, KeepsAscii,
      Filename, Suffix, Clean, Decimal, EXTENSION, BRAND, TwoDigits;
    UncutSlotName(recipientLabel, n, ascii1);
    TwoDigitsShape(n);
    var u, d := BuiltFrom(user, device, Some(id), ascii2);
    var q := IdAtEnd(u, d, id);
    var p := BRAND + "-" + RecipientComponent(recipientLabel, ascii1);
    if SlotName(recipientLabel, n, ascii1) == BuiltName(user, device, Some(id), ascii2) {
      assert (p + "-") + TwoDigits(n) == p + ['-'] + TwoDigits(n);
      CutExtension(p + ['-'] + TwoDigits(n), q + ['d'] + Decimal(id));
      DigitsAtEnd(p + ['-'] + TwoDigits(n), p, '-', TwoDigits(n), q, 'd', Decimal(id));
    }
  }

  function DeviceComponent(deviceLabel: string, ascii: string -> string): string {
    Component(ascii(Text.Strip(deviceLabel)), "device")
  }

  predicate EndsWith(s: string, tail: string) {
    |tail| <= |s| && s[|s| - |tail|..] == tail
  }

  lemma TrimmedEnds(d: string, cs: set<char>)
    ensures var r := TrimLeft(TrimRight(d, cs), cs);
            r != "" ==> r[|r| - 1] !in cs && r[|r| - 1] in d
  {
    var right := TrimRight(d, cs);
    var r := TrimLeft(right, cs);
    if r != "" {
      assert r[|r| - 1] == right[|right| - 1] == d[|right| - 1];
    }
  }

  lemma ComponentFrom(text: string, fallback: string) returns (named: string)
    ensures named == fallback || named == TrimLeft(TrimRight(Dashed(text, false), {'-'}), {'-'}) != ""
    ensures Component(text, fallback) == named || Component(text, fallback) == "_" + named
  {
    hide IsReserved, Upper, TrimLeft, TrimRight, Dashed;
    var dashed := TrimLeft(TrimRight(Dashed(text, false), {'-'}), {'-'});
    named := if dashed == "" then fallback else dashed;
  }

  predicate EndsPlainly(s: string) {
    s != "" && s[|s| - 1] !in {'-', '.', '_'}
  }

  lemma DashedEndsPlainly(text: string)
    ensures var r := TrimLeft(TrimRight(Dashed(text, false), {'-'}), {'-'}); r != "" ==> EndsPlainly(r)
  {
    hide TrimLeft, TrimRight, Dashed;
    var d := Dashed(text, false);
    TrimmedEnds(d, {'-'});
    assert forall c :: c in d ==> IsAlnum(c) || c == '-';
  }

  lemma PrefixedEndsPlainly(s: string)
    requires EndsPlainly(s)
    ensures EndsPlainly("_" + s)
  {
    assert ("_" + s)[|s|] == s[|s| - 1];
  }

  lemma ComponentEnds(text: string, fallback: string)
    requires fallback == "user" || fallback == "device"
    ensures EndsPlainly(Component(text, fallback))
  {
    hide Component, TrimLeft, TrimRight, Dashed, EndsPlainly;
    var named := ComponentFrom(text, fallback);
    DashedEndsPlainly(text);
    FallbacksEndPlainly();
    PrefixedEndsPlainly(named);
  }

  lemma FallbacksEndPlainly()
    ensures EndsPlainly("user") && EndsPlainly("device")
  {
  }

  /** A device's name without its id, when nothing is cut off. */
  lemma UncutDeviceName(user: string, device: string, ascii: string -> string)
    requires BuildConfigIdentity(user, device, None, ascii).Some?
    requires |RecipientComponent(user, ascii)| + |DeviceComponent(device, ascii)| <= 74
    ensures BuiltName(user, device, None, ascii)
         == (BRAND + "-" + RecipientComponent(user, ascii) + "-") + DeviceComponent(device, ascii) + EXTENSION
  {
    hide Component, TrimRight, Filename, Text.Strip, Base, BRAND, EXTENSION;
    var u, d := RecipientComponent(user, ascii), DeviceComponent(device, ascii);
    PlainFilename(u, d);
    BaseLength(u, d);
    ComponentEnds(ascii(Text.Strip(device)), "device");
    var base := Base(u, d);
    assert base[|base| - 1] == d[|d| - 1];
    TrimKeeps(base, {'-', '.', '_'}, |base|);
    assert TrimRight(base, {'-', '.', '_'}) == base;
  }

  /** The name of an uncut device without its id is a slot's name exactly if the device is named like the slot's
      number. */
  lemma {:induction false} DeviceNamedLikeSlotExactly(
      user: string, device: string, n: nat, ascii: string -> string)
    requires 1 <= n <= 100 && KeepsAscii(ascii) && BuildUnassignedSlotIdentity(user, n, ascii).Some?
    requires BuildConfigIdentity(user, device, None, ascii).Some?
    requires |RecipientComponent(user, ascii)| <= 71
    requires |RecipientComponent(user, ascii)| + |DeviceComponent(device, ascii)| <= 74
    ensures BuiltName(user, device, None, ascii) == SlotName(user, n, ascii)
            <==> DeviceComponent(device, ascii) == TwoDigits(n)
  {
    hide BuildUnassignedSlotIdentity, BuildConfigIdentity, SlotName, BuiltName, RecipientComponent, DeviceComponent,
      KeepsAscii, EXTENSION, BRAND, TwoDigits;
    UncutSlotName(user, n, ascii);
    UncutDeviceName(user, device, ascii);
    var p := BRAND + "-" + RecipientComponent(user, ascii) + "-";
    var d := DeviceComponent(device, ascii);
    if BuiltName(user, device, None, ascii) == SlotName(user, n, ascii) {
      CutExtension(p + d, p + TwoDigits(n));
      assert d == (p + d)[|p|..] == (p + TwoDigits(n))[|p|..] == TwoDigits(n);
    }
  }

  /** Two names are the same exactly if what is left of them, with the suffixes, is the same. */
  lemma SameFilename(user1: string, device1: string, suffix1: string, user2: string, device2: string, suffix2: string)
    requires |suffix1| <= 72 && |suffix2| <= 72
    ensures Filename(user1, device1, suffix1) == Filename(user2, device2, suffix2)
            <==> Stem(user1, device1, suffix1) + suffix1 == Stem(user2, device2, suffix2) + suffix2
  {
    hide Stem, EXTENSION;
    if Filename(user1, device1, suffix1) == Filename(user2, device2, suffix2) {
      CutExtension(Stem(user1, device1, suffix1) + suffix1, Stem(user2, device2, suffix2) + suffix2);
    }
  }

  /** Nothing is cut off a name that fits. */
  lemma UncutStem(user: string, device: string, suffix: string)
    requires |suffix| <= 72 && |user| + |device| + |suffix| <= 74 && EndsPlainly(device)
    ensures Stem(user, device, suffix) == (BRAND + "-" + user + "-") + device
  {
    hide TrimRight, Base, BRAND;
    BaseLength(user, device);
    var base := Base(user, device);
    assert base[|base| - 1] == device[|device| - 1];
    TrimKeeps(base, {'-', '.', '_'}, |base|);
  }

  /** A device without its id whose name fits has the name of one with an id exactly if what is left of the other
      name, with the suffix, reads like it; then its label ends like the suffix. If the other name fits too, its
      label is the other one with the suffix. */
  lemma {:induction false} UnnumberedNameExactly(user: string, device1: string, device2: string, id: nat)
    requires id > 0 && |Suffix(Some(id))| <= 72 && EndsPlainly(device1) && EndsPlainly(device2)
    requires |user| + |device1| <= 74
    ensures Filename(user, device1, "") == Filename(user, device2, Suffix(Some(id)))
            <==> (BRAND + "-" + user + "-") + device1 == Stem(user, device2, Suffix(Some(id))) + Suffix(Some(id))
    ensures Filename(user, device1, "") == Filename(user, device2, Suffix(Some(id)))
            ==> EndsWith("-" + device1, Suffix(Some(id)))
    ensures |user| + |device2| + |Suffix(Some(id))| <= 74 ==>
      (Filename(user, device1, "") == Filename(user, device2, Suffix(Some(id)))
       <==> device1 == device2 + Suffix(Some(id)))
  {
    hide Stem, Filename, BRAND, EndsPlainly, Suffix;
    var suffix := Suffix(Some(id));
    SameFilename(user, device1, "", user, device2, suffix);
    UncutStem(user, device1, "");
    var p := BRAND + "-" + user + "-";
    assert p + device1 + "" == p + device1;
    if p + device1 == Stem(user, device2, suffix) + suffix {
      SuffixShape(id);
      assert p + device1 == (BRAND + "-" + user) + ("-" + device1);
      SharedEnd(BRAND + "-" + user, "-" + device1, Stem(user, device2, suffix), suffix);
    }
    if |user| + |device2| + |suffix| <= 74 {
      UncutStem(user, device2, suffix);
      assert p + device2 + suffix == p + (device2 + suffix);
      assert (p + device1)[|p|..] == device1 && (p + (device2 + suffix))[|p|..] == device2 + suffix;
    }
  }

  lemma UnsuffixedNameExactly(user: string, device1: string, device2: string)
    requires EndsPlainly(device1) && EndsPlainly(device2) && |user| + |device1| <= 74 && |user| + |device2| <= 74
    ensures Filename(user, device1, "") == Filename(user, device2, "") <==> device1 == device2 + ""
  {
    hide Stem, Filename, BRAND, EndsPlainly;
    SameFilename(user, device1, "", user, device2, "");
    UncutStem(user, device1, "");
    UncutStem(user, device2, "");
    var p := BRAND + "-" + user + "-";
    assert p + device1 + "" == p + device1 && p + device2 + "" == p + device2;
    assert (p + device1)[|p|..] == device1 && (p + device2)[|p|..] == device2;
  }

  lemma SuffixShape(id: nat)
    requires id > 0
    ensures var s := Suffix(Some(id)); s != "" && forall i :: 1 <= i < |s| ==> s[i] != '-'
  {
    hide Decimal;
  }

  /** The digits of a slot's number that are left in its name. */
  function Visible(user: string, n: nat): string {
    CutTo(TwoDigits(n), if |user| <= 74 then 74 - |user| else 0)
  }

  lemma CutAppended(p: string, x: string, most: nat)
    ensures CutTo(p + x, most) == if |p| <= most then p + CutTo(x, most - |p|) else p[..most]
  {
  }

  /** However long the recipient's part is: two slots have the same name exactly if the same digits are left. */
  lemma {:induction false} SlotsNamedAlikeExactly(user: string, a: nat, b: nat)
    requires 1 <= a <= 100 && 1 <= b <= 100
    ensures Stem(user, TwoDigits(a), "") == Stem(user, TwoDigits(b), "") <==> Visible(user, a) == Visible(user, b)
  {
    hide TwoDigits, TrimRight, BRAND, CutTo;
    SlotStem(user, a);
    SlotStem(user, b);
    var p := BRAND + "-" + user + "-";
    if |p| < 91 {
      assert (p + Visible(user, a))[|p|..] == Visible(user, a) && (p + Visible(user, b))[|p|..] == Visible(user, b);
    }
  }

  lemma SlotStem(user: string, n: nat)
    requires 1 <= n <= 100
    ensures var p := BRAND + "-" + user + "-";
            && |p| == 17 + |user| && (|p| >= 91 ==> Visible(user, n) == "")
            && Stem(user, TwoDigits(n), "")
               == if |p| < 91 then p + Visible(user, n) else TrimRight(p[..91], {'-', '.', '_'})
  {
    hide TwoDigits, TrimRight, BRAND;
    BrandShape();
    TwoDigitsShape(n);
    BaseLength(user, TwoDigits(n));
    var p := BRAND + "-" + user + "-";
    CutAppended(p, TwoDigits(n), 91);
    var kept := p + Visible(user, n);
    if |p| < 91 {
      assert IsDigit(kept[|kept| - 1]);
      TrimKeeps(kept, {'-', '.', '_'}, |kept|);
    }
  }

  /** The two digits of a number below a hundred. */
  function Digits(n: nat): string
    requires n < 100
  {
    ['0' + ((n / 10) as char), '0' + ((n % 10) as char)]
  }

  lemma TwoDigitsAre(n: nat)
    requires 1 <= n <= 100
    ensures TwoDigits(n) == if n < 100 then Digits(n) else "100"
  {
    if n == 100 {
      assert Decimal(10) == Decimal(1) + "0" == "10";
    } else if n >= 10 {
      assert Decimal(n / 10) == ['0' + ((n / 10) as char)];
    }
  }

  lemma DigitsDiffer(a: nat, b: nat)
    requires a < 100 && b < 100
    ensures Digits(a) == Digits(b) <==> a == b
  {
    if Digits(a) == Digits(b) {
      assert Digits(a)[0] == Digits(b)[0] && Digits(a)[1] == Digits(b)[1];
    }
  }

  /** How many digits are left: all of them, two, one or none. */
  lemma VisibleIs(user: string, a: nat, b: nat)
    requires 1 <= a < b <= 100
    ensures |user| <= 71 ==> Visible(user, a) != Visible(user, b)
    ensures |user| == 72 ==> (Visible(user, a) == Visible(user, b) <==> a == 10 && b == 100)
    ensures |user| == 73 ==> (Visible(user, a) == Visible(user, b) <==> a / 10 == (if b < 100 then b / 10 else 1))
    ensures |user| >= 74 ==> Visible(user, a) == Visible(user, b)
  {
    hide TwoDigits;
    TwoDigitsAre(a);
    TwoDigitsAre(b);
    if |user| == 72 {
      assert Visible(user, a) == Digits(a) && Visible(user, b) == if b < 100 then Digits(b) else Digits(10);
      DigitsDiffer(a, if b < 100 then b else 10);
    } else if |user| == 73 {
      assert Visible(user, a) == [Digits(a)[0]] && Visible(user, b) == if b < 100 then [Digits(b)[0]] else ['1'];
    }
  }

  lemma SharedEnd(p: string, x: string, q: string, y: string)
    requires p + x == q + y && x != "" && x[0] == '-' && y != "" && (forall i :: 1 <= i < |y| ==> y[i] != '-')
    ensures EndsWith(x, y)
  {
    var s := p + x;
    assert s[|p|] == '-';
    assert forall i :: |q| < i < |s| ==> s[i] == y[i - |q|];
    if |p| > |q| {
      assert false;
    }
    assert x[|x| - |y|..] == s[|q|..] == y;
  }

  // ----- Labels that stay as they are -----

  predicate IsWord(s: string) {
    s != "" && forall i :: 0 <= i < |s| ==> IsAlnum(s[i])
  }

  lemma WordStays(s: string, fallback: string)
    requires IsWord(s) && !IsReserved(Upper(s))
    ensures Text.Strip(s) == s && Component(s, fallback) == s
  {
    hide Dashed, IsReserved, Text.Strip;
    StripKeeps(s);
    DashedKeeps(s, false);
    assert !IsAlnum('-');
    assert TrimRight(s, {'-'}) == s && TrimLeft(s, {'-'}) == s;
  }

  lemma {:induction false} DashedPair(a: string, b: string)
    requires IsWord(b) && forall i :: 0 <= i < |a| ==> IsAlnum(a[i])
    ensures Dashed(a + "-" + b, false) == a + "-" + b
  {
    var s := a + "-" + b;
    if a == "" {
      assert s[1..] == b && !IsAlnum('-');
      DashedKeeps(b[1..], false);
      assert Dashed(b, true) == [b[0]] + b[1..] == b;
    } else {
      assert s[1..] == a[1..] + "-" + b;
      DashedPair(a[1..], b);
    }
  }

  lemma PairStays(a: string, b: string, fallback: string)
    requires IsWord(a) && IsWord(b) && |a| >= 4
    ensures Text.Strip(a + "-" + b) == a + "-" + b && Component(a + "-" + b, fallback) == a + "-" + b
  {
    hide Dashed, Text.Strip, TrimLeft, TrimRight, Text.IsSpace, IsReserved, Upper, IsAlnum;
    var s := a + "-" + b;
    DashedPair(a, b);
    DashIsNoAlnum();
    assert s[0] == a[0] && s[|s| - 1] == b[|b| - 1];
    AlnumIsNoSpace(s[0]);
    AlnumIsNoSpace(s[|s| - 1]);
    Text.StripOfUnpadded(s);
    NothingToTrim(s, {'-'});
    LongIsNotReserved(s);
  }

  lemma DashIsNoAlnum()
    ensures !IsAlnum('-')
  {
  }

  lemma LongIsNotReserved(s: string)
    requires |s| > 4
    ensures !IsReserved(Upper(s))
  {
  }

  lemma NothingToTrim(s: string, cs: set<char>)
    requires s != "" && s[0] !in cs && s[|s| - 1] !in cs
    ensures TrimRight(s, cs) == s && TrimLeft(s, cs) == s
  {
  }

  // ----- Parts of names, by example -----

  lemma DashedStep(c: char, rest: string, inRun: bool)
    ensures Dashed([c] + rest, inRun)
            == if IsAlnum(c) then [c] + Dashed(rest, false)
               else (if inRun then "" else "-") + Dashed(rest, true)
  {
    assert ([c] + rest)[1..] == rest;
    assert "" + Dashed(rest, true) == Dashed(rest, true);
  }

  /** Every run of other characters between two words is one dash. */
  lemma {:induction false} RunIsOneDash(a: string, run: string, b: string)
    requires (forall i :: 0 <= i < |a| ==> IsAlnum(a[i])) && IsWord(b)
    requires run != "" && forall i :: 0 <= i < |run| ==> !IsAlnum(run[i])
    ensures Dashed(a + run + b, false) == a + "-" + b
    decreases a, run
  {
    hide IsAlnum, Dashed;
    if a != "" {
      RunIsOneDash(a[1..], run, b);
      assert a + run + b == [a[0]] + (a[1..] + run + b);
      DashedStep(a[0], a[1..] + run + b, false);
      assert a + "-" + b == [a[0]] + (a[1..] + "-" + b);
    } else {
      RestOfRun(run[1..], b);
      assert a + run + b == [run[0]] + (run[1..] + b);
      DashedStep(run[0], run[1..] + b, false);
    }
  }

  lemma {:induction false} RestOfRun(run: string, b: string)
    requires IsWord(b) && forall i :: 0 <= i < |run| ==> !IsAlnum(run[i])
    ensures Dashed(run + b, true) == b
  {
    hide IsAlnum, Dashed;
    if run == "" {
      assert run + b == b == [b[0]] + b[1..];
      DashedStep(b[0], b[1..], true);
      DashedKeeps(b[1..], false);
    } else {
      RestOfRun(run[1..], b);
      assert run + b == [run[0]] + (run[1..] + b);
      DashedStep(run[0], run[1..] + b, true);
      assert "" + b == b;
    }
  }

  /** A reserved device name gets a prefix. */
  lemma {:induction false} ReservedIsPrefixed(s: string, fallback: string)
    requires IsWord(s) && Upper(s) in {"CON", "PRN", "AUX", "NUL", "COM1", "COM9", "LPT1", "LPT9"}
    ensures Component(s, fallback) == "_" + s
  {
    hide Dashed, Upper;
    DashedKeeps(s, false);
    DashIsNoAlnum();
    NothingToTrim(s, {'-'});
    assert "COM1"[..3] == "COM" && "COM9"[..3] == "COM" && "LPT1"[..3] == "LPT" && "LPT9"[..3] == "LPT";
  }

  /** Nothing usable is replaced by the fallback. */
  lemma {:induction false} NothingUsable(s: string, fallback: string)
    requires (forall i :: 0 <= i < |s| ==> !IsAlnum(s[i])) && fallback in {"user", "device"}
    ensures Component(s, fallback) == fallback
  {
    hide IsReserved;
    OnlyDashes(s, false);
    LongIsNotReserved("device");
    UserIsNotReserved();
  }

  lemma UserIsNotReserved()
    ensures !IsReserved(Upper("user"))
  {
    assert Upper("user") == "USER" && "USER"[..3] == "USE";
  }

  lemma {:induction false} OnlyDashes(s: string, inRun: bool)
    requires forall i :: 0 <= i < |s| ==> !IsAlnum(s[i])
    ensures Dashed(s, inRun) == if s == "" || inRun then "" else "-"
  {
    if s != "" {
      OnlyDashes(s[1..], true);
    }
  }
}
