/** Single-use enrollment tickets: issue, claim with idempotent replay, revoke. */
module Enrollment {
  import opened Basics
  import opened Database
  import opened Lifecycle
  import opened Transactions
  import Clock

  const MICROS := Clock.MICROS
  const MAX_ENROLLMENT_TTL: int := 24 * 60 * 60 * MICROS

  datatype Point = AtBegin | AtTicket | AtPassport | AtLifecycle | AtCascade | AtCommit

  type Faults = Point -> bool

  function FaultAt(fails: Faults, p: Point): Fault {
    if fails(p) then StatementFails else NoFault
  }

  /** How the query compares the stored expiry with the current time: both as texts with a final Z. */
  predicate ExpiresAfter(expiry: int, now: int) {
    || now / MICROS < expiry / MICROS
    || (now / MICROS == expiry / MICROS && Clock.ZuluFraction(now % MICROS, expiry % MICROS))
  }

  /** The comparison is right except within the second of the expiry: a whole-second expiry is honoured
      until that second ends, a fractional one not at the start of its second. */
  lemma {:induction false} ExpiryIsRightExactly(expiry: int, now: int)
    ensures (ExpiresAfter(expiry, now) <==> now < expiry)
            <==> !(now / MICROS == expiry / MICROS && (now % MICROS == 0) != (expiry % MICROS == 0))
    ensures Clock.Representable(now) && Clock.Representable(expiry) ==>
      (ExpiresAfter(expiry, now)
       <==> Clock.Less(Clock.ZuluForm(Clock.InstantOf(now)), Clock.ZuluForm(Clock.InstantOf(expiry))))
  {
    if Clock.Representable(now) && Clock.Representable(expiry) {
      Clock.StoredOrder(now, expiry);
    }
  }

  predicate Claimable(t: Ticket, now: int) {
    t.endedAt.None? && t.claimedAt.None? && ExpiresAfter(t.expiresAt, now)
  }

  ghost predicate HasText(t: Ticket, now: int) {
    Clock.Representable(now) && Clock.Representable(t.expiresAt)
  }

  /** The text of the current time comes before the stored text of the expiry. */
  ghost predicate NotExpired(t: Ticket, now: int)
    requires HasText(t, now)
  {
    Clock.Less(Clock.ZuluForm(Clock.InstantOf(now)), Clock.ZuluForm(Clock.InstantOf(t.expiresAt)))
  }

  /** A ticket may be claimed exactly while it is neither revoked nor claimed and its expiry is after now, as the texts
      compare. */
  lemma {:induction false} ClaimableExactly(t: Ticket, now: int)
    requires HasText(t, now)
    ensures Claimable(t, now) <==> t.endedAt.None? && t.claimedAt.None? && NotExpired(t, now)
  {
    hide Clock.Less, Clock.ZuluForm, Clock.InstantOf;
    ExpiryIsRightExactly(t.expiresAt, now);
  }

  predicate ClaimedWith(t: Ticket, key: nat) {
    t.claimKey == Some(key) && t.claimedAt.Some? && t.claimedPassport.Some?
  }

  datatype TicketStatus = StatusRevoked | StatusClaimed | StatusExpired | StatusActive

  function StatusOf(t: Ticket, now: int): TicketStatus {
    if t.endedAt.Some? then StatusRevoked
    else if t.claimedAt.Some? then StatusClaimed
    else if t.expiresAt <= now then StatusExpired
    else StatusActive
  }

  /** How a ticket is shown: revoked before claimed before expired. */
  lemma {:induction false} StatusExactly(t: Ticket, now: int)
    ensures StatusOf(t, now) == StatusRevoked <==> t.endedAt.Some?
    ensures StatusOf(t, now) == StatusClaimed <==> t.endedAt.None? && t.claimedAt.Some?
    ensures StatusOf(t, now) == StatusExpired <==> t.endedAt.None? && t.claimedAt.None? && t.expiresAt <= now
    ensures StatusOf(t, now) == StatusActive <==> t.endedAt.None? && t.claimedAt.None? && now < t.expiresAt
  {
  }

  // ----- Effects on the tables -----

  function IssuedCall(id: nat, at: int): Call {
    Call(Some(id), None, Issued, true, at, at)
  }

  function Issue(db: Db, id: nat, t: Ticket, at: int): Db {
    db.(tickets := db.tickets[id := t], events := After(db.events, IssuedCall(id, at)))
  }

  ghost predicate MayIssue(db: Db, id: nat, t: Ticket, at: int) {
    && id !in db.tickets && (forall i :: i in db.tickets ==> db.tickets[i].tokenHash != t.tokenHash)
    && t.endedAt.None? && t.claimedAt.None? && t.claimedPassport.None? && t.claimKey.None?
  }

  function ClaimCall(id: nat, passport: nat, issuedAt: int, at: int): Call {
    Call(Some(id), Some(passport), Claimed, true, issuedAt, at)
  }

  function Claim(db: Db, id: nat, key: nat, passport: nat, at: int, issuedAt: int): Db
    requires id in db.tickets
  {
    var t := db.tickets[id];
    db.(tickets := db.tickets[id := t.(claimedAt := Some(at), claimedPassport := Some(passport),
                                       claimKey := Some(key))],
        passports := db.passports[passport := Passport(None, t.user, t.platform, t.schema, None)],
        events := After(db.events, ClaimCall(id, passport, issuedAt, at)))
  }

  predicate IssuedAt(db: Db, id: nat, at: int) {
    exists i :: 0 <= i < |db.events| && IsIssue(db.events[i], id) && db.events[i].at == at
  }

  predicate IsIssue(e: Event, id: nat) {
    e.ticket == Some(id) && e.stage == Issued && e.completed
  }

  ghost predicate MayClaim(db: Db, id: nat, passport: nat, at: int, issuedAt: int) {
    && id in db.tickets && Claimable(db.tickets[id], at) && passport !in db.passports
    && IssuedAt(db, id, issuedAt)
    && Recorded(db.events, ClaimCall(id, passport, issuedAt, at)) != Refused
  }

  function RevokeTicket(db: Db, id: nat, at: int): Db {
    if id in db.tickets && db.tickets[id].endedAt.None?
    then db.(tickets := db.tickets[id := db.tickets[id].(endedAt := Some(at))])
    else db
  }

  // ----- The invariant -----

  ghost predicate ClaimsOk(db: Db) {
    && (forall i, j ::
          i in db.tickets && j in db.tickets && db.tickets[i].tokenHash == db.tickets[j].tokenHash ==> i == j)
    && (forall i :: i in db.tickets ==> TicketOk(db, i))
    && (forall i, j :: i in db.tickets && j in db.tickets && db.tickets[i].claimedPassport.Some?
                       && db.tickets[i].claimedPassport == db.tickets[j].claimedPassport
                       ==> i == j)
  }

  /** Claim fields are set together, and a claimed passport carries its ticket's owner, platform and schema. */
  ghost predicate TicketOk(db: Db, id: nat)
    requires id in db.tickets
  {
    var t := db.tickets[id];
    && (t.claimedAt.Some? <==> t.claimedPassport.Some?) && (t.claimedAt.Some? <==> t.claimKey.Some?)
    && (t.claimedPassport.Some? ==>
          && t.claimedPassport.value in db.passports
          && db.passports[t.claimedPassport.value].owner == t.user
          && db.passports[t.claimedPassport.value].platform == t.platform
          && db.passports[t.claimedPassport.value].schema == t.schema)
  }

  /** Every ticket has its issue in the log, and every claimed one its claim. */
  ghost predicate LogCovers(db: Db) {
    && LogOk(db.events)
    && (forall i :: i in db.tickets ==> exists at :: IssuedAt(db, i, at))
    && (forall i :: i in db.tickets && db.tickets[i].claimedAt.Some? ==> HasClaim(db.events, i))
    && (forall k :: 0 <= k < |db.events| ==> KnownRow(db, db.events[k]))
  }

  /** The foreign keys of the log. */
  predicate KnownRow(db: Db, e: Event) {
    && (e.ticket.Some? ==> e.ticket.value in db.tickets)
    && (e.passport.Some? ==> e.passport.value in db.passports)
  }

  ghost predicate HasClaim(events: seq<Event>, id: nat) {
    exists k :: 0 <= k < |events| && events[k].ticket == Some(id) && events[k].stage == Claimed && events[k].completed
  }

  ghost predicate EnrollmentOk(db: Db) {
    ClaimsOk(db) && LogCovers(db)
  }

  /** Whatever is claimed stays claimed as it is; a ticket keeps its terms and its end. */
  ghost predicate ClaimsKept(older: Db, newer: Db) {
    forall i :: i in older.tickets ==>
      && i in newer.tickets
      && (var t, u := older.tickets[i], newer.tickets[i];
          && u.(endedAt := None, claimedAt := None, claimedPassport := None, claimKey := None)
             == t.(endedAt := None, claimedAt := None, claimedPassport := None, claimKey := None)
          && (t.claimedAt.Some? ==>
                u.claimedAt == t.claimedAt && u.claimedPassport == t.claimedPassport && u.claimKey == t.claimKey)
          && (t.endedAt.Some? ==> u.endedAt == t.endedAt))
  }

  // ----- Steps -----

  ghost predicate Step(a: Db, b: Db) {
    || b == a
    || (exists id, t, at :: MayIssue(a, id, t, at) && b == Issue(a, id, t, at))
    || (exists id, key, passport, at, issuedAt ::
          id in a.tickets && MayClaim(a, id, passport, at, issuedAt) && b == Claim(a, id, key, passport, at, issuedAt))
    || (exists id, at :: b == RevokeTicket(a, id, at))
    || (exists id, at :: id in a.devices && b == Cascaded(a, id, at))
    || (exists c: Call :: MayRecord(a, c) && b == a.(events := After(a.events, c)))
    || (exists passport: nat, p :: passport !in a.passports && b == WithPassport(a, passport, p))
  }

  function WithPassport(db: Db, passport: nat, p: Passport): Db {
    db.(passports := db.passports[passport := p])
  }

  ghost predicate MayRecord(db: Db, c: Call) {
    KnownRow(db, c.Row())
  }

  lemma HasClaimGrows(events: seq<Event>, c: Call, id: nat)
    requires HasClaim(events, id)
    ensures HasClaim(After(events, c), id)
  {
    var k :| 0 <= k < |events| && events[k].ticket == Some(id) && events[k].stage == Claimed && events[k].completed;
    assert After(events, c)[k] == events[k];
  }

  lemma IssuedGrows(db: Db, events: seq<Event>, id: nat, at: int)
    requires IssuedAt(db, id, at) && db.events <= events
    ensures IssuedAt(db.(events := events), id, at)
  {
    var k :| 0 <= k < |db.events| && IsIssue(db.events[k], id) && db.events[k].at == at;
    assert events[k] == db.events[k];
  }

  lemma LogCoversGrows(a: Db, b: Db, c: Call)
    requires LogCovers(a) && MayRecord(b, c)
    requires b.events == After(a.events, c)
    requires a.tickets.Keys <= b.tickets.Keys && a.passports.Keys <= b.passports.Keys
    requires forall i :: i in b.tickets && i !in a.tickets ==> exists at :: IssuedAt(b, i, at)
    requires forall i :: i in b.tickets && b.tickets[i].claimedAt.Some?
                         ==> (i in a.tickets && a.tickets[i].claimedAt.Some?) || HasClaim(b.events, i)
    ensures LogCovers(b)
  {
    hide LogOk, Recorded, IsIssue;
    RecordingKeepsLog(a.events, c);
    forall k | 0 <= k < |b.events| ensures KnownRow(b, b.events[k]) {
      assert k < |a.events| ==> b.events[k] == a.events[k] && KnownRow(a, a.events[k]);
    }
    forall i | i in b.tickets ensures exists at :: IssuedAt(b, i, at) {
      if i in a.tickets {
        var at :| IssuedAt(a, i, at);
        IssuedGrows(a, b.events, i, at);
        assert IssuedAt(b, i, at);
      }
    }
    forall i | i in b.tickets && b.tickets[i].claimedAt.Some? ensures HasClaim(b.events, i) {
      if i in a.tickets && a.tickets[i].claimedAt.Some? {
        HasClaimGrows(a.events, c, i);
      }
    }
  }

  /** Changes that touch neither the log nor what tickets and passports say about a claim. */
  ghost predicate OnlyEnds(a: Db, b: Db) {
    && b.events == a.events && b.tickets.Keys == a.tickets.Keys && b.passports.Keys >= a.passports.Keys
    && (forall i :: i in a.tickets ==>
          && b.tickets[i].(endedAt := None) == a.tickets[i].(endedAt := None)
          && (a.tickets[i].endedAt.Some? ==> b.tickets[i].endedAt == a.tickets[i].endedAt))
    && (forall p :: p in a.passports ==> b.passports[p].(endedAt := None) == a.passports[p].(endedAt := None))
  }

  lemma OnlyEndsLog(a: Db, b: Db)
    requires LogCovers(a) && OnlyEnds(a, b)
    ensures LogCovers(b)
  {
    hide LogOk, IsIssue;
    forall i | i in b.tickets ensures exists at :: IssuedAt(b, i, at) {
      var at :| IssuedAt(a, i, at);
      assert IssuedAt(b, i, at);
    }
    forall i | i in b.tickets && b.tickets[i].claimedAt.Some? ensures HasClaim(b.events, i) {
      assert b.tickets[i].(endedAt := None) == a.tickets[i].(endedAt := None);
    }
    forall k | 0 <= k < |b.events| ensures KnownRow(b, b.events[k]) {
      assert KnownRow(a, a.events[k]);
    }
  }

  lemma OnlyEndsKeeps(a: Db, b: Db)
    requires EnrollmentOk(a) && OnlyEnds(a, b)
    ensures EnrollmentOk(b) && ClaimsKept(a, b)
  {
    hide LogCovers;
    OnlyEndsLog(a, b);
    forall i | i in b.tickets ensures TicketOk(b, i) {
      assert TicketOk(a, i);
      assert b.tickets[i].(endedAt := None) == a.tickets[i].(endedAt := None);
    }
    forall i, j | i in b.tickets && j in b.tickets ensures
      (b.tickets[i].tokenHash == b.tickets[j].tokenHash ==> i == j)
      && (b.tickets[i].claimedPassport.Some? && b.tickets[i].claimedPassport == b.tickets[j].claimedPassport ==> i == j)
    {
      assert b.tickets[i].(endedAt := None) == a.tickets[i].(endedAt := None);
      assert b.tickets[j].(endedAt := None) == a.tickets[j].(endedAt := None);
    }
  }

  lemma IssueIsLogged(a: Db, id: nat, t: Ticket, at: int)
    requires LogCovers(a) && MayIssue(a, id, t, at)
    ensures IssuedAt(Issue(a, id, t, at), id, at)
  {
    hide LogOk;
    var c := IssuedCall(id, at);
    forall k | 0 <= k < |a.events| ensures !Listed(a.events[k], c.ticket, c.passport) {
      assert KnownRow(a, a.events[k]);
    }
    assert Recorded(a.events, c) == Inserted;
    assert Issue(a, id, t, at).events[|a.events|] == c.Row();
  }

  lemma IssueKeeps(a: Db, id: nat, t: Ticket, at: int)
    requires EnrollmentOk(a) && MayIssue(a, id, t, at)
    ensures EnrollmentOk(Issue(a, id, t, at)) && ClaimsKept(a, Issue(a, id, t, at))
  {
    hide LogCovers, After, IssuedAt;
    var b := Issue(a, id, t, at);
    IssueIsLogged(a, id, t, at);
    IssuedOthers(a, id, t, at);
    forall i | i in b.tickets ensures TicketOk(b, i) {
      if i != id {
        assert TicketOk(a, i);
      }
    }
  }

  lemma IssuedOthers(a: Db, id: nat, t: Ticket, at: int)
    requires LogCovers(a) && MayIssue(a, id, t, at) && IssuedAt(Issue(a, id, t, at), id, at)
    ensures LogCovers(Issue(a, id, t, at))
  {
    hide LogCovers, After, IssuedAt;
    LogCoversGrows(a, Issue(a, id, t, at), IssuedCall(id, at));
  }

  lemma ClaimKeepsLog(a: Db, id: nat, key: nat, passport: nat, at: int, issuedAt: int)
    requires LogCovers(a) && MayClaim(a, id, passport, at, issuedAt)
    ensures LogCovers(Claim(a, id, key, passport, at, issuedAt))
  {
    hide LogOk, IssuedAt, Recorded, Claimable, After;
    var c := ClaimCall(id, passport, issuedAt, at);
    forall k | 0 <= k < |a.events| && a.events[k].passport.Some? ensures a.events[k].passport != c.passport {
      assert KnownRow(a, a.events[k]);
    }
    ClaimIsLogged(a.events, c);
    LogCoversGrows(a, Claim(a, id, key, passport, at, issuedAt), c);
  }

  lemma ClaimKeeps(a: Db, id: nat, key: nat, passport: nat, at: int, issuedAt: int)
    requires EnrollmentOk(a) && MayClaim(a, id, passport, at, issuedAt)
    ensures EnrollmentOk(Claim(a, id, key, passport, at, issuedAt))
    ensures ClaimsKept(a, Claim(a, id, key, passport, at, issuedAt))
  {
    hide LogCovers, IssuedAt, Recorded, After, ClaimsKept;
    ClaimKeepsLog(a, id, key, passport, at, issuedAt);
    ClaimKeepsOthers(a, id, key, passport, at, issuedAt);
    var b := Claim(a, id, key, passport, at, issuedAt);
    forall i | i in b.tickets ensures TicketOk(b, i) {
      assert TicketOk(a, i);
    }
    forall i, j | i in b.tickets && j in b.tickets && b.tickets[i].claimedPassport.Some?
                  && b.tickets[i].claimedPassport == b.tickets[j].claimedPassport ensures i == j
    {
      assert TicketOk(a, i) && TicketOk(a, j);
    }
  }

  lemma ClaimKeepsOthers(a: Db, id: nat, key: nat, passport: nat, at: int, issuedAt: int)
    requires MayClaim(a, id, passport, at, issuedAt)
    ensures ClaimsKept(a, Claim(a, id, key, passport, at, issuedAt))
  {
    hide IssuedAt, Recorded, After;
  }

  /** After a successful recording of a claim the log has one for the ticket; an earlier one found through
      the fresh passport would name that passport. */
  lemma ClaimIsLogged(events: seq<Event>, c: Call)
    requires c.ticket.Some? && c.stage == Claimed && c.completed && Recorded(events, c) != Refused
    requires forall k :: 0 <= k < |events| && events[k].passport.Some? ==> events[k].passport != c.passport
    ensures HasClaim(After(events, c), c.ticket.value)
  {
    if Recorded(events, c) == Inserted {
      assert After(events, c)[|events|] == c.Row();
    } else {
      var k :| 0 <= k < |events| && Listed(events[k], c.ticket, c.passport) && events[k].stage == c.stage
               && events[k].completed;
      assert events[k].ticket == c.ticket;
    }
  }

  lemma RecordKeeps(a: Db, c: Call)
    requires EnrollmentOk(a) && MayRecord(a, c)
    ensures EnrollmentOk(a.(events := After(a.events, c))) && ClaimsKept(a, a.(events := After(a.events, c)))
  {
    hide LogCovers, After;
    var b := a.(events := After(a.events, c));
    LogCoversGrows(a, b, c);
    forall i | i in b.tickets ensures TicketOk(b, i) {
      assert TicketOk(a, i);
    }
  }

  lemma RevokeOnlyEnds(a: Db, id: nat, at: int)
    ensures OnlyEnds(a, RevokeTicket(a, id, at))
  {
    if id in a.tickets && a.tickets[id].endedAt.None? {
      var b := RevokeTicket(a, id, at);
      assert b.tickets.Keys == a.tickets.Keys;
      forall i | i in a.tickets ensures
        b.tickets[i].(endedAt := None) == a.tickets[i].(endedAt := None)
        && (a.tickets[i].endedAt.Some? ==> b.tickets[i].endedAt == a.tickets[i].endedAt)
      {
      }
    }
  }

  lemma CascadeOnlyEnds(a: Db, id: nat, at: int)
    requires id in a.devices
    ensures OnlyEnds(a, Cascaded(a, id, at))
  {
    var b := Cascaded(a, id, at);
    hide IsPassportOf;
    assert b.tickets.Keys == a.tickets.Keys && b.passports.Keys == a.passports.Keys;
    forall i | i in a.tickets ensures
      b.tickets[i].(endedAt := None) == a.tickets[i].(endedAt := None)
      && (a.tickets[i].endedAt.Some? ==> b.tickets[i].endedAt == a.tickets[i].endedAt)
    {
    }
  }

  lemma {:induction false} StepKeepsEnrollment(a: Db, b: Db)
    requires EnrollmentOk(a) && Step(a, b)
    ensures EnrollmentOk(b) && ClaimsKept(a, b)
  {
    hide EnrollmentOk, ClaimsKept, MayClaim, MayIssue, MayRecord, Issue, Claim, RevokeTicket, Cascaded, After;
    if id, t, at :| MayIssue(a, id, t, at) && b == Issue(a, id, t, at) {
      IssueKeeps(a, id, t, at);
    } else if id, key, passport, at, issuedAt :|
        id in a.tickets && MayClaim(a, id, passport, at, issuedAt) && b == Claim(a, id, key, passport, at, issuedAt) {
      ClaimKeeps(a, id, key, passport, at, issuedAt);
    } else if id, at :| b == RevokeTicket(a, id, at) {
      RevokeOnlyEnds(a, id, at);
      OnlyEndsKeeps(a, b);
    } else if id, at :| id in a.devices && b == Cascaded(a, id, at) {
      CascadeOnlyEnds(a, id, at);
      OnlyEndsKeeps(a, b);
    } else if c: Call :| MayRecord(a, c) && b == a.(events := After(a.events, c)) {
      RecordKeeps(a, c);
    } else {
      OnlyEndsKeeps(a, b) by { NewPassportOnlyEnds(a, b); }
    }
  }

  lemma NewPassportOnlyEnds(a: Db, b: Db)
    requires b == a || exists passport: nat, p :: passport !in a.passports && b == WithPassport(a, passport, p)
    ensures OnlyEnds(a, b)
  {
  }

  ghost predicate IsRun(run: seq<Db>) {
    forall i :: 0 <= i < |run| - 1 ==> Step(run[i], run[i + 1])
  }

  /** Over any run: tokens and claimed passports stay unique, claim fields are set together and match their
      passport, the log stays rooted, and nothing claimed ever changes. */
  lemma {:induction false} EnrollmentRun(run: seq<Db>, m: nat, n: nat)
    requires m <= n < |run| && IsRun(run) && EnrollmentOk(run[0])
    ensures EnrollmentOk(run[n]) && ClaimsKept(run[m], run[n])
  {
    hide EnrollmentOk, Step;
    if n > 0 {
      if m < n {
        EnrollmentRun(run, m, n - 1);
      } else {
        EnrollmentRun(run, n - 1, n - 1);
      }
      assert Step(run[n - 1], run[n - 1 + 1]);
      StepKeepsEnrollment(run[n - 1], run[n]);
    }
  }

  lemma EmptyStart(db: Db)
    requires db.tickets == map[] && db.events == []
    ensures EnrollmentOk(db)
  {
  }

  ghost predicate ClaimedAs(db: Db, token: nat, key: nat, id: nat, passport: nat) {
    && id in db.tickets && db.tickets[id].tokenHash == token && ClaimedWith(db.tickets[id], key)
    && db.tickets[id].claimedPassport == Some(passport)
  }

  /** A claim is for ever, whatever happens to the ticket or the passport afterwards. */
  lemma {:induction false} ClaimIsForever(run: seq<Db>, m: nat, n: nat, token: nat, key: nat, id: nat, passport: nat)
    requires m <= n < |run| && IsRun(run) && EnrollmentOk(run[0]) && ClaimedAs(run[m], token, key, id, passport)
    ensures ClaimedAs(run[n], token, key, id, passport)
  {
    EnrollmentRun(run, m, n);
  }

  /** One step of what the connection reads, which becomes durable or not. */
  ghost predicate Moved(working: Db, committed: Db, next: Db, published: Db) {
    Step(working, next) && (published == committed || published == next)
  }

  // ----- The services -----

  datatype ClaimResult = Granted(ticket: nat, passport: nat, replay: bool) | Unavailable | ClaimFails

  /** A grant leads from a to b: the first claim of an open ticket, or an earlier one given again. */
  ghost predicate ClaimedOrReplayed(a: Db, b: Db, token: nat, key: nat, r: ClaimResult, device: nat, now: int)
    requires r.Granted?
  {
    && r.ticket in a.tickets && a.tickets[r.ticket].tokenHash == token
    && if Claimable(a.tickets[r.ticket], now)
       then && r.passport == device && !r.replay
            && exists issuedAt :: MayClaim(a, r.ticket, device, now, issuedAt)
                 && b == Claim(a, r.ticket, key, device, now, issuedAt)
       else ClaimedAs(a, token, key, r.ticket, r.passport) && r.replay && b == a
  }

  /** What a first claim found and wrote: an unclaimed ticket that was neither revoked nor expired gets its three claim
      fields, a fresh passport takes over its terms, the claim is logged, and nothing else changes. */
  ghost predicate FirstClaim(a: Db, b: Db, token: nat, key: nat, r: ClaimResult, device: nat, now: int)
    requires r.Granted?
  {
    && r.ticket in a.tickets && r.passport == device && device !in a.passports
    && var t := a.tickets[r.ticket];
    && t.tokenHash == token && t.endedAt.None? && t.claimedAt.None? && (HasText(t, now) ==> NotExpired(t, now))
    && b.tickets == a.tickets[r.ticket := Ticket(t.user, token, t.platform, t.schema, t.expiresAt, None,
                                                 Some(now), Some(device), Some(key))]
    && b.passports == a.passports[device := Passport(None, t.user, t.platform, t.schema, None)]
    && a.events <= b.events && b == a.(tickets := b.tickets, passports := b.passports, events := b.events)
    && exists i :: 0 <= i < |b.events| && b.events[i].ticket == Some(r.ticket)
                   && b.events[i].stage == Claimed && b.events[i].completed
  }

  lemma FirstClaimIs(a: Db, b: Db, token: nat, key: nat, r: ClaimResult, device: nat, now: int)
    requires r.Granted? && !r.replay && EnrollmentOk(a) && ClaimedOrReplayed(a, b, token, key, r, device, now)
    ensures FirstClaim(a, b, token, key, r, device, now)
  {
    hide Recorded, IssuedAt, NotExpired, EnrollmentOk, After, HasClaim, Claimable, ExpiresAfter;
    var t := a.tickets[r.ticket];
    ClaimableIsOpen(t, now);
    var issuedAt :| MayClaim(a, r.ticket, device, now, issuedAt) && b == Claim(a, r.ticket, key, device, now, issuedAt);
    FirstClaimIsLogged(a, r.ticket, device, now, issuedAt);
    ClaimLogged(b, r.ticket);
  }

  lemma ClaimableIsOpen(t: Ticket, now: int)
    ensures Claimable(t, now) ==> t.endedAt.None? && t.claimedAt.None? && (HasText(t, now) ==> NotExpired(t, now))
  {
    hide NotExpired, ExpiresAfter;
    if HasText(t, now) {
      ClaimableExactly(t, now);
    }
  }

  lemma FirstClaimIsLogged(a: Db, id: nat, device: nat, now: int, issuedAt: int)
    requires EnrollmentOk(a) && MayClaim(a, id, device, now, issuedAt)
    ensures var events := After(a.events, ClaimCall(id, device, issuedAt, now));
            a.events <= events && HasClaim(events, id)
  {
    hide Recorded, IssuedAt, ClaimsOk, LogOk, Claimable;
    var c := ClaimCall(id, device, issuedAt, now);
    forall k | 0 <= k < |a.events| && a.events[k].passport.Some? ensures a.events[k].passport != c.passport {
      assert KnownRow(a, a.events[k]);
    }
    ClaimIsLogged(a.events, c);
  }

  lemma ClaimLogged(db: Db, id: nat)
    requires HasClaim(db.events, id)
    ensures exists i :: 0 <= i < |db.events| && db.events[i].ticket == Some(id)
                        && db.events[i].stage == Claimed && db.events[i].completed
  {
  }

  /** An unclaimed ticket that was revoked or has expired. */
  ghost predicate ClosedTicket(db: Db, token: nat, id: nat, now: int) {
    && id in db.tickets && db.tickets[id].tokenHash == token && db.tickets[id].claimedAt.None?
    && (db.tickets[id].endedAt.Some? || (HasText(db.tickets[id], now) && !NotExpired(db.tickets[id], now)))
  }

  lemma ClosedIsNoTicket(db: Db, token: nat, key: nat, id: nat, now: int)
    requires EnrollmentOk(db) && ClosedTicket(db, token, id, now)
    ensures NoTicket(db, token, key, now)
  {
    hide LogCovers, NotExpired;
    var t := db.tickets[id];
    assert TicketOk(db, id);
    if HasText(t, now) {
      ClaimableExactly(t, now);
    }
  }

  ghost predicate OpenTicket(db: Db, token: nat, id: nat, now: int) {
    id in db.tickets && db.tickets[id].tokenHash == token && Claimable(db.tickets[id], now)
  }

  ghost predicate NoTicket(db: Db, token: nat, key: nat, now: int) {
    forall id :: id in db.tickets && db.tickets[id].tokenHash == token
      ==> !Claimable(db.tickets[id], now) && !ClaimedWith(db.tickets[id], key)
  }

  datatype RowResult = Row(id: nat) | NoRow | RowFailed

  /** Claims the row of a token inside its own nested block, or finds the row this key claimed before. */
  method ClaimRow(repo: Repository<Db>, token: nat, key: nat, now: int, device: nat, fails: Faults)
    returns (r: RowResult)
    requires repo.Valid() && repo.depth > 0
    modifies repo
    ensures repo.Valid() && repo.depth == old(repo.depth) && repo.committed == old(repo.committed)
    ensures match r
            case Row(id) =>
              && id in old(repo.working.tickets) && old(repo.working.tickets[id].tokenHash) == token
              && (if Claimable(old(repo.working.tickets[id]), now)
                  then device !in old(repo.working.passports) && !fails(AtTicket) && !fails(AtPassport)
                       && repo.working == ClaimedRow(old(repo.working), id, key, device, now)
                  else ClaimedWith(old(repo.working.tickets[id]), key) && repo.working == old(repo.working))
            case NoRow =>
              && repo.working == old(repo.working)
              && forall id :: id in repo.working.tickets && repo.working.tickets[id].tokenHash == token
                   ==> !Claimable(repo.working.tickets[id], now) && !ClaimedWith(repo.working.tickets[id], key)
            case RowFailed =>
              && (fails(AtTicket) || fails(AtPassport) || device in old(repo.working.passports))
              && exists id :: id in old(repo.working.tickets) && old(repo.working.tickets[id].tokenHash) == token
                   && Claimable(old(repo.working.tickets[id]), now)
  {
    ghost var before := repo.working;
    var entered, isOutermost := repo.Enter(false);
    if id :| id in repo.working.tickets && repo.working.tickets[id].tokenHash == token
             && Claimable(repo.working.tickets[id], now) {
      var t := repo.working.tickets[id].(claimedAt := Some(now), claimedPassport := Some(device),
                                         claimKey := Some(key));
      var ok := repo.Write(repo.working.(tickets := repo.working.tickets[id := t]), FaultAt(fails, AtTicket));
      if ok && device !in repo.working.passports {
        ok := repo.Write(WithPassport(repo.working, device, Passport(None, t.user, t.platform, t.schema, None)),
                         FaultAt(fails, AtPassport));
      } else {
        ok := false;
      }
      if !ok {
        repo.Abort(isOutermost);
        return RowFailed;
      }
      r := Row(id);
    } else if id :| id in repo.working.tickets && repo.working.tickets[id].tokenHash == token
                    && ClaimedWith(repo.working.tickets[id], key) {
      r := Row(id);
    } else {
      r := NoRow;
    }
    var left := repo.Leave(isOutermost, false);
  }

  function ClaimedRow(db: Db, id: nat, key: nat, passport: nat, at: int): Db
    requires id in db.tickets
  {
    var t := db.tickets[id];
    WithPassport(
      db.(tickets := db.tickets[id := t.(claimedAt := Some(at), claimedPassport := Some(passport),
                                         claimKey := Some(key))]),
      passport, Passport(None, t.user, t.platform, t.schema, None))
  }

  /** The time of the first completed issue of a ticket in the log. */
  method FindIssue(events: seq<Event>, id: nat) returns (at: Option<int>)
    ensures at.Some? ==> exists i :: 0 <= i < |events| && IsIssue(events[i], id) && events[i].at == at.value
    ensures at.None? ==> forall i :: 0 <= i < |events| ==> !IsIssue(events[i], id)
  {
    for i := 0 to |events|
      invariant forall j :: 0 <= j < i ==> !IsIssue(events[j], id)
    {
      if IsIssue(events[i], id) {
        return Some(events[i].at);
      }
    }
    return None;
  }

  method ClaimDeviceEnrollmentTicket(
      repo: Repository<Db>, token: nat, key: nat, valid: bool, now: int, device: nat, fails: Faults)
    returns (r: ClaimResult)
    requires repo.Valid() && repo.depth == 0
    modifies repo
    ensures repo.Valid() && repo.depth == 0
    ensures !r.Granted? ==> repo.committed == old(repo.committed)
    ensures !r.Granted? && !fails(AtCommit) ==> repo.working == old(repo.working) && repo.open == old(repo.open)
    // A grant is a first claim or a replay of one.
    ensures r.Granted? && EnrollmentOk(old(repo.working)) ==>
      !repo.open && ClaimedOrReplayed(old(repo.working), repo.committed, token, key, r, device, now)
    // In terms of the rows: what a first claim found and wrote; a replay writes nothing.
    ensures r.Granted? && EnrollmentOk(old(repo.working)) ==>
      if r.replay then repo.committed == old(repo.working)
      else FirstClaim(old(repo.working), repo.committed, token, key, r, device, now)
    ensures EnrollmentOk(old(repo.working))
            ==> Moved(old(repo.working), old(repo.committed), repo.working, repo.committed)
    // Once claimed: the same key gets the same passport from the issue until 30 days later, however the
    // ticket stands; outside that time it fails; any other key is refused.
    ensures forall k, id, passport ::
      ClaimedAs(old(repo.working), token, k, id, passport) && EnrollmentOk(old(repo.working))
      && valid && !old(repo.open) && !fails(AtBegin) && !fails(AtCommit)
      ==> if k != key then r == Unavailable
          else forall t :: IssuedAt(old(repo.working), id, t)
                 ==> r == if 0 <= now - t <= MAX_SAFE_DURATION then Granted(id, passport, true) else ClaimFails
    // An open ticket is granted whenever nothing fails; a token that neither opens nor replays one is refused.
    ensures forall id, t ::
      EnrollmentOk(old(repo.working)) && OpenTicket(old(repo.working), token, id, now)
      && device !in old(repo.working.passports) && IssuedAt(old(repo.working), id, t)
         && 0 <= now - t <= MAX_SAFE_DURATION
      && valid && !old(repo.open) && (forall p :: !fails(p))
      ==> r == Granted(id, device, false)
    ensures valid && !old(repo.open) && !fails(AtBegin) && NoTicket(old(repo.working), token, key, now)
            ==> r == Unavailable
    ensures EnrollmentOk(old(repo.working)) && valid && !old(repo.open) && !fails(AtBegin)
            && (exists id :: ClosedTicket(old(repo.working), token, id, now))
            ==> r == Unavailable
  {
    hide EnrollmentOk, Step, Claimable, MayClaim, Claim, ClaimsOk, LogCovers, FirstClaim, ClosedTicket, NoTicket;
    ghost var before := repo.working;
    StayingIsStep(before);
    if !valid {
      return ClaimFails;
    }
    var entered, isOutermost := repo.Enter(fails(AtBegin));
    if !entered {
      return ClaimFails;
    }
    if EnrollmentOk(before) {
      if id :| ClosedTicket(before, token, id, now) {
        ClosedIsNoTicket(before, token, key, id, now);
      }
    }
    r := ClaimInside(repo, token, key, now, device, fails);
    if r.Granted? && EnrollmentOk(before) {
      if !r.replay {
        FirstClaimIs(before, repo.working, token, key, r, device, now);
      }
      GrantIsStep(before, repo.working, r.ticket, key, device, now);
    }
    if r.Granted? {
      var ok := repo.Leave(isOutermost, fails(AtCommit));
      if !ok {
        r := ClaimFails;
      }
    } else {
      repo.Abort(isOutermost);
    }
  }

  lemma StayingIsStep(a: Db)
    ensures Step(a, a)
  {
  }

  lemma GrantIsStep(a: Db, b: Db, id: nat, key: nat, device: nat, now: int)
    requires b == a || (id in a.tickets && exists issuedAt :: MayClaim(a, id, device, now, issuedAt)
                                                              && b == Claim(a, id, key, device, now, issuedAt))
    ensures Step(a, b)
  {
    hide MayClaim, Claim;
  }

  lemma ClaimedTokenIsTaken(db: Db, token: nat, key: nat, id: nat, passport: nat, now: int)
    requires EnrollmentOk(db) && ClaimedAs(db, token, key, id, passport)
    ensures forall i ::
      i in db.tickets && db.tickets[i].tokenHash == token ==> i == id && !Claimable(db.tickets[i], now)
  {
    hide LogCovers;
  }

  lemma IssueIsUnique(db: Db, id: nat, t: int, u: int)
    requires EnrollmentOk(db) && IssuedAt(db, id, t) && IssuedAt(db, id, u)
    ensures t == u
  {
    hide Rooted;
    var i :| 0 <= i < |db.events| && IsIssue(db.events[i], id) && db.events[i].at == t;
    var j :| 0 <= j < |db.events| && IsIssue(db.events[j], id) && db.events[j].at == u;
    assert Shares(db.events[i], db.events[j]) && Shares(db.events[j], db.events[i]);
  }

  /** Recording the claim of a claimed ticket again never adds a row. */
  lemma ReplayIsLogged(events: seq<Event>, c: Call)
    requires c.ticket.Some? && c.stage == Claimed && c.completed && HasClaim(events, c.ticket.value)
    ensures Recorded(events, c) == if ValidCall(c) then AlreadyThere else Refused
  {
    var k :| 0 <= k < |events| && events[k].ticket == c.ticket && events[k].stage == Claimed && events[k].completed;
    assert Listed(events[k], c.ticket, c.passport);
  }

  /** The part of a claim inside its transaction. */
  method ClaimInside(repo: Repository<Db>, token: nat, key: nat, now: int, device: nat, fails: Faults)
    returns (r: ClaimResult)
    requires repo.Valid() && repo.depth > 0
    modifies repo
    ensures repo.Valid() && repo.depth == old(repo.depth) && repo.committed == old(repo.committed)
    ensures r.Granted? && EnrollmentOk(old(repo.working))
            ==> ClaimedOrReplayed(old(repo.working), repo.working, token, key, r, device, now)
    ensures forall k, id, passport ::
      ClaimedAs(old(repo.working), token, k, id, passport) && EnrollmentOk(old(repo.working))
      ==> if k != key then r == Unavailable
          else forall t :: IssuedAt(old(repo.working), id, t)
                 ==> r == if 0 <= now - t <= MAX_SAFE_DURATION then Granted(id, passport, true) else ClaimFails
    // An open ticket is granted whenever nothing fails; a token that neither opens nor replays one is refused.
    ensures forall id, t ::
      EnrollmentOk(old(repo.working)) && OpenTicket(old(repo.working), token, id, now)
      && device !in old(repo.working.passports) && IssuedAt(old(repo.working), id, t)
         && 0 <= now - t <= MAX_SAFE_DURATION
      && (forall p :: !fails(p))
      ==> r == Granted(id, device, false)
    ensures NoTicket(old(repo.working), token, key, now) ==> r == Unavailable
  {
    hide EnrollmentOk, Claimable, ClaimsOk, LogCovers, LogOk, Recorded, After, HasClaim;
    ghost var before := repo.working;
    var existing := exists id :: id in repo.working.tickets && repo.working.tickets[id].tokenHash == token
                                 && repo.working.tickets[id].claimKey == Some(key)
                                 && repo.working.tickets[id].claimedPassport.Some?;
    var row := ClaimRow(repo, token, key, now, device, fails);
    ghost var claimed := exists k, id, passport :: ClaimedAs(before, token, k, id, passport);
    if EnrollmentOk(before) {
      forall k, id, passport | ClaimedAs(before, token, k, id, passport)
        ensures (row.Row? && row.id == id && k == key && repo.working == before)
                || (row.NoRow? && k != key)
      {
        ClaimedTokenIsTaken(before, token, k, id, passport, now);
      }
    }
    match row {
      case RowFailed => return ClaimFails;
      case NoRow => return Unavailable;
      case Row(id) =>
        ghost var claimable := Claimable(before.tickets[id], now);
        ghost var mid := repo.working;
        if EnrollmentOk(before) {
          TokenIsUnique(before, id);
          if claimable {
            UnclaimedTokenHasNoKey(before, token, id, now);
          } else {
            AlreadyLogged(before, id);
          }
          forall t, u | IssuedAt(mid, id, t) && IssuedAt(mid, id, u) ensures t == u {
            assert IssuedAt(before, id, t) && IssuedAt(before, id, u);
            IssueIsUnique(before, id, t, u);
          }
        }
        assert forall t :: IssuedAt(mid, id, t) <==> IssuedAt(before, id, t);
        r := GrantClaim(repo, id, now, device, existing, fails);
        if r.Granted? && claimable {
          var t :| IssuedAt(mid, id, t)
                   && repo.working == mid.(events := After(mid.events, ClaimCall(id, device, t, now)))
                   && Recorded(mid.events, ClaimCall(id, device, t, now)) != Refused;
          assert MayClaim(before, id, device, now, t);
          assert repo.working == Claim(before, id, key, device, now, t);
        }
    }
  }

  /** Records the claim of a row in the log, with the time since its issue. */
  method GrantClaim(repo: Repository<Db>, id: nat, now: int, device: nat, existing: bool, fails: Faults)
    returns (r: ClaimResult)
    requires repo.Valid() && repo.depth > 0 && id in repo.working.tickets
    modifies repo
    ensures repo.Valid() && repo.depth == old(repo.depth) && repo.committed == old(repo.committed)
    ensures r.Granted? ==>
      var passport := old(repo.working.tickets[id].claimedPassport);
      && passport.Some? && r == Granted(id, passport.value, existing || passport.value != device)
      && exists t :: IssuedAt(old(repo.working), id, t)
           && repo.working
              == old(repo.working).(events := After(old(repo.working.events), ClaimCall(id, passport.value, t, now)))
           && Recorded(old(repo.working.events), ClaimCall(id, passport.value, t, now)) != Refused
    ensures !r.Granted? ==> r == ClaimFails && repo.working == old(repo.working)
    // A claim that is logged already is found again as long as the log accepts the time since the issue.
    ensures IssuedOnce(old(repo.working), id) && HasClaim(old(repo.working.events), id)
            && old(repo.working.tickets[id].claimedPassport).Some? ==>
      var passport := old(repo.working.tickets[id].claimedPassport).value;
      && repo.working == old(repo.working)
      && forall t :: IssuedAt(old(repo.working), id, t)
           ==> r == if 0 <= now - t <= MAX_SAFE_DURATION then Granted(id, passport, existing || passport != device)
               else ClaimFails
    ensures IssuedOnce(old(repo.working), id) && old(repo.working.tickets[id].claimedPassport).Some?
            && !fails(AtLifecycle)
            ==> forall t :: IssuedAt(old(repo.working), id, t) && 0 <= now - t <= MAX_SAFE_DURATION ==> r.Granted?
  {
    hide Recorded;
    ghost var before := repo.working;
    var passport := repo.working.tickets[id].claimedPassport;
    if passport.None? {
      return ClaimFails;
    }
    var issued := FindIssue(repo.working.events, id);
    if issued.None? {
      return ClaimFails;
    }
    assert IssuedAt(before, id, issued.value);
    var c := ClaimCall(id, passport.value, issued.value, now);
    IssuedMayBeClaimed(before, c, issued.value);
    DurationIsBounded(before.events, c);
    if HasClaim(before.events, id) {
      ReplayIsLogged(before.events, c);
    }
    var event := RecordDeviceLifecycleStage(repo, c, FaultAt(fails, AtLifecycle));
    if event.None? {
      return ClaimFails;
    }
    return Granted(id, passport.value, existing || passport.value != device);
  }

  ghost predicate IssuedOnce(db: Db, id: nat) {
    forall t, u :: IssuedAt(db, id, t) && IssuedAt(db, id, u) ==> t == u
  }

  lemma DurationIsBounded(events: seq<Event>, c: Call)
    ensures Recorded(events, c) != Refused ==> 0 <= c.occurredAt - c.startedAt <= MAX_SAFE_DURATION
  {
  }

  lemma TokenIsUnique(db: Db, id: nat)
    requires EnrollmentOk(db) && id in db.tickets
    ensures forall i :: i in db.tickets && db.tickets[i].tokenHash == db.tickets[id].tokenHash ==> i == id
  {
    hide LogCovers;
  }

  lemma IssuedMayBeClaimed(db: Db, c: Call, at: int)
    requires c.ticket.Some? && c.stage == Claimed && c.completed && c.startedAt == at
             && IssuedAt(db, c.ticket.value, at)
    ensures 0 <= c.occurredAt - at <= MAX_SAFE_DURATION ==> Recorded(db.events, c) != Refused
  {
    var i :| 0 <= i < |db.events| && IsIssue(db.events[i], c.ticket.value) && db.events[i].at == at;
    assert Listed(db.events[i], c.ticket, c.passport);
  }

  lemma UnclaimedTokenHasNoKey(db: Db, token: nat, id: nat, now: int)
    requires EnrollmentOk(db) && id in db.tickets && db.tickets[id].tokenHash == token && Claimable(db.tickets[id], now)
    ensures forall i :: i in db.tickets && db.tickets[i].tokenHash == token ==> db.tickets[i].claimKey.None?
  {
    hide LogCovers;
    assert TicketOk(db, id);
  }

  lemma AlreadyLogged(db: Db, id: nat)
    requires EnrollmentOk(db) && id in db.tickets && db.tickets[id].claimedAt.Some?
    ensures HasClaim(db.events, id)
  {
  }

  /** Issues a ticket together with the first stage of its log, or neither. */
  method IssueDeviceEnrollmentTicket(
      repo: Repository<Db>, id: nat, user: nat, token: nat, platform: nat, schema: nat, valid: bool, ttl: int, now: int,
      fails: Faults)
    returns (ok: bool)
    requires repo.Valid() && repo.depth == 0
    modifies repo
    ensures repo.Valid() && repo.depth == 0
    ensures ok ==>
      && valid && 0 < ttl <= MAX_ENROLLMENT_TTL && !repo.open
      && var t := Ticket(user, token, platform, schema, now + ttl, None, None, None, None);
         && MayIssue(old(repo.working), id, t, now) && repo.committed == Issue(old(repo.working), id, t, now)
         && (EnrollmentOk(old(repo.working)) ==> EnrollmentOk(repo.committed) && IssuedAt(repo.committed, id, now))
    ensures !ok ==> repo.committed == old(repo.committed)
    ensures !ok && !fails(AtCommit) ==> repo.working == old(repo.working) && repo.open == old(repo.open)
    ensures !old(repo.open) && valid && 0 < ttl <= MAX_ENROLLMENT_TTL && id !in old(repo.working.tickets)
            && (forall i :: i in old(repo.working.tickets) ==> old(repo.working.tickets[i].tokenHash) != token)
            && (forall p :: !fails(p))
            ==> ok
    ensures ok ==> 0 < ttl <= 24 * 60 * 60 * 1_000_000
    ensures ok ==>
      && repo.committed.tickets
         == old(repo.working.tickets)[id := Ticket(user, token, platform, schema, now + ttl, None, None, None, None)]
      && old(repo.working.events) <= repo.committed.events
      && repo.committed == old(repo.working).(tickets := repo.committed.tickets, events := repo.committed.events)
    ensures Moved(old(repo.working), old(repo.committed), repo.working, repo.committed)
  {
    hide EnrollmentOk;
    if !valid || ttl <= 0 || ttl > MAX_ENROLLMENT_TTL {
      return false;
    }
    ghost var before := repo.working;
    var entered, isOutermost := repo.Enter(fails(AtBegin));
    if !entered {
      return false;
    }
    var t := Ticket(user, token, platform, schema, now + ttl, None, None, None, None);
    ok := false;
    var used := exists i :: i in repo.working.tickets && repo.working.tickets[i].tokenHash == token;
    if id !in repo.working.tickets && !used {
      ok := repo.Write(repo.working.(tickets := repo.working.tickets[id := t]), FaultAt(fails, AtTicket));
      if ok {
        var event := RecordDeviceLifecycleStage(repo, IssuedCall(id, now), FaultAt(fails, AtLifecycle));
        ok := event.Some?;
        assert ok ==> repo.working == Issue(before, id, t, now);
      }
    }
    if ok {
      if EnrollmentOk(before) {
        IssueKeeps(before, id, t, now);
        IssueLogged(before, id, t, now);
      }
      ok := repo.Leave(isOutermost, fails(AtCommit));
    } else {
      repo.Abort(isOutermost);
    }
  }

  lemma IssueLogged(a: Db, id: nat, t: Ticket, at: int)
    requires EnrollmentOk(a) && MayIssue(a, id, t, at)
    ensures IssuedAt(Issue(a, id, t, at), id, at)
  {
    hide ClaimsOk, LogCovers;
    IssueIsLogged(a, id, t, at);
  }

  /** The ticket, if there is one, has ended at its first time, and nothing else changed. */
  ghost predicate TicketEnded(a: Db, b: Db, id: nat, at: int) {
    && b == a.(tickets := b.tickets) && b.tickets.Keys == a.tickets.Keys
    && (forall i :: i in a.tickets && i != id ==> b.tickets[i] == a.tickets[i])
    && (id in a.tickets ==>
          && b.tickets[id] == a.tickets[id].(endedAt := b.tickets[id].endedAt)
          && EndsAt(a.tickets[id].endedAt, b.tickets[id].endedAt, at))
  }

  /** Ends a ticket unless it has ended before; a claim made with it stays. */
  method RevokeDeviceEnrollmentTicket(repo: Repository<Db>, id: nat, validReason: bool, at: int, fault: Fault)
    returns (r: Option<bool>)
    requires repo.Valid() && repo.depth == 0
    modifies repo
    ensures repo.Valid() && repo.depth == 0
    ensures r.Some? ==>
      && validReason && repo.committed == RevokeTicket(old(repo.working), id, at)
      && (r.value <==> id in old(repo.working.tickets) && old(repo.working.tickets[id].endedAt).None?)
      && (id in repo.committed.tickets ==> forall now :: StatusOf(repo.committed.tickets[id], now) == StatusRevoked)
    ensures r.Some? ==> TicketEnded(old(repo.working), repo.committed, id, at)
    ensures r.None? ==> repo.committed == old(repo.committed)
    ensures r.None? <==> !validReason || fault != NoFault
    ensures Moved(old(repo.working), old(repo.committed), repo.working, repo.committed)
  {
    if !validReason {
      return None;
    }
    var found := id in repo.working.tickets && repo.working.tickets[id].endedAt.None?;
    var ok := repo.Write(RevokeTicket(repo.working, id, at), fault);
    r := if ok then Some(found) else None;
  }

  // ----- Any sequence of calls -----

  datatype Command =
    | IssueTicket(id: nat, user: nat, token: nat, platform: nat, schema: nat, valid: bool, ttl: int, now: int,
                  fails: Faults)
    | ClaimTicket(token: nat, key: nat, valid: bool, now: int, device: nat, fails: Faults)
    | EndTicket(id: nat, validReason: bool, at: int, fault: Fault)
    | Register(passport: nat, row: Passport, fault: Fault)
    | RecordStage(call: Call, fails: Faults)
    | EndDevice(id: nat, at: int, fails: Faults)
    | Restart

  /** What a client is told: how its claim ended, or whether there was a ticket to end. */
  datatype Answer = NoAnswer | Answer(result: ClaimResult) | TicketWasEnded(found: bool)

  ghost predicate Healthy(working: Db, committed: Db) {
    EnrollmentOk(working) && EnrollmentOk(committed) && ClaimsKept(committed, working)
  }

  /** The client was given a passport for its token and key. */
  predicate GrantedTo(c: Command, a: Answer) {
    c.ClaimTicket? && a.Answer? && a.result.Granted?
  }

  ghost predicate Stands(db: Db, c: Command, a: Answer) {
    && (GrantedTo(c, a) ==> ClaimedAs(db, c.token, c.key, a.result.ticket, a.result.passport))
    && (Ends(c, a) ==> c.id in db.tickets && db.tickets[c.id].endedAt.Some?)
  }

  /** The call ended a ticket. */
  predicate Ends(c: Command, a: Answer) {
    c.EndTicket? && a == TicketWasEnded(true)
  }

  lemma GrantStands(a: Db, b: Db, token: nat, key: nat, r: ClaimResult, device: nat, now: int)
    requires r.Granted? && ClaimedOrReplayed(a, b, token, key, r, device, now)
    ensures ClaimedAs(b, token, key, r.ticket, r.passport)
    ensures r.replay <==> ClaimedAs(a, token, key, r.ticket, r.passport)
  {
    hide After, Recorded, IssuedAt;
  }

  /** The changes that no claim is part of. */
  lemma OthersAreSteps(a: Db)
    ensures forall c: Call :: MayRecord(a, c) ==> Step(a, a.(events := After(a.events, c)))
    ensures forall id, at :: id in a.devices ==> Step(a, Cascaded(a, id, at))
    ensures forall passport: nat, p :: passport !in a.passports ==> Step(a, WithPassport(a, passport, p))
  {
    hide After, Cascaded, WithPassport, MayIssue, MayClaim, MayRecord;
  }

  lemma KeptOn(a: Db, b: Db, c: Db)
    ensures ClaimsKept(a, a)
    ensures ClaimsKept(a, b) && ClaimsKept(b, c) ==> ClaimsKept(a, c)
  {
  }

  lemma MovedKeeps(working: Db, committed: Db, next: Db, published: Db)
    requires Healthy(working, committed) && Moved(working, committed, next, published)
    ensures Healthy(next, published) && ClaimsKept(committed, published)
  {
    hide EnrollmentOk, Step, ClaimsKept;
    StepKeepsEnrollment(working, next);
    KeptOn(committed, working, next);
    KeptOn(next, next, next);
  }

  ghost predicate IsUnended(db: Db, id: nat) {
    id in db.tickets && db.tickets[id].endedAt.None?
  }

  method Execute(repo: Repository<Db>, c: Command) returns (a: Answer)
    requires repo.Valid() && repo.depth == 0
    modifies repo
    ensures repo.Valid() && repo.depth == 0
    ensures Healthy(old(repo.working), old(repo.committed)) ==>
      && Healthy(repo.working, repo.committed) && ClaimsKept(old(repo.committed), repo.committed)
      && Stands(repo.committed, c, a)
    ensures Healthy(old(repo.working), old(repo.committed)) && GrantedTo(c, a) ==>
      && (a.result.replay <==> ClaimedAs(old(repo.working), c.token, c.key, a.result.ticket, a.result.passport))
      && (!a.result.replay ==> IsUnended(old(repo.working), a.result.ticket))
  {
    hide EnrollmentOk, Step, ClaimsKept, Cascaded, Recorded, RevokeTicket, Issue, Claim, MayClaim, MayIssue,
      Claimable;
    ghost var working, committed := repo.working, repo.committed;
    a := NoAnswer;
    StayingIsStep(working);
    OthersAreSteps(working);
    match c {
      case IssueTicket(id, user, token, platform, schema, valid, ttl, now, fails) =>
        var ok := IssueDeviceEnrollmentTicket(repo, id, user, token, platform, schema, valid, ttl, now, fails);
      case ClaimTicket(token, key, valid, now, device, fails) =>
        var r := ClaimDeviceEnrollmentTicket(repo, token, key, valid, now, device, fails);
        a := Answer(r);
        if EnrollmentOk(working) && r.Granted? {
          GrantStands(working, repo.committed, token, key, r, device, now);
        }
      case EndTicket(id, validReason, at, fault) =>
        var r := RevokeDeviceEnrollmentTicket(repo, id, validReason, at, fault);
        a := if r.Some? then TicketWasEnded(r.value) else NoAnswer;
      case Register(passport, row, fault) =>
        var ok := repo.Write(
          if passport in repo.working.passports then repo.working else WithPassport(repo.working, passport, row),
          if passport in repo.working.passports then StatementFails else fault);
        assert Moved(working, committed, repo.working, repo.committed);
      case RecordStage(call, fails) =>
        var entered, isOutermost := repo.Enter(fails(AtBegin));
        if entered {
          var event := RecordDeviceLifecycleStage(
            repo, call, if KnownRow(repo.working, call.Row()) then FaultAt(fails, AtLifecycle) else StatementFails);
          if event.Some? {
            assert repo.working == working
                   || (MayRecord(working, call) && repo.working == working.(events := After(working.events, call)));
            var ok := repo.Leave(isOutermost, fails(AtCommit));
          } else {
            repo.Abort(isOutermost);
          }
        }
        assert Moved(working, committed, repo.working, repo.committed);
      case EndDevice(id, at, fails) =>
        var entered, isOutermost := repo.Enter(fails(AtBegin));
        if entered {
          if id in repo.working.devices {
            var ok := repo.Write(Cascaded(repo.working, id, at), FaultAt(fails, AtCascade));
            if ok {
              ok := repo.Leave(isOutermost, fails(AtCommit));
            } else {
              repo.Abort(isOutermost);
            }
          } else {
            repo.Abort(isOutermost);
          }
        }
        assert Moved(working, committed, repo.working, repo.committed);
      case Restart =>
        repo.Restart();
        KeptOn(committed, committed, committed);
        return;
    }
    if Healthy(working, committed) {
      MovedKeeps(working, committed, repo.working, repo.committed);
    }
  }

  /** Two grants name the same passport exactly if they were for the same token; then the key was the same,
      and the later one was a replay. */
  predicate Agree(c: Command, a: Answer, d: Command, b: Answer) {
    GrantedTo(c, a) && GrantedTo(d, b) ==>
      && (c.token == d.token <==> a.result.passport == b.result.passport)
      && (c.token == d.token ==> c.key == d.key && a.result.ticket == b.result.ticket && b.result.replay)
  }

  /** After a ticket has ended it is granted again at most to whoever claimed it before. */
  predicate NoFirstGrantAfterEnd(c: Command, a: Answer, d: Command, b: Answer) {
    Ends(c, a) && GrantedTo(d, b) && b.result.ticket == c.id ==> b.result.replay
  }

  lemma StandsOn(a: Db, b: Db, c: Command, answer: Answer)
    requires Stands(a, c, answer) && ClaimsKept(a, b)
    ensures Stands(b, c, answer)
  {
  }

  /** An earlier grant that was durable before a new one. */
  lemma GrantsAgree(working: Db, committed: Db, c: Command, a: Answer, d: Command, b: Answer)
    requires EnrollmentOk(working) && EnrollmentOk(committed)
    requires Stands(working, c, a) && Stands(committed, c, a) && Stands(committed, d, b)
    requires GrantedTo(d, b) ==>
               && (b.result.replay <==> ClaimedAs(working, d.token, d.key, b.result.ticket, b.result.passport))
               && (!b.result.replay ==> IsUnended(working, b.result.ticket))
    ensures Agree(c, a, d, b) && NoFirstGrantAfterEnd(c, a, d, b)
  {
    hide LogCovers;
    if GrantedTo(c, a) && GrantedTo(d, b) {
      ClaimsAgree(committed, a.result.ticket, b.result.ticket);
    }
  }

  lemma ClaimsAgree(db: Db, id: nat, other: nat)
    requires EnrollmentOk(db) && id in db.tickets && other in db.tickets
    ensures db.tickets[id].tokenHash == db.tickets[other].tokenHash ==> id == other
    ensures db.tickets[id].claimedPassport.Some? && db.tickets[id].claimedPassport == db.tickets[other].claimedPassport
            ==> id == other
  {
    hide LogCovers;
  }

  /** Over any calls with any faults and restarts: what a client was granted is durable and stays, every token
      is granted to one key and one passport only, no passport to two tokens, and no ticket is granted for the first
      time after it was ended. */
  method ExecuteAll(repo: Repository<Db>, commands: seq<Command>) returns (answers: seq<Answer>)
    requires repo.Valid() && repo.depth == 0
    modifies repo
    ensures repo.Valid() && repo.depth == 0 && |answers| == |commands|
    ensures Healthy(old(repo.working), old(repo.committed)) ==>
      && Healthy(repo.working, repo.committed) && ClaimsKept(old(repo.committed), repo.committed)
      && (forall i :: 0 <= i < |commands| ==> Stands(repo.committed, commands[i], answers[i]))
      && (forall i, j :: 0 <= i < j < |commands| ==> Agree(commands[i], answers[i], commands[j], answers[j]))
      && (forall i, j :: 0 <= i < j < |commands| ==>
            NoFirstGrantAfterEnd(commands[i], answers[i], commands[j], answers[j]))
  {
    hide EnrollmentOk, ClaimsKept, Stands, Agree, ClaimedAs, NoFirstGrantAfterEnd, IsUnended;
    answers := [];
    ghost var start, sound := repo.committed, Healthy(repo.working, repo.committed);
    KeptOn(start, start, start);
    for n := 0 to |commands|
      invariant repo.Valid() && repo.depth == 0 && |answers| == n
      invariant sound ==> Healthy(repo.working, repo.committed) && ClaimsKept(start, repo.committed)
      invariant sound ==> forall i :: 0 <= i < n ==> Stands(repo.committed, commands[i], answers[i])
      invariant sound ==> forall i, j :: 0 <= i < j < n ==> Agree(commands[i], answers[i], commands[j], answers[j])
      invariant sound ==> forall i, j :: 0 <= i < j < n ==>
        NoFirstGrantAfterEnd(commands[i], answers[i], commands[j], answers[j])
    {
      ghost var working, committed := repo.working, repo.committed;
      var a := Execute(repo, commands[n]);
      if sound {
        KeptOn(start, committed, repo.committed);
        forall i | 0 <= i < n
          ensures Stands(repo.committed, commands[i], answers[i]) && Agree(commands[i], answers[i], commands[n], a)
          ensures NoFirstGrantAfterEnd(commands[i], answers[i], commands[n], a)
        {
          StandsOn(committed, working, commands[i], answers[i]);
          StandsOn(committed, repo.committed, commands[i], answers[i]);
          GrantsAgree(working, repo.committed, commands[i], answers[i], commands[n], a);
        }
      }
      answers := answers + [a];
    }
  }
}
