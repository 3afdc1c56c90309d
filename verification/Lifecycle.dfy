/** The ordered log of a device's lifecycle stages. */
module Lifecycle {
  import opened Basics
  import opened Database
  import opened Transactions

  const MAX_SAFE_DURATION: int := 30 * 24 * 60 * 60 * 1_000_000  // 30 days in microseconds

  function Previous(s: Stage): Option<Stage> {
    match s
    case Issued => None
    case Claimed => Some(Issued)
    case ConfigReady => Some(Claimed)
    case Delivered => Some(ConfigReady)
    case AcceptanceVerified => Some(Delivered)
  }

  /** One request to record a stage. */
  datatype Call = Call(
    ticket: Option<nat>, passport: Option<nat>, stage: Stage, completed: bool, startedAt: int, occurredAt: int)
  {
    function Row(): Event {
      Event(ticket, passport, stage, completed, occurredAt)
    }
  }

  predicate Listed(e: Event, ticket: Option<nat>, passport: Option<nat>) {
    (ticket.Some? && e.ticket == ticket) || (passport.Some? && e.passport == passport)
  }

  predicate HasStage(events: seq<Event>, c: Call, stage: Stage) {
    exists i :: 0 <= i < |events| && Listed(events[i], c.ticket, c.passport)
                && events[i].stage == stage && events[i].completed
  }

  predicate ValidCall(c: Call) {
    && (c.ticket.Some? || c.passport.Some?)
    && 0 <= c.occurredAt - c.startedAt <= MAX_SAFE_DURATION
  }

  /** Only an operator's device may be ready without having been claimed. */
  predicate MayFollow(events: seq<Event>, c: Call) {
    || Previous(c.stage).None?
    || (c.stage == ConfigReady && c.ticket.None? && c.passport.Some?)
    || HasStage(events, c, Previous(c.stage).value)
  }

  datatype Recording = Refused | AlreadyThere | Inserted

  function Recorded(events: seq<Event>, c: Call): Recording {
    if !ValidCall(c) then Refused
    else if c.completed && HasStage(events, c, c.stage) then AlreadyThere
    else if c.completed && !MayFollow(events, c) then Refused
    else Inserted
  }

  function After(events: seq<Event>, c: Call): seq<Event> {
    if Recorded(events, c) == Inserted then events + [c.Row()] else events
  }

  /** Scans the listed events, then inserts; the returned event is the recorded or the earlier one. */
  method RecordDeviceLifecycleStage(repo: Repository<Db>, c: Call, fault: Fault) returns (r: Option<Event>)
    requires repo.Valid() && repo.depth > 0
    modifies repo
    ensures repo.Valid() && repo.depth == old(repo.depth) && repo.committed == old(repo.committed)
    ensures repo.published == old(repo.published)
    ensures repo.working == old(repo.working).(events := repo.working.events)
    ensures r.None? <==> Recorded(old(repo.working.events), c) == Refused
                         || (Recorded(old(repo.working.events), c) == Inserted && fault == StatementFails)
    ensures repo.working.events == if r.None? then old(repo.working.events) else After(old(repo.working.events), c)
    ensures r.Some? ==> r.value in repo.working.events && r.value.stage == c.stage && r.value.completed == c.completed
                        && Listed(r.value, c.ticket, c.passport)
  {
    if (c.ticket.None? && c.passport.None?) || c.occurredAt < c.startedAt
       || c.occurredAt - c.startedAt > MAX_SAFE_DURATION {
      return None;
    }
    var events := repo.working.events;
    if c.completed {
      var previous := Previous(c.stage);
      var follows := previous.None? || (c.stage == ConfigReady && c.ticket.None? && c.passport.Some?);
      for i := 0 to |events|
        invariant !HasStage(events[..i], c, c.stage)
        invariant follows == MayFollow(events[..i], c)
      {
        var event := events[i];
        assert events[..i + 1] == events[..i] + [event];
        if Listed(event, c.ticket, c.passport) && event.completed {
          if event.stage == c.stage {
            return Some(event);
          }
          follows := follows || previous == Some(event.stage);
        }
      }
      assert events[..|events|] == events;
      if !follows {
        return None;
      }
    }
    var ok := repo.Write(repo.working.(events := events + [c.Row()]), fault);
    r := if ok then Some(c.Row()) else None;
  }

  // ----- What every log keeps -----

  predicate Shares(a: Event, b: Event) {
    (a.ticket.Some? && a.ticket == b.ticket) || (a.passport.Some? && a.passport == b.passport)
  }

  /** At most one completed event per (ticket, stage) and per (passport, stage). */
  ghost predicate CompletedOnce(events: seq<Event>) {
    forall i, j :: 0 <= i < j < |events| && events[i].completed && events[j].completed
                   && events[i].stage == events[j].stage
                   ==> !Shares(events[i], events[j])
  }

  /** The event chains back, through earlier completed events of each previous stage that share a
      ticket or passport at each link, to an issued ticket or an operator's ready device. */
  ghost predicate Rooted(events: seq<Event>, i: nat)
    requires i < |events|
  {
    || events[i].stage == Issued
    || (events[i].stage == ConfigReady && events[i].ticket.None?)
    || exists j :: 0 <= j < i && events[j].completed && Some(events[j].stage) == Previous(events[i].stage)
                   && Shares(events[j], events[i]) && Rooted(events, j)
  }

  ghost predicate LogOk(events: seq<Event>) {
    && CompletedOnce(events)
    && forall i :: 0 <= i < |events| && events[i].completed ==> Rooted(events, i)
  }

  lemma {:induction false} RootedInPrefix(events: seq<Event>, e: Event, i: nat)
    requires i < |events| && Rooted(events, i)
    ensures Rooted(events + [e], i)
  {
    var all := events + [e];
    assert all[i] == events[i];
    if j :| 0 <= j < i && events[j].completed && Some(events[j].stage) == Previous(events[i].stage)
            && Shares(events[j], events[i]) && Rooted(events, j) {
      RootedInPrefix(events, e, j);
      assert all[j] == events[j];
    }
  }

  lemma {:induction false} RecordingKeepsLog(events: seq<Event>, c: Call)
    requires LogOk(events)
    ensures LogOk(After(events, c))
  {
    var e := c.Row();
    var all := events + [e];
    if Recorded(events, c) == Inserted {
      forall i | 0 <= i < |all| && all[i].completed ensures Rooted(all, i) {
        if i < |events| {
          RootedInPrefix(events, e, i);
        } else if Previous(c.stage).Some? && HasStage(events, c, Previous(c.stage).value) {
          var j :| 0 <= j < |events| && Listed(events[j], c.ticket, c.passport)
                   && events[j].stage == Previous(c.stage).value && events[j].completed;
          RootedInPrefix(events, e, j);
          assert all[j] == events[j];
        }
      }
      forall i, j | 0 <= i < j < |all| && all[i].completed && all[j].completed && all[i].stage == all[j].stage
        ensures !Shares(all[i], all[j])
      {
        if j == |events| {
          assert all[i] == events[i];
          assert !Listed(events[i], c.ticket, c.passport);
        }
      }
    }
  }

  function Log(calls: seq<Call>): seq<Event> {
    if calls == [] then [] else After(Log(calls[..|calls| - 1]), calls[|calls| - 1])
  }

  /** Over any sequence of calls. */
  lemma {:induction false} EveryLogIsOk(calls: seq<Call>)
    ensures LogOk(Log(calls))
  {
    if calls != [] {
      EveryLogIsOk(calls[..|calls| - 1]);
      RecordingKeepsLog(Log(calls[..|calls| - 1]), calls[|calls| - 1]);
    }
  }

  /** Recording the same stage again, with any times that are valid, changes nothing. */
  lemma {:induction false} RecordingIsIdempotent(events: seq<Event>, c: Call, d: Call)
    requires c.completed && d == c.(startedAt := d.startedAt, occurredAt := d.occurredAt)
    requires Recorded(events, c) != Refused
    ensures After(After(events, c), d) == After(events, c)
    ensures ValidCall(d) ==> Recorded(After(events, c), d) == AlreadyThere
  {
    var all := After(events, c);
    if Recorded(events, c) == Inserted {
      assert all[|events|] == c.Row();
      assert HasStage(all, d, d.stage);
    }
  }

  // ----- The stages and the rules by name -----

  /** The order of the five stages. */
  const SUCCESSORS: set<(Stage, Stage)> := {
    (Issued, Claimed), (Claimed, ConfigReady), (ConfigReady, Delivered), (Delivered, AcceptanceVerified)}

  lemma {:induction false} StagesInOrder(earlier: Stage, later: Stage)
    ensures Previous(later) == Some(earlier) <==> (earlier, later) in SUCCESSORS
  {
  }

  ghost predicate HasBefore(events: seq<Event>, i: nat, stage: Stage)
    requires i < |events|
  {
    exists j :: 0 <= j < i && events[j].completed && events[j].stage == stage && Shares(events[j], events[i])
  }

  /** Every completed stage of a log has the one before it, of the same ticket or passport; only an operator's
      device is ready without having been claimed. */
  lemma {:induction false} StagesFollow(events: seq<Event>, i: nat)
    requires LogOk(events) && i < |events| && events[i].completed
    ensures events[i].stage == Claimed ==> HasBefore(events, i, Issued)
    ensures events[i].stage == ConfigReady && events[i].ticket.Some? ==> HasBefore(events, i, Claimed)
    ensures events[i].stage == Delivered ==> HasBefore(events, i, ConfigReady)
    ensures events[i].stage == AcceptanceVerified ==> HasBefore(events, i, Delivered)
  {
    assert Rooted(events, i);
  }

  /** A completed event of the stage for the ticket or the passport of a call. */
  ghost predicate HasCompleted(events: seq<Event>, c: Call, stage: Stage) {
    exists i :: 0 <= i < |events| && events[i].completed && events[i].stage == stage
                && ((c.ticket.Some? && events[i].ticket == c.ticket)
                    || (c.passport.Some? && events[i].passport == c.passport))
  }

  /** When a recording is refused and when its event is there already; otherwise one is added. */
  lemma {:induction false} RecordedExactly(events: seq<Event>, c: Call)
    ensures Recorded(events, c) == Refused <==>
      || (c.ticket.None? && c.passport.None?) || c.occurredAt < c.startedAt
      || c.occurredAt - c.startedAt > 30 * 24 * 60 * 60 * 1_000_000
      || (&& c.completed && !HasCompleted(events, c, c.stage) && c.stage != Issued
          && !(c.stage == ConfigReady && c.ticket.None?)
          && !exists p :: (p, c.stage) in SUCCESSORS && HasCompleted(events, c, p))
    ensures Recorded(events, c) == AlreadyThere <==>
      && (c.ticket.Some? || c.passport.Some?) && c.startedAt <= c.occurredAt
      && c.occurredAt - c.startedAt <= 30 * 24 * 60 * 60 * 1_000_000
      && c.completed && HasCompleted(events, c, c.stage)
    ensures After(events, c)
            == if Recorded(events, c) == Inserted
               then events + [Event(c.ticket, c.passport, c.stage, c.completed, c.occurredAt)] else events
  {
    hide HasStage, HasCompleted;
    SameStage(events, c, c.stage);
    forall p: Stage ensures Previous(c.stage) == Some(p) <==> (p, c.stage) in SUCCESSORS {
      StagesInOrder(p, c.stage);
    }
    if Previous(c.stage).Some? {
      SameStage(events, c, Previous(c.stage).value);
    }
  }

  lemma SameStage(events: seq<Event>, c: Call, stage: Stage)
    ensures HasStage(events, c, stage) <==> HasCompleted(events, c, stage)
  {
  }
}
