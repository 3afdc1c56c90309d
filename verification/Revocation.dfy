/** Ending devices: disabling a slot, the cascading revoke, and the reset of all devices of a user. The
    remote peer goes first, the database follows in one transaction. */
module Revocation {
  import opened Basics
  import opened Database
  import opened RemoteFirst
  import opened Transactions

  const MAX_REASON_LENGTH := 200
  const MAX_LISTED_DEVICES := 20

  /** Where an exception can come from while one device is ended. */
  datatype Point = AtRemove(id: nat) | AtBegin(id: nat) | AtChange(id: nat) | AtAudit(id: nat) | AtCommit(id: nat)

  type Faults = Point -> bool

  function FaultAt(fails: Faults, p: Point): Fault {
    if fails(p) then StatementFails else NoFault
  }

  /** The reason with its white space already normalised. */
  predicate ValidReason(reason: string) {
    0 < |reason| <= MAX_REASON_LENGTH
  }

  datatype AuditEntry = AuditEntry(action: Action, user: nat)

  function Audited(db: Db, audit: Option<AuditEntry>, id: nat): Db {
    if audit.Some? then WithAudit(db, audit.value.action, Some(audit.value.user), Some(id)) else db
  }

  function RowsOf(audit: Option<AuditEntry>, id: nat): seq<Audit> {
    if audit.Some? then [Audit(audit.value.action, Some(audit.value.user), Some(id))] else []
  }

  lemma CascadeIsExact(db: Db, id: nat, at: int, audit: Option<AuditEntry>)
    requires id in db.devices
    ensures ClosedAndAudited(db, Audited(Cascaded(db, id, at), audit, id), {id}, at, RowsOf(audit, id))
  {
    hide ClosedOnly, Cascaded;
    CascadeClosesOnly(db, id, at);
    CascadeKeepsAudits(db, id, at);
    assert Audited(Cascaded(db, id, at), audit, id).(audits := db.audits) == Cascaded(db, id, at);
  }

  lemma CascadeKeepsAudits(db: Db, id: nat, at: int)
    requires id in db.devices
    ensures Cascaded(db, id, at).audits == db.audits
  {
  }

  datatype CascadeResult = CascadeResult(remoteRemoved: bool, deviceRows: nat)

  /** The database part of a cascade has some fault. */
  ghost predicate DatabaseFails(open: bool, id: nat, audited: bool, fails: Faults) {
    open || fails(AtBegin(id)) || fails(AtChange(id)) || (audited && fails(AtAudit(id))) || fails(AtCommit(id))
  }

  /** The remote side lets go of the device's peer. */
  ghost predicate Removable(db: Db, id: nat, hasRemover: bool, applyRemote: bool, fails: Faults)
    requires id in db.devices
  {
    hasRemover && applyRemote && db.devices[id].peer.server in db.servers && !fails(AtRemove(id))
  }

  /** A device that is ended in the database has no remote peer left. */
  ghost predicate PeerGone(w: World, id: nat) {
    id in w.working.devices && w.working.devices[id].peer !in w.peers
  }

  method CascadeInTransaction(repo: Repository<Db>, id: nat, at: int, audit: Option<AuditEntry>, fails: Faults)
    returns (ok: bool)
    requires repo.Valid() && repo.depth == 0 && id in repo.working.devices
    modifies repo
    ensures repo.Valid() && repo.depth == 0
    ensures ok <==> !DatabaseFails(old(repo.open), id, audit.Some?, fails)
    ensures ok ==> repo.committed == Audited(Cascaded(old(repo.working), id, at), audit, id) && !repo.open
    ensures ok ==> ClosedAndAudited(old(repo.working), repo.committed, {id}, at, RowsOf(audit, id))
    ensures !ok ==> repo.committed == old(repo.committed)
    ensures !ok && !fails(AtCommit(id)) ==> repo.working == old(repo.working) && repo.open == old(repo.open)
    ensures repo.working == old(repo.working)
            || repo.working == Audited(Cascaded(old(repo.working), id, at), audit, id)
    ensures repo.working != old(repo.working) ==> !old(repo.open)
    ensures old(repo.open) ==> repo.open
  {
    hide ClosedAndAudited;
    CascadeIsExact(repo.working, id, at, audit);
    var entered, isOutermost := repo.Enter(fails(AtBegin(id)));
    if !entered {
      return false;
    }
    ok := repo.Write(Cascaded(repo.working, id, at), FaultAt(fails, AtChange(id)));
    if ok && audit.Some? {
      ok := repo.Write(Audited(repo.working, audit, id), FaultAt(fails, AtAudit(id)));
    }
    if ok {
      ok := repo.Leave(isOutermost, fails(AtCommit(id)));
    } else {
      repo.Abort(isOutermost);
    }
  }

  /** Revokes a device and everything that belongs to it. */
  method CascadeRevokePhysicalDevice(
      repo: Repository<Db>, remote: PeerServer, id: nat, reason: string, at: int, hasRemover: bool, applyRemote: bool,
      alreadyRemoved: bool, audit: Option<AuditEntry>, fails: Faults)
    returns (r: Outcome<CascadeResult>)
    requires repo.Valid() && repo.depth == 0
    modifies repo, remote`peers
    ensures repo.Valid() && repo.depth == 0
    ensures r.Done? ==>
      && ValidReason(reason) && id in old(repo.working.devices) && !repo.open
      && repo.committed == Audited(Cascaded(old(repo.working), id, at), audit, id)
      && ClosedAndAudited(old(repo.working), repo.committed, {id}, at, RowsOf(audit, id))
      && r.value == CascadeResult(Live(old(repo.working.devices[id].status)),
                                  if old(repo.working.devices[id].status) == Revoked then 0 else 1)
    // The remote side loses exactly this peer, exactly when it was to be removed here.
    ensures r.Raised? ==> remote.peers == old(remote.peers)
    ensures !r.Raised? ==>
      && ValidReason(reason) && id in old(repo.working.devices)
      && remote.peers == if Live(old(repo.working.devices[id].status)) && !alreadyRemoved
                         then old(remote.peers) - {old(repo.working.devices[id].peer)} else old(remote.peers)
    // A partial failure is reported exactly when the remote peer is gone and the database refused.
    ensures !r.Done? ==> repo.committed == old(repo.committed)
    ensures r.PartialFailure? ==>
      && id in old(repo.working.devices) && Live(old(repo.working.devices[id].status))
      && DatabaseFails(old(repo.open), id, audit.Some?, fails)
    ensures ValidReason(reason) && id in old(repo.working.devices) && !Live(old(repo.working.devices[id].status))
            ==> !r.PartialFailure? && (r.Done? <==> !DatabaseFails(old(repo.open), id, audit.Some?, fails))
    ensures ValidReason(reason) && id in old(repo.working.devices) && Live(old(repo.working.devices[id].status))
            && alreadyRemoved
            ==> r == if DatabaseFails(old(repo.open), id, audit.Some?, fails) then PartialFailure
                     else Done(CascadeResult(true, 1))
    // With a remover a live device loses its peer first, and the database decides how it ends.
    ensures ValidReason(reason) && id in old(repo.working.devices) && Live(old(repo.working.devices[id].status))
            && !alreadyRemoved
            ==> if !Removable(old(repo.working), id, hasRemover, applyRemote, fails) then r.Raised?
                else r == if DatabaseFails(old(repo.open), id, audit.Some?, fails) then PartialFailure
                          else Done(CascadeResult(true, 1))
    // No live device is revoked without its peer being removed.
    ensures ValidReason(reason) && id in old(repo.working.devices) && Live(old(repo.working.devices[id].status))
            && !alreadyRemoved && !(hasRemover && applyRemote)
            ==> r == Raised(ApplyRequired)
    ensures !r.Done? && !fails(AtCommit(id)) ==> repo.working == old(repo.working) && repo.open == old(repo.open)
    ensures old(Safe(WorldOf(repo, remote))) && (alreadyRemoved ==> old(GoneIfLive(WorldOf(repo, remote), id)))
            ==> && Leads(old(WorldOf(repo, remote)), WorldOf(repo, remote), 0)
                && (r.Done? ==> PeerGone(WorldOf(repo, remote), id))
  {
    hide Safe, Step;
    ghost var w := WorldOf(repo, remote);
    StayingLeads(w);
    if !ValidReason(reason) {
      return Raised(BadReason);
    }
    if id !in repo.working.devices {
      return Raised(NotFound);
    }
    var d := repo.working.devices[id];
    var required := Live(d.status);
    if required && !alreadyRemoved && (!applyRemote || !hasRemover) {
      return Raised(ApplyRequired);
    }
    if required && !alreadyRemoved {
      if d.peer.server !in repo.working.servers {
        return Raised(NotFound);
      }
      var removed := remote.RemovePeer(d.peer, fails(AtRemove(id)));
      if !removed {
        return Raised(Failure);
      }
    }
    ghost var mid := WorldOf(repo, remote);
    var ok := CascadeInTransaction(repo, id, at, audit, fails);
    if ok {
      r := Done(CascadeResult(required, if d.status == Revoked then 0 else 1));
    } else {
      r := if required then PartialFailure else Raised(Failure);
    }
    if Safe(w) && (alreadyRemoved ==> GoneIfLive(w, id)) {
      if !required {
        DeadIsGone(w, id);
      }
      CascadeEnds(mid.working, id, at, audit);
      RemoveThenEnd(w, mid, WorldOf(repo, remote), id);
    }
  }

  ghost predicate GoneIfLive(w: World, id: nat) {
    id in w.working.devices && Live(w.working.devices[id].status) ==> w.working.devices[id].peer !in w.peers
  }

  lemma DeadIsGone(w: World, id: nat)
    requires Safe(w) && id in w.working.devices && !Live(w.working.devices[id].status)
    ensures w.working.devices[id].peer !in w.peers
  {
  }

  lemma StayingLeads(w: World)
    ensures Leads(w, w, 0)
  {
    StepLeads(w, w, 0);
  }

  lemma CascadeEnds(db: Db, id: nat, at: int, audit: Option<AuditEntry>)
    requires id in db.devices
    ensures var c := Audited(Cascaded(db, id, at), audit, id); SameDevices(c, db) || Ended(c, db, id)
    ensures OrdersKept(db, db) && OrdersKept(db, Audited(Cascaded(db, id, at), audit, id))
    ensures var c := Audited(Cascaded(db, id, at), audit, id); OrdersKept(c, c)
    ensures Audited(Cascaded(db, id, at), audit, id).devices[id].peer == db.devices[id].peer
  {
    var d := db.devices[id];
    var e := d.(status := Revoked, endedAt := Coalesce(d.endedAt, at));
    assert e == d.(status := Revoked, endedAt := e.endedAt);
  }

  /** The remote peer first, then the database in one transaction. */
  lemma RemoveThenEnd(w: World, mid: World, v: World, id: nat)
    requires RemovalStep(w, mid) && (v == mid || EndingStep(mid, v, id))
    ensures Leads(w, v, 0)
  {
    StepLeads(w, mid, 0);
    StepLeads(mid, v, 0);
    LeadsOn(w, mid, v, 0);
  }

  // ----- Access slots -----

  datatype SlotResult = SlotResult(status: Status, remoteRemoved: bool)

  function Disabling(db: Db, id: nat, at: int): Db
    requires id in db.devices
  {
    WithAudit(WithDisabled(db, id, at), DisableRow, Some(db.devices[id].user), Some(id))
  }

  /** One row became disabled, with one audit row for it. */
  ghost predicate DisabledAndAudited(a: Db, b: Db, id: nat, at: int) {
    && DisabledOnly(a, b.(audits := a.audits), id, at)
    && b.audits == a.audits + [Audit(DisableRow, Some(a.devices[id].user), Some(id))]
  }

  lemma DisablingIsExact(db: Db, id: nat, at: int)
    requires id in db.devices
    ensures DisabledAndAudited(db, Disabling(db, id, at), id, at)
  {
    hide WithDisabled, DisabledOnly;
    WithDisabledIsExact(db, id, at);
    assert Disabling(db, id, at).(audits := db.audits) == WithDisabled(db, id, at);
  }

  lemma WithDisabledIsExact(db: Db, id: nat, at: int)
    requires id in db.devices
    ensures DisabledOnly(db, WithDisabled(db, id, at), id, at)
    ensures WithDisabled(db, id, at).audits == db.audits
  {
    assert WithDisabled(db, id, at).devices.Keys == db.devices.Keys;
  }

  method DisableInTransaction(repo: Repository<Db>, id: nat, at: int, fails: Faults) returns (r: Outcome<()>)
    requires repo.Valid() && repo.depth == 0 && id in repo.working.devices
    modifies repo
    ensures repo.Valid() && repo.depth == 0 && !r.PartialFailure?
    ensures r.Done? <==> !DatabaseFails(old(repo.open), id, true, fails)
                         && (Live(old(repo.working.devices[id].status))
                             || old(repo.working.devices[id].status) == Disabled)
    ensures r.Done? ==> repo.committed == Disabling(old(repo.working), id, at) && !repo.open
    ensures r.Done? ==> DisabledAndAudited(old(repo.working), repo.committed, id, at)
    ensures !r.Done? ==> repo.committed == old(repo.committed)
    ensures !r.Done? && !fails(AtCommit(id)) ==> repo.working == old(repo.working) && repo.open == old(repo.open)
    ensures repo.working == old(repo.working) || repo.working == Disabling(old(repo.working), id, at)
    ensures old(repo.open) ==> repo.open && repo.working == old(repo.working)
  {
    hide DisabledAndAudited;
    DisablingIsExact(repo.working, id, at);
    var entered, isOutermost := repo.Enter(fails(AtBegin(id)));
    if !entered {
      return Raised(Failure);
    }
    var d := repo.working.devices[id];
    var ok := true;
    r := Raised(Failure);
    if d.status != Disabled {
      ok := repo.Write(WithDisabled(repo.working, id, at), FaultAt(fails, AtChange(id)));
      if ok && !Live(d.status) {
        ok, r := false, Raised(BadStatus);
      }
    } else if fails(AtChange(id)) {
      ok := false;
    }
    if ok {
      ok := repo.Write(WithAudit(repo.working, DisableRow, Some(d.user), Some(id)), FaultAt(fails, AtAudit(id)));
    }
    if ok {
      ok := repo.Leave(isOutermost, fails(AtCommit(id)));
      if ok {
        r := Done(());
      }
    } else {
      repo.Abort(isOutermost);
    }
  }

  /** Disables one slot; a slot that is disabled already only gets its audit row. */
  method DisableAccessSlot(
      repo: Repository<Db>, remote: PeerServer, id: nat, reason: string, at: int, hasRemover: bool, applyRemote: bool,
      fails: Faults)
    returns (r: Outcome<SlotResult>)
    requires repo.Valid() && repo.depth == 0
    modifies repo, remote`peers
    ensures repo.Valid() && repo.depth == 0
    ensures r.Done? ==>
      && ValidReason(reason) && id in old(repo.working.devices) && !repo.open
      && repo.committed == Disabling(old(repo.working), id, at)
      && DisabledAndAudited(old(repo.working), repo.committed, id, at)
      && repo.committed.devices[id].status == Disabled
      && r.value == SlotResult(Disabled, Live(old(repo.working.devices[id].status)))
    ensures !r.Done? ==> repo.committed == old(repo.committed)
    ensures r.Raised? ==> remote.peers == old(remote.peers)
    ensures r.PartialFailure? ==>
      && id in old(repo.working.devices) && Live(old(repo.working.devices[id].status))
      && DatabaseFails(old(repo.open), id, true, fails)
    ensures !r.Raised? ==>
      remote.peers == if Live(old(repo.working.devices[id].status))
                      then old(remote.peers) - {old(repo.working.devices[id].peer)} else old(remote.peers)
    ensures ValidReason(reason) && id in old(repo.working.devices) && Live(old(repo.working.devices[id].status))
            && !(hasRemover && applyRemote)
            ==> r == Raised(ApplyRequired)
    ensures ValidReason(reason) && id in old(repo.working.devices) && Live(old(repo.working.devices[id].status))
            ==> if !Removable(old(repo.working), id, hasRemover, applyRemote, fails) then r.Raised?
                else r == if DatabaseFails(old(repo.open), id, true, fails) then PartialFailure
                          else Done(SlotResult(Disabled, true))
    ensures ValidReason(reason) && id in old(repo.working.devices) && old(repo.working.devices[id].status) == Disabled
            ==> (r.Done? <==> !DatabaseFails(old(repo.open), id, true, fails))
    ensures !r.Done? && !fails(AtCommit(id)) ==> repo.working == old(repo.working) && repo.open == old(repo.open)
    ensures old(Safe(WorldOf(repo, remote)))
            ==> && Leads(old(WorldOf(repo, remote)), WorldOf(repo, remote), 0)
                && (r.Done? ==> PeerGone(WorldOf(repo, remote), id))
  {
    hide Safe, Step;
    ghost var w := WorldOf(repo, remote);
    StayingLeads(w);
    if !ValidReason(reason) {
      return Raised(BadReason);
    }
    if id !in repo.working.devices {
      return Raised(NotFound);
    }
    var d := repo.working.devices[id];
    var required := Live(d.status);
    if required {
      if !applyRemote || !hasRemover {
        return Raised(ApplyRequired);
      }
      if d.peer.server !in repo.working.servers {
        return Raised(NotFound);
      }
      var removed := remote.RemovePeer(d.peer, fails(AtRemove(id)));
      if !removed {
        return Raised(Failure);
      }
    }
    ghost var mid := WorldOf(repo, remote);
    var ended := DisableInTransaction(repo, id, at, fails);
    match ended {
      case Done(_) => r := Done(SlotResult(Disabled, required));
      case Raised(e) => r := if required then PartialFailure else Raised(e);
      case PartialFailure => r := PartialFailure;
    }
    if Safe(w) {
      if !required {
        DeadIsGone(w, id);
      }
      DisablingEnds(mid.working, id, at);
      RemoveThenEnd(w, mid, WorldOf(repo, remote), id);
    }
  }

  lemma DisablingEnds(db: Db, id: nat, at: int)
    requires id in db.devices
    ensures var c := Disabling(db, id, at); SameDevices(c, db) || Ended(c, db, id)
    ensures var c := Disabling(db, id, at); OrdersKept(db, db) && OrdersKept(db, c) && OrdersKept(c, c)
    ensures Disabling(db, id, at).devices[id].peer == db.devices[id].peer
  {
    hide Ended, WithDisabled;
    DisabledEnds(db, id, at);
    DisablingKeepsOrders(db, id, at);
    var b, c := WithDisabled(db, id, at), Disabling(db, id, at);
    AuditKeepsDevices(b, DisableRow, Some(db.devices[id].user), Some(id));
    assert SameDevices(b, c);
    EndedAlike(db, b, c, id);
  }

  lemma DisablingKeepsOrders(db: Db, id: nat, at: int)
    requires id in db.devices
    ensures var c := Disabling(db, id, at); OrdersKept(db, db) && OrdersKept(db, c) && OrdersKept(c, c)
  {
  }

  lemma DisabledEnds(db: Db, id: nat, at: int)
    requires id in db.devices
    ensures var b := WithDisabled(db, id, at); SameDevices(b, db) || Ended(b, db, id)
    ensures id in WithDisabled(db, id, at).devices && WithDisabled(db, id, at).devices[id].peer == db.devices[id].peer
  {
    hide SameDevices;
    var b := WithDisabled(db, id, at);
    if Live(db.devices[id].status) {
      assert b.devices == db.devices[id := db.devices[id].(status := Disabled, endedAt := Some(at))];
    } else {
      StaysSame(db);
    }
  }

  lemma StaysSame(db: Db)
    ensures SameDevices(db, db)
  {
  }

  lemma AuditKeepsDevices(db: Db, action: Action, user: Option<nat>, device: Option<nat>)
    ensures SameDevices(db, WithAudit(db, action, user, device))
  {
  }

  lemma EndedAlike(older: Db, a: Db, b: Db, id: nat)
    requires SameDevices(a, b)
    ensures Ended(a, older, id) ==> Ended(b, older, id)
  {
  }

  /** Revokes one slot: the cascade with an audit row of its own. */
  method RevokeAccessSlot(
      repo: Repository<Db>, remote: PeerServer, id: nat, reason: string, at: int, hasRemover: bool, applyRemote: bool,
      fails: Faults)
    returns (r: Outcome<SlotResult>)
    requires repo.Valid() && repo.depth == 0
    modifies repo, remote`peers
    ensures repo.Valid() && repo.depth == 0
    ensures r.Done? ==>
      && id in old(repo.working.devices) && !repo.open && Closed(repo.committed, id)
      && repo.committed == Audited(Cascaded(old(repo.working), id, at),
                                   Some(AuditEntry(RevokeRow, old(repo.working.devices[id].user))), id)
      && ClosedAndAudited(old(repo.working), repo.committed, {id}, at,
                          [Audit(RevokeRow, Some(old(repo.working.devices[id].user)), Some(id))])
      && r.value == SlotResult(Revoked, Live(old(repo.working.devices[id].status)))
    ensures !r.Done? ==> repo.committed == old(repo.committed)
    ensures r.Raised? ==> remote.peers == old(remote.peers)
    ensures !r.Raised? ==>
      && ValidReason(reason) && id in old(repo.working.devices)
      && remote.peers == if Live(old(repo.working.devices[id].status))
                         then old(remote.peers) - {old(repo.working.devices[id].peer)} else old(remote.peers)
    ensures r.PartialFailure? <==>
      && ValidReason(reason) && id in old(repo.working.devices) && Live(old(repo.working.devices[id].status))
      && Removable(old(repo.working), id, hasRemover, applyRemote, fails)
         && DatabaseFails(old(repo.open), id, true, fails)
    ensures ValidReason(reason) && id in old(repo.working.devices)
            && (Live(old(repo.working.devices[id].status))
                ==> Removable(old(repo.working), id, hasRemover, applyRemote, fails))
            ==> (r.Done? <==> !DatabaseFails(old(repo.open), id, true, fails))
    ensures old(Safe(WorldOf(repo, remote)))
            ==> && Leads(old(WorldOf(repo, remote)), WorldOf(repo, remote), 0)
                && (r.Done? ==> PeerGone(WorldOf(repo, remote), id))
  {
    hide Safe, Step, Leads;
    if id !in repo.working.devices {
      StayingLeads(WorldOf(repo, remote));
      return Raised(NotFound);
    }
    ghost var before := repo.working;
    var entry := AuditEntry(RevokeRow, repo.working.devices[id].user);
    var cascade := CascadeRevokePhysicalDevice(repo, remote, id, reason, at, hasRemover, applyRemote, false,
                                               Some(entry), fails);
    match cascade {
      case Done(c) =>
        CascadeCloses(before, id, at);
        r := Done(SlotResult(Revoked, c.remoteRemoved));
      case Raised(e) => r := Raised(e);
      case PartialFailure => r := PartialFailure;
    }
  }

  // ----- Resetting a user -----

  /** The user's active devices among the ids below n, in ascending order. */
  function ActiveBelow(db: Db, user: nat, n: nat): seq<nat> {
    if n == 0 then []
    else ActiveBelow(db, user, n - 1) + (if n - 1 in ActiveDevices(db, user) then [n - 1] else [])
  }

  /** The listing of active devices: the newest twenty. */
  function ListedDevices(db: Db, user: nat): seq<nat> {
    var ids := ActiveBelow(db, user, db.nextDevice);
    if |ids| <= MAX_LISTED_DEVICES then ids else ids[|ids| - MAX_LISTED_DEVICES..]
  }

  lemma {:induction false} ActiveBelowIs(db: Db, user: nat, n: nat)
    ensures var ids := ActiveBelow(db, user, n);
            && (forall id :: id in ids <==> id in ActiveDevices(db, user) && id < n)
            && (forall i, j :: 0 <= i < j < |ids| ==> ids[i] < ids[j])
  {
    if n > 0 {
      ActiveBelowIs(db, user, n - 1);
      var rest := ActiveBelow(db, user, n - 1);
      assert forall i :: 0 <= i < |rest| ==> rest[i] in rest;
    }
  }

  /** An active device of the user that is not listed. */
  ghost predicate IsMissing(db: Db, user: nat, id: nat) {
    && id in db.devices && id < db.nextDevice && db.devices[id].user == user && db.devices[id].status == Active
    && id !in ListedDevices(db, user)
  }

  lemma {:induction false} ListedAreActive(db: Db, user: nat)
    ensures var ids := ListedDevices(db, user);
            && (forall i :: 0 <= i < |ids| ==> ids[i] in ActiveDevices(db, user))
            && (forall i, j :: 0 <= i < j < |ids| ==> ids[i] != ids[j])
    ensures UniquePeers(db) && |ActiveBelow(db, user, db.nextDevice)| <= MAX_LISTED_DEVICES
            ==> forall id :: id in ActiveDevices(db, user) ==> id in ListedDevices(db, user)
  {
    ActiveBelowIs(db, user, db.nextDevice);
    var ids := ActiveBelow(db, user, db.nextDevice);
    forall i | 0 <= i < |ListedDevices(db, user)| ensures ListedDevices(db, user)[i] in ActiveDevices(db, user) {
      assert ListedDevices(db, user)[i] in ids;
    }
  }

  /** At most twenty are listed, in ascending order; none of the user's active devices that is missing is newer, and
      if any is missing there are twenty. */
  lemma {:induction false} ListedAreNewest(db: Db, user: nat)
    ensures var ids := ListedDevices(db, user);
            && |ids| <= 20 && (forall i, j :: 0 <= i < j < |ids| ==> ids[i] < ids[j])
            && forall id :: IsMissing(db, user, id) ==> |ids| == 20 && forall i :: 0 <= i < |ids| ==> id < ids[i]
  {
    hide ActiveDevices;
    var all, ids := ActiveBelow(db, user, db.nextDevice), ListedDevices(db, user);
    ActiveBelowIs(db, user, db.nextDevice);
    var cut := |all| - |ids|;
    assert ids == all[cut..];
    forall i, j | 0 <= i < j < |ids| ensures ids[i] < ids[j] {
      var a, b := cut + i, cut + j;
      assert ids[i] == all[a] && ids[j] == all[b] && all[a] < all[b];
    }
    forall id | IsMissing(db, user, id) ensures |ids| == 20 && forall i :: 0 <= i < |ids| ==> id < ids[i] {
      MissingIsEarlier(db, user, all, cut, id);
    }
  }

  lemma MissingIsEarlier(db: Db, user: nat, all: seq<nat>, cut: nat, id: nat)
    requires cut <= |all| && ListedDevices(db, user) == all[cut..] && IsMissing(db, user, id)
    requires cut > 0 ==> |all| - cut == 20
    requires forall x :: x in ActiveDevices(db, user) && x < db.nextDevice ==> x in all
    requires forall i, j :: 0 <= i < j < |all| ==> all[i] < all[j]
    ensures cut > 0 && forall i :: cut <= i < |all| ==> id < all[i]
  {
    hide ListedDevices;
    assert id in all;
    var k :| 0 <= k < |all| && all[k] == id;
    assert forall j :: cut <= j < |all| ==> all[cut..][j - cut] == all[j];
  }

  function CascadedAll(db: Db, ids: seq<nat>, at: int): Db {
    if ids == [] then db
    else
      var before := CascadedAll(db, ids[..|ids| - 1], at);
      var id := ids[|ids| - 1];
      if id in before.devices then Cascaded(before, id, at) else before
  }

  function PeersOf(db: Db, ids: seq<nat>): set<Peer> {
    set i | 0 <= i < |ids| && ids[i] in db.devices :: db.devices[ids[i]].peer
  }

  lemma {:induction false} CascadedAllElsewhere(db: Db, ids: seq<nat>, at: int)
    requires forall i :: 0 <= i < |ids| ==> ids[i] in db.devices
    ensures var c := CascadedAll(db, ids, at);
            && c.devices.Keys == db.devices.Keys
            && (forall id :: id in db.devices ==> c.devices[id].peer == db.devices[id].peer)
            && (forall id :: id in db.devices && id !in ids ==> c.devices[id] == db.devices[id])
            && (forall i :: 0 <= i < |ids| ==> c.devices[ids[i]].status == Revoked)
  {
    hide Cascaded;
    if ids != [] {
      var init, id := ids[..|ids| - 1], ids[|ids| - 1];
      CascadedAllElsewhere(db, init, at);
      CascadedElsewhere(CascadedAll(db, init, at), id, at);
      assert ids == init + [id];
    }
  }

  function Those(ids: seq<nat>): set<nat> {
    set id | id in ids
  }

  /** Cascades over several devices close exactly what belongs to any of them. */
  lemma {:induction false} CascadedAllClosesOnly(db: Db, ids: seq<nat>, at: int)
    requires forall i :: 0 <= i < |ids| ==> ids[i] in db.devices
    ensures ClosedOnly(db, CascadedAll(db, ids, at), Those(ids), at)
  {
    hide Cascaded, ClosedOnly;
    if ids == [] {
      NothingClosed(db, at);
      assert Those([]) == {};
    } else {
      var init, id := ids[..|ids| - 1], ids[|ids| - 1];
      CascadedAllClosesOnly(db, init, at);
      CascadedAllElsewhere(db, init, at);
      CascadeClosesOnly(CascadedAll(db, init, at), id, at);
      ClosedOnlyNext(db, CascadedAll(db, init, at), CascadedAll(db, ids, at), Those(init), id, at);
      assert ids == init + [id];
      assert Those(ids) == Those(init) + {id};
    }
  }

  lemma NothingCascaded(db: Db, ids: seq<nat>, at: int)
    ensures CascadedAll(db, ids[..0], at) == db
  {
  }

  lemma CascadedNext(db: Db, ids: seq<nat>, i: nat, at: int)
    requires i < |ids| && ids[i] in CascadedAll(db, ids[..i], at).devices
    ensures CascadedAll(db, ids[..i + 1], at) == Cascaded(CascadedAll(db, ids[..i], at), ids[i], at)
  {
    hide Cascaded;
    assert ids[..i + 1][..i] == ids[..i];
  }

  lemma CascadedElsewhere(db: Db, id: nat, at: int)
    requires id in db.devices
    ensures var c := Cascaded(db, id, at);
            && c.devices.Keys == db.devices.Keys && c.devices[id].status == Revoked
            && c.devices[id].peer == db.devices[id].peer
            && forall other :: other in db.devices && other != id ==> c.devices[other] == db.devices[other]
  {
    assert Cascaded(db, id, at).devices.Keys == db.devices.Keys;
  }

  ghost predicate MayRemove(db: Db, id: nat, fails: Faults) {
    id in db.devices && Removable(db, id, true, true, fails)
  }

  /** The first listed device whose peer cannot be removed. */
  ghost function FirstStuck(db: Db, ids: seq<nat>, fails: Faults): (k: nat)
    ensures k <= |ids| && (forall i :: 0 <= i < k ==> MayRemove(db, ids[i], fails))
    ensures k < |ids| ==> !MayRemove(db, ids[k], fails)
  {
    if ids == [] || !MayRemove(db, ids[0], fails) then 0 else FirstStuck(db, ids[1..], fails) + 1
  }

  /** The first listed device whose cascade fails, on a connection with or without something pending. */
  ghost function FirstFailing(open: bool, ids: seq<nat>, fails: Faults): (j: nat)
    ensures j <= |ids| && (forall i :: 0 <= i < j ==> !DatabaseFails(open, ids[i], false, fails))
    ensures j < |ids| ==> DatabaseFails(open, ids[j], false, fails)
  {
    if ids == [] || DatabaseFails(open, ids[0], false, fails) then 0 else FirstFailing(open, ids[1..], fails) + 1
  }

  /** Removes the peers of the listed devices one by one, up to the first failure. */
  method RemoveListedPeers(repo: Repository<Db>, remote: PeerServer, ids: seq<nat>, fails: Faults)
    returns (ok: bool, removed: nat)
    requires forall i :: 0 <= i < |ids| ==> ids[i] in repo.working.devices
    modifies remote`peers
    ensures removed <= |ids| && (ok <==> removed == |ids|)
    ensures forall i :: 0 <= i < removed ==> Removable(repo.working, ids[i], true, true, fails)
    ensures removed < |ids| ==> !Removable(repo.working, ids[removed], true, true, fails)
    ensures removed == FirstStuck(repo.working, ids, fails)
    ensures remote.peers == old(remote.peers) - PeersOf(repo.working, ids[..removed])
  {
    removed := 0;
    for i := 0 to |ids|
      invariant removed == i && remote.peers == old(remote.peers) - PeersOf(repo.working, ids[..i])
      invariant forall j :: 0 <= j < i ==> Removable(repo.working, ids[j], true, true, fails)
    {
      var d := repo.working.devices[ids[i]];
      PeersOfNext(repo.working, ids, i);
      if d.peer.server !in repo.working.servers {
        return false, i;
      }
      var gone := remote.RemovePeer(d.peer, fails(AtRemove(ids[i])));
      if !gone {
        return false, i;
      }
      removed := i + 1;
    }
    return true, |ids|;
  }

  ghost predicate AllRemovable(db: Db, ids: seq<nat>, fails: Faults) {
    forall i :: 0 <= i < |ids| ==> ids[i] in db.devices && Removable(db, ids[i], true, true, fails)
  }

  ghost predicate NoneFails(ids: seq<nat>, fails: Faults) {
    forall i :: 0 <= i < |ids| ==> !DatabaseFails(false, ids[i], false, fails)
  }

  lemma NoneFailsExactly(open: bool, ids: seq<nat>, fails: Faults)
    ensures FirstFailing(open, ids, fails) == |ids| <==> ids == [] || (!open && NoneFails(ids, fails))
    ensures open ==> FirstFailing(open, ids, fails) == 0
  {
  }

  /** The first j listed devices are revoked; without any, what was pending stays so. */
  function RevokedUpTo(working: Db, committed: Db, ids: seq<nat>, j: nat, at: int): Db
    requires j <= |ids|
  {
    if j == 0 then committed else CascadedAll(working, ids[..j], at)
  }

  /** Revokes the listed devices one by one, their peers being gone if there is a remover. */
  method RevokeListed(repo: Repository<Db>, remote: PeerServer, ids: seq<nat>, at: int, hasRemover: bool, fails: Faults)
    returns (r: Outcome<nat>)
    requires repo.Valid() && repo.depth == 0
    requires forall i :: 0 <= i < |ids| ==>
      ids[i] in repo.working.devices && repo.working.devices[ids[i]].status == Active
    requires forall i, j :: 0 <= i < j < |ids| ==> ids[i] != ids[j]
    modifies repo, remote`peers
    ensures repo.Valid() && repo.depth == 0 && remote.peers == old(remote.peers)
    ensures match r
            case Done(n) =>
              && n == |ids| && (ids == [] || hasRemover)
              && repo.committed == (if ids == [] then old(repo.committed) else CascadedAll(old(repo.working), ids, at))
              && (ids != [] ==> !repo.open)
            case PartialFailure =>
              && hasRemover && ids != []
              && repo.committed == RevokedUpTo(old(repo.working), old(repo.committed), ids,
                                               FirstFailing(old(repo.open), ids, fails), at)
            case Raised(e) => !hasRemover && e == ApplyRequired && repo.committed == old(repo.committed)
    ensures r.Done? <==> ids == [] || (hasRemover && !old(repo.open) && NoneFails(ids, fails))
    ensures hasRemover ==> (r.Done? <==> FirstFailing(old(repo.open), ids, fails) == |ids|)
    ensures old(Safe(WorldOf(repo, remote))) && (hasRemover ==> PeersOf(old(repo.working), ids) !! old(remote.peers))
            ==> Leads(old(WorldOf(repo, remote)), WorldOf(repo, remote), 0)
  {
    hide Safe, Step, Leads, Cascaded, CascadedAll, PeersOf, NoneFails, DatabaseFails, Removable, ClosedAndAudited;
    ghost var w, before := WorldOf(repo, remote), repo.working;
    NoneFailsExactly(repo.open, ids, fails);
    ghost var sound := Safe(w) && (hasRemover ==> PeersOf(before, ids) !! remote.peers);
    StayingLeads(w);
    NothingCascaded(before, ids, at);
    var count := 0;
    for i := 0 to |ids|
      invariant repo.Valid() && repo.depth == 0 && remote.peers == old(remote.peers)
      invariant count == i && (if i > 0 then hasRemover && !old(repo.open) && !repo.open
                               else repo.open == old(repo.open))
      invariant i <= FirstFailing(old(repo.open), ids, fails)
      invariant repo.working == CascadedAll(before, ids[..i], at)
      invariant repo.committed == if i == 0 then old(repo.committed) else repo.working
      invariant sound ==> Leads(w, WorldOf(repo, remote), 0)
    {
      ghost var u := WorldOf(repo, remote);
      StillActive(before, ids, i, at);
      CascadedNext(before, ids, i, at);
      if sound {
        LeadsSafely(w, u, 0);
        PeerOfListed(before, ids, i);
      }
      var cascade := CascadeRevokePhysicalDevice(repo, remote, ids[i], "user_reset", at, false, false, hasRemover, None,
                                                 fails);
      if sound {
        LeadsOn(w, u, WorldOf(repo, remote), 0);
      }
      match cascade {
        case Done(c) => count := count + c.deviceRows;
        case Raised(e) => return Raised(e);
        case PartialFailure => return PartialFailure;
      }
    }
    assert ids[..|ids|] == ids;
    return Done(count);
  }

  /** The first of the listed devices, and nothing else, were closed. */
  ghost predicate ClosedSome(a: Db, b: Db, ids: seq<nat>, at: int) {
    exists n :: 0 <= n <= |ids| && ClosedOnly(a, b, Those(ids[..n]), at)
  }

  lemma RevokedUpToIsExact(working: Db, committed: Db, ids: seq<nat>, j: nat, at: int)
    requires j <= |ids| && forall i :: 0 <= i < |ids| ==> ids[i] in working.devices
    ensures var b := RevokedUpTo(working, committed, ids, j, at);
            && (b == committed || ClosedSome(working, b, ids, at))
            && (j == |ids| != 0 ==> b == CascadedAll(working, ids, at) && ClosedOnly(working, b, Those(ids), at))
    ensures RevokedUpTo(working, committed, ids, 0, at) == committed
  {
    hide CascadedAll, ClosedOnly, Those;
    CascadedAllClosesOnly(working, ids[..j], at);
    assert j == |ids| ==> ids[..j] == ids;
  }

  /** How a reset ends, which peers are gone and which rows are revoked: the first device whose peer cannot be removed
      and the first whose cascade fails decide. */
  ghost predicate ResetAs(
      w: World, v: World, ids: seq<nat>, at: int, hasRemover: bool, fails: Faults, r: Outcome<nat>)
  {
    var k, j := FirstStuck(w.working, ids, fails), FirstFailing(w.open, ids, fails);
    if !hasRemover then
      && r == (if ids == [] then Done(0) else Raised(ApplyRequired))
      && v.peers == w.peers && v.committed == w.committed
    else
      && r == (if k == |ids| && j == |ids| then Done(|ids|) else if k > 0 then PartialFailure else Raised(Failure))
      && v.peers == w.peers - PeersOf(w.working, ids[..k])
      && v.committed == RevokedUpTo(w.working, w.committed, ids, if k < |ids| then 0 else j, at)
  }

  /** Whatever was revoked, exactly what belongs to those devices was closed; and when the reset succeeds. */
  lemma ResetIsExact(w: World, v: World, ids: seq<nat>, at: int, hasRemover: bool, fails: Faults, r: Outcome<nat>)
    requires ResetAs(w, v, ids, at, hasRemover, fails, r)
    requires forall i :: 0 <= i < |ids| ==> ids[i] in w.working.devices
    ensures r.Done? && ids != [] ==> ClosedOnly(w.working, v.committed, Those(ids), at)
    ensures v.committed == w.committed || ClosedSome(w.working, v.committed, ids, at)
    ensures r.Done? <==> ids == [] || (hasRemover && !w.open && NoneFails(ids, fails)
                                       && AllRemovable(w.working, ids, fails))
  {
    hide ClosedOnly, Those, ClosedSome, DatabaseFails, Removable, CascadedAll, NoneFails, PeersOf;
    var j := FirstFailing(w.open, ids, fails);
    RevokedUpToIsExact(w.working, w.committed, ids, j, at);
    RevokedUpToIsExact(w.working, w.committed, ids, 0, at);
    NoneFailsExactly(w.open, ids, fails);
  }

  /** The peers first, one by one, then the rows. */
  method ResetListed(
      repo: Repository<Db>, remote: PeerServer, ids: seq<nat>, at: int, hasRemover: bool, fails: Faults)
    returns (r: Outcome<nat>)
    requires repo.Valid() && repo.depth == 0
    requires forall i :: 0 <= i < |ids| ==>
      ids[i] in repo.working.devices && repo.working.devices[ids[i]].status == Active
    requires forall i, j :: 0 <= i < j < |ids| ==> ids[i] != ids[j]
    modifies repo, remote`peers
    ensures repo.Valid() && repo.depth == 0
    ensures ResetAs(old(WorldOf(repo, remote)), WorldOf(repo, remote), ids, at, hasRemover, fails, r)
    ensures r.Done? && ids != [] ==> !repo.open
    ensures old(Safe(WorldOf(repo, remote))) ==> Leads(old(WorldOf(repo, remote)), WorldOf(repo, remote), 0)
  {
    hide Safe, Step, Leads, CascadedAll, PeersOf, NoneFails, DatabaseFails, Removable;
    ghost var w := WorldOf(repo, remote);
    StayingLeads(w);
    NoPeers(repo.working, ids);
    assert ids[..|ids|] == ids && PeersOf(repo.working, []) == {};
    if hasRemover {
      var ok, removed := RemoveListedPeers(repo, remote, ids, fails);
      RemovalLeads(w, WorldOf(repo, remote));
      if !ok {
        return if removed > 0 then PartialFailure else Raised(Failure);
      }
    }
    ghost var mid := WorldOf(repo, remote);
    if Safe(w) {
      LeadsSafely(w, mid, 0);
    }
    r := RevokeListed(repo, remote, ids, at, hasRemover, fails);
    if Safe(w) {
      LeadsOn(w, mid, WorldOf(repo, remote), 0);
    }
  }

  /** Removes the remote peers of a user's listed devices one by one, then revokes the devices one by one. */
  method ResetUserDevices(
      repo: Repository<Db>, remote: PeerServer, user: Option<nat>, at: int, hasRemover: bool, fails: Faults)
    returns (r: Outcome<nat>)
    requires repo.Valid() && repo.depth == 0
    modifies repo, remote`peers
    ensures repo.Valid() && repo.depth == 0
    ensures user.None? ==> r == Done(0) && repo.committed == old(repo.committed) && remote.peers == old(remote.peers)
    ensures user.Some? ==>
      ResetAs(old(WorldOf(repo, remote)), WorldOf(repo, remote), ListedDevices(old(repo.working), user.value), at,
              hasRemover, fails, r)
    ensures user.Some? ==>
      var ids := ListedDevices(old(repo.working), user.value);
      && (r.Done? && ids != [] ==> !repo.open && ClosedOnly(old(repo.working), repo.committed, Those(ids), at))
      && (repo.committed == old(repo.committed) || ClosedSome(old(repo.working), repo.committed, ids, at))
      && (r.Done? <==> ids == [] || (hasRemover && !old(repo.open) && NoneFails(ids, fails)
                                     && AllRemovable(old(repo.working), ids, fails)))
    ensures old(Safe(WorldOf(repo, remote))) ==> Leads(old(WorldOf(repo, remote)), WorldOf(repo, remote), 0)
  {
    hide Safe, Step, Leads, ActiveBelow, ResetAs, ClosedOnly, ClosedSome, NoneFails, AllRemovable, Those;
    ghost var w := WorldOf(repo, remote);
    StayingLeads(w);
    if user.None? {
      return Done(0);
    }
    var ids := ListedDevices(repo.working, user.value);
    ListedAreActive(repo.working, user.value);
    r := ResetListed(repo, remote, ids, at, hasRemover, fails);
    ResetIsExact(w, WorldOf(repo, remote), ids, at, hasRemover, fails, r);
  }

  lemma NoPeers(db: Db, ids: seq<nat>)
    ensures PeersOf(db, ids[..0]) == {}
  {
  }

  lemma RemovalLeads(w: World, v: World)
    requires RemovalStep(w, v)
    ensures Leads(w, v, 0)
  {
    StepLeads(w, v, 0);
  }

  lemma PeersOfNext(db: Db, ids: seq<nat>, i: nat)
    requires i < |ids| && ids[i] in db.devices
    ensures PeersOf(db, ids[..i + 1]) == PeersOf(db, ids[..i]) + {db.devices[ids[i]].peer}
  {
    assert forall j :: 0 <= j <= i ==> ids[..i + 1][j] == ids[j];
    assert forall j :: 0 <= j < i ==> ids[..i][j] == ids[j];
  }

  lemma PeerOfListed(db: Db, ids: seq<nat>, i: nat)
    requires i < |ids| && ids[i] in db.devices
    ensures db.devices[ids[i]].peer in PeersOf(db, ids)
  {
  }

  /** Cascades of the earlier devices leave a later one active. */
  lemma StillActive(db: Db, ids: seq<nat>, i: nat, at: int)
    requires i < |ids| && forall j :: 0 <= j < |ids| ==> ids[j] in db.devices
    requires forall j, k :: 0 <= j < k < |ids| ==> ids[j] != ids[k]
    ensures ids[i] in CascadedAll(db, ids[..i], at).devices
    ensures CascadedAll(db, ids[..i], at).devices[ids[i]] == db.devices[ids[i]]
  {
    CascadedAllElsewhere(db, ids[..i], at);
  }
}
