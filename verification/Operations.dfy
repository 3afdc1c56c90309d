/** Any sequence of operations on devices, each with any faults. */
module Operations {
  import opened Basics
  import opened Database
  import opened RemoteFirst
  import opened Transactions
  import Access
  import Issuance
  import Revocation

  datatype Command =
    | Approve(order: nat, server: nat, env: Access.Env)
    | Create(request: Access.Request, env: Access.Env)
    | Disable(id: nat, reason: string, at: int, applyRemote: bool, fails: Revocation.Faults)
    | Revoke(id: nat, reason: string, at: int, applyRemote: bool, fails: Revocation.Faults)
    | Cascade(id: nat, reason: string, at: int, applyRemote: bool, fails: Revocation.Faults)
    | Reset(user: Option<nat>, at: int, fails: Revocation.Faults)
    | Issue(session: Issuance.Session)
    | DyingApproval(order: nat, server: nat, env: Access.Env)  // the process dies after the apply, before the commit
    | DyingCreation(request: Access.Request, env: Access.Env)
    | DyingRemoval(id: nat, removalFails: bool)  // the process dies after the removal, before the row changes
    | OtherWrite(fault: Fault)  // a write that touches no device
    | Restart

  datatype Ending = Ended(outcome: Outcome<()>) | Died(applied: bool) | Issued(result: Issuance.IssueResult)

  function Forget<T>(o: Outcome<T>): Ending {
    Ended(match o
          case Done(_) => Done(())
          case PartialFailure => PartialFailure
          case Raised(e) => Raised(e))
  }

  /** The peer that a creation leaves unfinished: its call ended in a partial failure, or its process died. */
  function LeftBy(c: Command, e: Ending): set<Peer> {
    match c
    case Approve(_, server, env) => if e == Ended(PartialFailure) then {Peer(server, env.key)} else {}
    case Create(request, env) => if e == Ended(PartialFailure) then {Peer(request.server, env.key)} else {}
    case DyingApproval(_, server, env) => if e == Died(true) then {Peer(server, env.key)} else {}
    case DyingCreation(request, env) => if e == Died(true) then {Peer(request.server, env.key)} else {}
    case _ => {}
  }

  predicate RunsOn(c: Command, service: Access.AccessService) {
    c.Issue? ==> c.session.Issue? && Issuance.RunsOn(c.session, service)
  }

  /** An order was approved. */
  predicate IsApproval(c: Command, e: Ending) {
    c.Approve? && e == Ended(Done(()))
  }

  ghost predicate HasFulfilled(db: Db, order: nat) {
    order in db.orders && db.orders[order].status == Fulfilled
  }

  /** Not both approve the same order. */
  predicate ApproveDifferently(c: Command, e: Ending, d: Command, f: Ending) {
    IsApproval(c, e) && IsApproval(d, f) ==> c.order != d.order
  }

  method Execute(service: Access.AccessService, log: Issuance.CallLog, c: Command)
    returns (e: Ending, ghost left: set<Peer>)
    requires service.repo.Valid() && service.repo.depth == 0 && RunsOn(c, service)
    modifies service.repo, service.remote, log
    ensures service.repo.Valid() && service.repo.depth == 0
    ensures old(Safe(WorldOf(service.repo, service.remote)))
            ==> Leads(old(WorldOf(service.repo, service.remote)), WorldOf(service.repo, service.remote),
                      service.maxDevices)
    // Exactly which peer is left unfinished.
    ensures service.remote.unfinished == old(service.remote.unfinished) + left
    ensures c.Issue? ==>
      && e.Issued?
      && left == Issuance.LeftIssuing(old(service.repo.working), c.session.job, c.session.fault, e.result)
    ensures LeftAsSaid(c, e, left)
    ensures IsApproval(c, e) ==>
      !HasFulfilled(old(service.repo.working), c.order) && HasFulfilled(service.repo.committed, c.order)
  {
    hide Safe, Step, Leads, Cascaded, Closed, HasLive, HasFulfilled, Access.OrderFulfilled, Access.DeviceCreated,
      Access.RefusesApproval, Access.RefusesCreation, Access.EndsInThreeWays, Access.GetsToApproval,
      Access.GetsToCreation, Access.ApprovalError, Access.CreationError, Access.ApprovedFrom, Access.CreatedFrom,
      Access.Created, Access.ChosenIp, Access.CleanUpToCommit, Access.StrandedCommit, Access.OnlyCreates,
      Access.AtMostOneFor;
    var repo, remote := service.repo, service.remote;
    ghost var w := WorldOf(repo, remote);
    match c {
      case Approve(order, server, env) =>
        var r := service.ApproveOrder(order, server, env);
        e := Forget(r);
        if r.Done? {
          ApprovalFulfills(w.working, repo.committed, order, server, env.key, service.maxDevices);
        }
        StepLeads(w, WorldOf(repo, remote), service.maxDevices);
      case Create(request, env) =>
        var r := service.CreateOperatorDevice(request, env);
        e := Forget(r);
        StepLeads(w, WorldOf(repo, remote), service.maxDevices);
      case Disable(_, _, _, _, _) =>
        e := ExecuteEnding(service, c);
      case Revoke(_, _, _, _, _) =>
        e := ExecuteEnding(service, c);
      case Cascade(_, _, _, _, _) =>
        e := ExecuteEnding(service, c);
      case Reset(_, _, _) =>
        e := ExecuteEnding(service, c);
      case Issue(session) =>
        e, left := IssueOne(service, log, session);
        return;
      case DyingApproval(order, server, env) =>
        var applied := service.ApproveUntilDeath(order, server, env);
        e := Died(applied);
        StepLeads(w, WorldOf(repo, remote), service.maxDevices);
      case DyingCreation(request, env) =>
        var applied := service.CreateUntilDeath(request, env);
        e := Died(applied);
        StepLeads(w, WorldOf(repo, remote), service.maxDevices);
      case DyingRemoval(id, removalFails) =>
        if id in repo.working.devices && Live(repo.working.devices[id].status) {
          var removed := remote.RemovePeer(repo.working.devices[id].peer, removalFails);
        }
        ghost var mid := WorldOf(repo, remote);
        repo.Restart();
        e := Died(false);
        RemovalLeads(w, mid, WorldOf(repo, remote), service.maxDevices);
      case OtherWrite(fault) =>
        var ok := repo.Write(WithAudit(repo.working, OtherRow, None, None), fault);
        e := Ended(if ok then Done(()) else Raised(Failure));
        PublishLeads(w, WorldOf(repo, remote), service.maxDevices);
      case Restart =>
        repo.Restart();
        e := Ended(Done(()));
        RestartLeads(w, WorldOf(repo, remote), service.maxDevices);
    }
    left := LeftBy(c, e);
  }

  /** A call that ends devices. */
  method ExecuteEnding(service: Access.AccessService, c: Command) returns (e: Ending)
    requires service.repo.Valid() && service.repo.depth == 0
    requires c.Disable? || c.Revoke? || c.Cascade? || c.Reset?
    modifies service.repo, service.remote
    ensures service.repo.Valid() && service.repo.depth == 0 && e.Ended?
    ensures old(Safe(WorldOf(service.repo, service.remote)))
            ==> Leads(old(WorldOf(service.repo, service.remote)), WorldOf(service.repo, service.remote),
                      service.maxDevices)
    ensures service.remote.unfinished == old(service.remote.unfinished)
  {
    hide Safe, Step, Leads, Cascaded, Closed, HasLive, ClosedAndAudited, ClosedOnly, DisabledOnly, Revocation.ResetAs,
      Revocation.ClosedSome, Revocation.DisabledAndAudited, Revocation.DatabaseFails, Revocation.Removable,
      Revocation.ListedDevices, Revocation.CascadedAll, Revocation.PeersOf, Revocation.Audited, Revocation.Disabling,
      Revocation.ValidReason, Revocation.NoneFails, Revocation.AllRemovable, Revocation.PeerGone;
    var repo, remote, has := service.repo, service.remote, service.hasApplier;
    ghost var w := WorldOf(repo, remote);
    match c {
      case Disable(id, reason, at, applyRemote, fails) =>
        var r := Revocation.DisableAccessSlot(repo, remote, id, reason, at, has, applyRemote, fails);
        e := Forget(r);
      case Revoke(id, reason, at, applyRemote, fails) =>
        var r := Revocation.RevokeAccessSlot(repo, remote, id, reason, at, has, applyRemote, fails);
        e := Forget(r);
      case Cascade(id, reason, at, applyRemote, fails) =>
        var r := Revocation.CascadeRevokePhysicalDevice(
          repo, remote, id, reason, at, has, applyRemote, false, None, fails);
        e := Forget(r);
      case Reset(user, at, fails) =>
        var r := Revocation.ResetUserDevices(repo, remote, user, at, has, fails);
        e := Forget(r);
    }
    Widen(w, WorldOf(repo, remote), service.maxDevices);
  }

  /** One manifest. */
  method IssueOne(service: Access.AccessService, log: Issuance.CallLog, session: Issuance.Session)
    returns (e: Ending, ghost left: set<Peer>)
    requires service.repo.Valid() && service.repo.depth == 0 && session.Issue? && Issuance.RunsOn(session, service)
    modifies service.repo, service.remote, log
    ensures service.repo.Valid() && service.repo.depth == 0
    ensures Leads(old(WorldOf(service.repo, service.remote)), WorldOf(service.repo, service.remote), service.maxDevices)
    ensures service.remote.unfinished == old(service.remote.unfinished) + left
    ensures e.Issued? && left == Issuance.LeftIssuing(old(service.repo.working), session.job, session.fault, e.result)
    ensures LeftAsSaid(Issue(session), e, left)
  {
    hide Leads, Issuance.Ledger, Issuance.Once, Issuance.Book, Issuance.PeopleOk, Issuance.CourseOf,
      Issuance.MustRefuse, Issuance.NoQuotaError, Issuance.Settled, Issuance.Reported, Issuance.BothSane,
      Issuance.IsNumbered, Issuance.PeerAt, Issuance.AllCompleted, RowsEver, Issuance.ReceiptsKept;
    ghost var before := service.repo.working;
    var r := Issuance.IssueManifest(service, log, session.job, session.batchLimit, session.names, session.fault);
    left := Issuance.LeftIssuing(before, session.job, session.fault, r);
    e := Ending.Issued(r);
    if left != {} {
      Issuance.LeftIsTheLast(before, session.job, session.fault, r);
    }
  }

  /** Which peer a call left unfinished, in terms of how it ended: a manifest leaves at most that of its last slot,
      which the report, if there is one, does not call completed. */
  ghost predicate LeftAsSaid(c: Command, e: Ending, left: set<Peer>) {
    if !c.Issue? then left == LeftBy(c, e)
    else left == {} || (c.session.Issue? && e.Issued? && LeftByLast(c.session.job, e.result, left))
  }

  ghost predicate LeftByLast(job: Issuance.Job, r: Issuance.IssueResult, left: set<Peer>) {
    match r
    case Report(completed, receipts) =>
      !completed && 0 < |receipts| <= |job.slots| && left == {Issuance.PeerAt(job, |receipts| - 1)}
    case Interrupted => exists i :: 0 <= i < |job.slots| && left == {Issuance.PeerAt(job, i)}
    case Refused => false
  }

  function All(sets: seq<set<Peer>>): set<Peer> {
    set i, p | 0 <= i < |sets| && p in sets[i] :: p
  }

  lemma AllNext(sets: seq<set<Peer>>, last: set<Peer>)
    ensures All(sets + [last]) == All(sets) + last
  {
    var more := sets + [last];
    forall p ensures p in All(more) <==> p in All(sets) + last {
      if p in All(sets) {
        var i :| 0 <= i < |sets| && p in sets[i];
        assert more[i] == sets[i];
      }
      if p in last {
        assert more[|sets|] == last;
      }
    }
  }

  lemma RemovalLeads(w: World, u: World, v: World, maxDevices: nat)
    requires RemovalStep(w, u) && RestartStep(u, v)
    ensures Leads(w, v, maxDevices)
  {
    hide Leads;
    StepLeads(w, u, maxDevices);
    StepLeads(u, v, maxDevices);
    LeadsOn(w, u, v, maxDevices);
  }

  lemma Widen(w: World, v: World, maxDevices: nat)
    ensures Leads(w, v, 0) ==> Leads(w, v, maxDevices)
  {
    if Leads(w, v, 0) {
      LeadsUnderLargerQuota(w, v, 0, maxDevices);
    }
  }

  lemma PublishLeads(w: World, v: World, maxDevices: nat)
    requires PublishStep(w, v)
    ensures Leads(w, v, maxDevices)
  {
    StepLeads(w, v, maxDevices);
  }

  lemma RestartLeads(w: World, v: World, maxDevices: nat)
    requires RestartStep(w, v)
    ensures Leads(w, v, maxDevices)
  {
    StepLeads(w, v, maxDevices);
  }

  /** Whatever the operations, their faults and the deaths of the process, a safe state stays safe: no device that
      was disabled or revoked, durably or pending, has a remote peer, every remote peer belongs to a live durable
      device or to a creation that ended in a partial failure or died before its commit, addresses stay unique, and
      quotas hold. Each order is approved at most once, and one that is durably fulfilled stays so. */
  method ExecuteAll(service: Access.AccessService, log: Issuance.CallLog, commands: seq<Command>)
    returns (endings: seq<Ending>, ghost lefts: seq<set<Peer>>)
    requires service.repo.Valid() && service.repo.depth == 0 && forall c :: c in commands ==> RunsOn(c, service)
    modifies service.repo, service.remote, log
    ensures service.repo.Valid() && service.repo.depth == 0 && |endings| == |lefts| == |commands|
    ensures service.remote.unfinished == old(service.remote.unfinished) + All(lefts)
    ensures forall i :: 0 <= i < |commands| ==> LeftAsSaid(commands[i], endings[i], lefts[i])
    ensures old(Safe(WorldOf(service.repo, service.remote))) ==>
      && Safe(WorldOf(service.repo, service.remote))
      && NoReturn(old(service.repo.committed), service.repo.committed)
      && OrdersKept(old(service.repo.committed), service.repo.committed)
      && (forall i, j :: 0 <= i < j < |commands| ==>
            ApproveDifferently(commands[i], endings[i], commands[j], endings[j]))
      && (old(Ordered(WorldOf(service.repo, service.remote), service.maxDevices))
          ==> Ordered(WorldOf(service.repo, service.remote), service.maxDevices))
  {
    hide Safe, Step, Leads, NoReturn, Ordered, OrdersKept, All, LeftAsSaid, Issuance.LeftIssuing, HasFulfilled;
    ghost var w := WorldOf(service.repo, service.remote);
    StepLeads(w, w, service.maxDevices) by { Staying(w, service.maxDevices); }
    endings, lefts := [], [];
    NothingLeft();
    for i := 0 to |commands|
      invariant service.repo.Valid() && service.repo.depth == 0 && |endings| == |lefts| == i
      invariant service.remote.unfinished == old(service.remote.unfinished) + All(lefts)
      invariant forall j :: 0 <= j < i ==> LeftAsSaid(commands[j], endings[j], lefts[j])
      invariant Safe(w) ==> Leads(w, WorldOf(service.repo, service.remote), service.maxDevices)
      invariant Safe(w) ==> forall j :: 0 <= j < i && IsApproval(commands[j], endings[j])
                                        ==> HasFulfilled(service.repo.committed, commands[j].order)
      invariant Safe(w) ==> forall j, k :: 0 <= j < k < i
                                           ==> ApproveDifferently(commands[j], endings[j], commands[k], endings[k])
    {
      ghost var u := WorldOf(service.repo, service.remote);
      if Safe(w) {
        LeadsSafely(w, u, service.maxDevices);
      }
      assert RunsOn(commands[i], service);
      ghost var left;
      var e;
      e, left := Execute(service, log, commands[i]);
      AllNext(lefts, left);
      if Safe(w) {
        LeadsOn(w, u, WorldOf(service.repo, service.remote), service.maxDevices);
        LeadsSafely(u, WorldOf(service.repo, service.remote), service.maxDevices);
        forall j | 0 <= j < i && IsApproval(commands[j], endings[j])
          ensures HasFulfilled(service.repo.committed, commands[j].order)
          ensures ApproveDifferently(commands[j], endings[j], commands[i], e)
        {
          FulfilledLasts(u, service.repo.committed, commands[j].order);
        }
      }
      endings, lefts := endings + [e], lefts + [left];
    }
    if Safe(w) {
      LeadsSafely(w, WorldOf(service.repo, service.remote), service.maxDevices);
    }
  }

  lemma ApprovalFulfills(a: Db, b: Db, order: nat, server: nat, key: nat, maxDevices: nat)
    requires Access.OrderFulfilled(a, b, order, server, key, maxDevices)
    ensures !HasFulfilled(a, order) && HasFulfilled(b, order)
  {
    hide Access.OneNewDevice;
  }

  lemma FulfilledLasts(u: World, later: Db, order: nat)
    requires Safe(u) && OrdersKept(u.committed, later) && HasFulfilled(u.committed, order)
    ensures HasFulfilled(later, order) && HasFulfilled(u.working, order)
  {
  }

  lemma NothingLeft()
    ensures All([]) == {}
  {
  }

  lemma Staying(w: World, maxDevices: nat)
    ensures Step(w, w, maxDevices)
  {
  }
}
