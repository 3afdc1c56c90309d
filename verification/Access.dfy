/** Creating devices: approval of an order and creation by an operator. Both insert the row inside a
    transaction, add the remote peer, finish the row's companions and only then commit. */
module Access {
  import opened Basics
  import opened Allocation
  import opened Database
  import opened Lifecycle
  import opened RemoteFirst
  import opened Transactions

  const IP_ALLOCATION_ATTEMPTS := 3

  /** The places where an exception can come from outside: the database, the renderer, the remote side,
      the artifact writer. */
  datatype Point =
    | AtBegin | AtRead | AtRender(attempt: nat) | AtInsert(attempt: nat) | AtLostRace(attempt: nat) | AtApply
    | AtOrder | AtAudit | AtIdentity | AtArtifact | AtPassport | AtLifecycle | AtCanonicalName | AtCommit
    | AtFailureAudit | AtFailureAuditCommit

  /** Everything a creation receives from its surroundings. A listing is the remote address list at each
      attempt, None when reading it raises. */
  datatype Env = Env(key: nat, passport: nat, now: int, listing: nat -> Option<seq<int>>, fails: Point -> bool)

  datatype Request = Request(owner: nat, server: nat, mode: Mode, platform: nat, schema: nat, valid: bool)

  function FaultAt(env: Env, p: Point): Fault {
    if env.fails(p) then StatementFails else NoFault
  }

  /** The address inserted by the bounded loop from the given attempt on, allocated from the local rows and the
      remote listing of its attempt; only an insert that loses its address to another writer is tried again. */
  function ChosenIp(db: Db, server: nat, env: Env, attempt: nat): (r: Option<int>)
    ensures r.Some? ==> server in db.servers && r.value !in LocalIps(db, server)
    decreases IP_ALLOCATION_ATTEMPTS - attempt
  {
    if attempt >= IP_ALLOCATION_ATTEMPTS || server !in db.servers || env.listing(attempt).None? then None
    else
      var row, local, listed := db.servers[server], LocalIps(db, server), env.listing(attempt).value;
      var ip := Allocate(row.network, row.address, local, listed);
      if ip.None? || env.fails(AtRender(attempt)) then None
      else if env.fails(AtLostRace(attempt)) then ChosenIp(db, server, env, attempt + 1)
      else if env.fails(AtInsert(attempt)) then None
      else (AllocatedIsNew(row.network, row.address, local, listed); ip)
  }

  lemma AllocatedIsNew(net: Network, server: Option<int>, local: set<int>, listed: seq<int>)
    ensures var ip := Allocate(net, server, local, listed); ip.Some? ==> ip.value !in local
  {
    hide Allocate;
    var ip := Allocate(net, server, local, listed);
    if ip.Some? {
      AllocationIsExact(net, server, local, listed, ip.value);
    }
  }

  /** What one attempt allocates, if its listing can be read, an address is left and the config can be rendered. */
  ghost predicate Offers(db: Db, server: nat, env: Env, attempt: nat, ip: int) {
    && server in db.servers && env.listing(attempt).Some? && !env.fails(AtRender(attempt))
    && var row := db.servers[server];
    && Allocate(row.network, row.address, LocalIps(db, server), env.listing(attempt).value) == Some(ip)
  }

  /** An address is inserted exactly by the first of three attempts whose insert does not lose its address to another
      writer, if every attempt up to it has an address to offer and that insert does not fail. */
  lemma {:induction false} ChosenExactly(db: Db, server: nat, env: Env, ip: int)
    ensures ChosenIp(db, server, env, 0) == Some(ip) <==>
      exists n: nat ::
        && n < 3 && Offers(db, server, env, n, ip) && !env.fails(AtLostRace(n)) && !env.fails(AtInsert(n))
        && forall m: nat :: m < n ==> env.fails(AtLostRace(m)) && exists lost :: Offers(db, server, env, m, lost)
  {
    hide Allocate, LocalIps;
    ChosenFrom(db, server, env, 0, ip);
    ChosenFrom(db, server, env, 1, ip);
    ChosenFrom(db, server, env, 2, ip);
    assert ChosenIp(db, server, env, 3) == None;
  }

  lemma ChosenFrom(db: Db, server: nat, env: Env, attempt: nat, ip: int)
    requires attempt < 3
    ensures ChosenIp(db, server, env, attempt) == Some(ip) <==>
      || (Offers(db, server, env, attempt, ip) && !env.fails(AtLostRace(attempt)) && !env.fails(AtInsert(attempt)))
      || (&& (exists lost :: Offers(db, server, env, attempt, lost)) && env.fails(AtLostRace(attempt))
          && ChosenIp(db, server, env, attempt + 1) == Some(ip))
  {
    hide Allocate, LocalIps;
    if server in db.servers && env.listing(attempt).Some? && !env.fails(AtRender(attempt)) {
      var row := db.servers[server];
      var offered := Allocate(row.network, row.address, LocalIps(db, server), env.listing(attempt).value);
      assert offered.Some? ==> Offers(db, server, env, attempt, offered.value);
    }
  }

  /** The row is inserted and, with an applier, its peer added. */
  predicate Adds(db: Db, server: nat, hasApplier: bool, env: Env) {
    ChosenIp(db, server, env, 0).Some? && !HasPeer(db, Peer(server, env.key)) && !(hasApplier && env.fails(AtApply))
  }

  function NewDevice(user: nat, server: nat, key: nat, ip: int, mode: Mode): Device {
    Device(user, Peer(server, key), ip, mode, Active, None)
  }

  /** The row of a device that was inserted. */
  function Chosen(db: Db, user: nat, server: nat, mode: Mode, env: Env): Device
    requires ChosenIp(db, server, env, 0).Some?
  {
    NewDevice(user, server, env.key, ChosenIp(db, server, env, 0).value, mode)
  }

  function Min(a: nat, b: nat): nat {
    if a <= b then a else b
  }

  /** The number of active devices at which an order is refused. */
  function OrderLimit(db: Db, o: Order, maxDevices: nat): nat {
    if o.plan.Some? && o.plan.value in db.plans && db.plans[o.plan.value].Some?
    then Min(maxDevices, db.plans[o.plan.value].value) else maxDevices
  }

  /** The first business rule an approval breaks. */
  function ApprovalError(db: Db, order: nat, server: nat, maxDevices: nat): Option<Error> {
    if order !in db.orders then Some(NotFound)
    else
      var o := db.orders[order];
      if o.plan.Some? && o.plan.value !in db.plans then Some(NotFound)
      else if o.status == Fulfilled || o.device.Some? then Some(AlreadyFulfilled)
      else if o.status != ManualReview && o.status != Approved then Some(NotApprovable)
      else if |ActiveDevices(db, o.user)| >= OrderLimit(db, o, maxDevices) then Some(MaxDevices)
      else if server !in db.servers then Some(NotFound)
      else None
  }

  /** The first rule an operator's creation breaks. */
  function CreationError(db: Db, q: Request, maxDevices: nat, hasApplier: bool): Option<Error> {
    if !q.valid then Some(Failure)
    else if q.owner !in db.users then Some(NotFound)
    else if !db.users[q.owner].active then Some(OwnerNotActive)
    else if q.mode == OwnerShared && !db.users[q.owner].isAdmin then Some(OwnerNotAdmin)
    else if q.mode != OwnerShared && |ActiveDevices(db, q.owner)| >= maxDevices then Some(MaxDevices)
    else if !hasApplier then Some(ApplierRequired)
    else if q.server !in db.servers then Some(NotFound)
    else None
  }

  /** The database after an approval: one device, the order linked to it and fulfilled, one audit row. */
  function Approval(db: Db, order: nat, d: Device): Db
    requires order in db.orders
  {
    var id := db.nextDevice;
    var o := db.orders[order];
    var inserted := WithDevice(db, d);
    WithAudit(inserted.(orders := inserted.orders[order := o.(device := Some(id), status := Fulfilled)]),
              ApprovalRow, Some(o.user), Some(id))
  }

  /** The database after an operator's creation: one device, one audit row and, except for an
      unassigned slot, a passport that is logged as ready. */
  function Creation(db: Db, q: Request, d: Device, env: Env): Db {
    var id := db.nextDevice;
    var audited := WithAudit(WithDevice(db, d), CreationRow, Some(q.owner), Some(id));
    if q.mode == RecipientUnassigned then audited
    else audited.(
         passports := audited.passports[env.passport := Passport(Some(id), q.owner, q.platform, q.schema, None)],
         events := After(audited.events, ReadyCall(env)))
  }

  /** A creation writes devices, passports, log and audit rows only. */
  predicate OnlyCreates(older: Db, newer: Db) {
    newer.(devices := older.devices, nextDevice := older.nextDevice, passports := older.passports,
           events := older.events, audits := older.audits) == older
  }

  function ReadyCall(env: Env): Call {
    Call(None, Some(env.passport), ConfigReady, true, env.now, env.now)
  }

  // ----- The same in terms of the rows -----

  /** A host of the server's network that is not its own address and that no reserving device of it has. */
  predicate IsFreshAddress(db: Db, server: nat, ip: int) {
    && server in db.servers && db.servers[server].network.IsHost(ip) && db.servers[server].address != Some(ip)
    && forall id :: id in db.devices && db.devices[id].status in {Pending, Active, Disabled} ==>
         db.devices[id].peer.server != server || db.devices[id].ip != ip
  }

  /** One more active device, of a new peer and with a fresh address. */
  ghost predicate OneNewDevice(a: Db, b: Db, user: nat, peer: Peer, mode: Mode) {
    && b.nextDevice == a.nextDevice + 1 && (forall id :: id in a.devices ==> a.devices[id].peer != peer)
    && exists ip :: IsFreshAddress(a, peer.server, ip)
                    && b.devices == a.devices[a.nextDevice := Device(user, peer, ip, mode, Active, None)]
  }

  /** The number of a user's active devices. */
  function ActiveCount(db: Db, user: nat): nat {
    |set id | id in db.devices && db.devices[id].user == user && db.devices[id].status == Active|
  }

  lemma CountsActive(db: Db, user: nat)
    ensures ActiveCount(db, user) == |ActiveDevices(db, user)|
  {
    assert ActiveDevices(db, user)
           == set id | id in db.devices && db.devices[id].user == user && db.devices[id].status == Active;
  }

  /** An order under manual review or approved, without a device and within the limits of its plan and the service. */
  ghost predicate IsApprovable(db: Db, order: nat, maxDevices: nat) {
    && order in db.orders
    && var o := db.orders[order];
    && o.status in {ManualReview, Approved} && o.device.None? && ActiveCount(db, o.user) < maxDevices
    && (o.plan.Some? ==>
          && o.plan.value in db.plans
          && (db.plans[o.plan.value].Some? ==> ActiveCount(db, o.user) < db.plans[o.plan.value].value))
  }

  /** The order, which could be approved, is fulfilled with a new device for its user, one audit row says so, and
      nothing else changed. */
  ghost predicate OrderFulfilled(a: Db, b: Db, order: nat, server: nat, key: nat, maxDevices: nat) {
    && IsApprovable(a, order, maxDevices)
    && var o := a.orders[order];
    && b.orders == a.orders[order := Order(o.user, o.plan, Fulfilled, Some(a.nextDevice))]
    && OneNewDevice(a, b, o.user, Peer(server, key), DedicatedDevice)
    && b.audits == a.audits + [Audit(ApprovalRow, Some(o.user), Some(a.nextDevice))]
    && b == a.(orders := b.orders, devices := b.devices, nextDevice := b.nextDevice, audits := b.audits)
  }

  /** Why an approval was refused. */
  ghost predicate RefusesApproval(db: Db, order: nat, server: nat, maxDevices: nat, e: Error) {
    match e
    case NotFound =>
      || order !in db.orders || (db.orders[order].plan.Some? && db.orders[order].plan.value !in db.plans)
      || server !in db.servers
    case AlreadyFulfilled =>
      order in db.orders && (db.orders[order].status == Fulfilled || db.orders[order].device.Some?)
    case NotApprovable => order in db.orders && db.orders[order].status !in {ManualReview, Approved, Fulfilled}
    case MaxDevices =>
      && order in db.orders
      && var o := db.orders[order];
      && (ActiveCount(db, o.user) >= maxDevices
          || (o.plan.Some? && o.plan.value in db.plans && db.plans[o.plan.value].Some?
              && ActiveCount(db, o.user) >= db.plans[o.plan.value].value))
    case IpConflict => true
    case Failure => true
    case _ => false
  }

  lemma ChosenIsFresh(db: Db, server: nat, env: Env, attempt: nat)
    ensures var ip := ChosenIp(db, server, env, attempt); ip.Some? ==> IsFreshAddress(db, server, ip.value)
    decreases IP_ALLOCATION_ATTEMPTS - attempt
  {
    hide Allocate, IsFreshAddress;
    if attempt < IP_ALLOCATION_ATTEMPTS && server in db.servers && env.listing(attempt).Some? {
      var row, listed := db.servers[server], env.listing(attempt).value;
      AllocatedIsFresh(db, server, listed);
      ChosenIsFresh(db, server, env, attempt + 1);
    }
  }

  lemma AllocatedIsFresh(db: Db, server: nat, listed: seq<int>)
    requires server in db.servers
    ensures var row := db.servers[server]; var ip := Allocate(row.network, row.address, LocalIps(db, server), listed);
            ip.Some? ==> IsFreshAddress(db, server, ip.value)
  {
    hide Allocate;
    var row := db.servers[server];
    var ip := Allocate(row.network, row.address, LocalIps(db, server), listed);
    if ip.Some? {
      AllocationIsExact(row.network, row.address, LocalIps(db, server), listed, ip.value);
      forall id | id in db.devices && db.devices[id].peer.server == server
                  && db.devices[id].status in {Pending, Active, Disabled}
        ensures db.devices[id].ip in LocalIps(db, server)
      {
      }
    }
  }

  lemma InsertedIsNew(a: Db, b: Db, user: nat, server: nat, mode: Mode, env: Env)
    requires ChosenIp(a, server, env, 0).Some? && !HasPeer(a, Peer(server, env.key))
    requires b.nextDevice == a.nextDevice + 1
    requires b.devices == a.devices[a.nextDevice := Chosen(a, user, server, mode, env)]
    ensures OneNewDevice(a, b, user, Peer(server, env.key), mode)
  {
    hide ChosenIp, IsFreshAddress;
    ChosenIsFresh(a, server, env, 0);
  }

  lemma ApprovalInRows(a: Db, b: Db, order: nat, server: nat, maxDevices: nat, env: Env)
    requires ApprovalError(a, order, server, maxDevices).None? && ApprovedFrom(a, b, order, server, env)
    ensures OrderFulfilled(a, b, order, server, env.key, maxDevices) && OrdersKept(a, b)
  {
    hide ChosenIp, OneNewDevice, HasPeer, ApprovalError, IsApprovable;
    ApprovalErrorIsRight(a, order, server, maxDevices);
    InsertedIsNew(a, b, a.orders[order].user, server, DedicatedDevice, env);
  }

  lemma ApprovalErrorIsRight(db: Db, order: nat, server: nat, maxDevices: nat)
    ensures ApprovalError(db, order, server, maxDevices).Some?
            ==> RefusesApproval(db, order, server, maxDevices, ApprovalError(db, order, server, maxDevices).value)
    ensures ApprovalError(db, order, server, maxDevices).None?
            <==> IsApprovable(db, order, maxDevices) && server in db.servers
    ensures RefusesApproval(db, order, server, maxDevices, Failure)
    ensures RefusesApproval(db, order, server, maxDevices, IpConflict)
  {
    hide ActiveDevices, ActiveCount;
    if order in db.orders {
      CountsActive(db, db.orders[order].user);
    }
  }

  /** An owner who may have the device, with its row, one audit row and, but for an unassigned slot, a passport that is
      logged as ready; nothing else changed. */
  ghost predicate DeviceCreated(a: Db, b: Db, q: Request, key: nat, passport: nat, maxDevices: nat) {
    && MayOwn(a, q.owner, q.mode, maxDevices)
    && OneNewDevice(a, b, q.owner, Peer(q.server, key), q.mode)
    && b.audits == a.audits + [Audit(CreationRow, Some(q.owner), Some(a.nextDevice))]
    && b == a.(devices := b.devices, nextDevice := b.nextDevice, audits := b.audits, passports := b.passports,
               events := b.events)
    && (q.mode != RecipientUnassigned ==> passport !in a.passports)
    && PassportWritten(a, b, q, passport)
  }

  ghost predicate PassportWritten(a: Db, b: Db, q: Request, passport: nat) {
    if q.mode == RecipientUnassigned then b.passports == a.passports && b.events == a.events
    else && b.passports == a.passports[passport := Passport(Some(a.nextDevice), q.owner, q.platform, q.schema, None)]
         && a.events <= b.events && IsReady(b, passport)
  }

  lemma CreationWrites(db: Db, q: Request, d: Device, env: Env)
    ensures var b := Creation(db, q, d, env);
            && b.devices == db.devices[db.nextDevice := d] && b.nextDevice == db.nextDevice + 1
            && b.audits == db.audits + [Audit(CreationRow, Some(q.owner), Some(db.nextDevice))]
            && b == db.(devices := b.devices, nextDevice := b.nextDevice, audits := b.audits, passports := b.passports,
                        events := b.events)
            && PassportWritten(db, b, q, env.passport)
  {
    PassportIsWritten(db, q, d, env);
    hide IsReady, After, PassportWritten, ReadyCall;
    if q.mode == RecipientUnassigned {
      assert Creation(db, q, d, env) == WithAudit(WithDevice(db, d), CreationRow, Some(q.owner), Some(db.nextDevice));
    }
  }

  lemma PassportIsWritten(db: Db, q: Request, d: Device, env: Env)
    ensures PassportWritten(db, Creation(db, q, d, env), q, env.passport)
  {
    hide IsReady, After;
    ReadyIsLogged(db, Creation(db, q, d, env), env);
  }

  /** No step of a creation raises. */
  ghost predicate NothingFails(q: Request, env: Env) {
    && (forall p :: p in {AtBegin, AtRead, AtIdentity, AtApply, AtAudit, AtArtifact, AtCommit} ==> !env.fails(p))
    && (q.mode != RecipientUnassigned ==>
          forall p :: p in {AtPassport, AtLifecycle, AtCanonicalName} ==> !env.fails(p))
  }

  ghost predicate MayOwn(db: Db, owner: nat, mode: Mode, maxDevices: nat) {
    && owner in db.users && db.users[owner].active && (mode == OwnerShared ==> db.users[owner].isAdmin)
    && (mode != OwnerShared ==> ActiveCount(db, owner) < maxDevices)
  }

  /** The log says that the configuration of the passport's device is ready. */
  ghost predicate IsReady(db: Db, passport: nat) {
    exists i :: 0 <= i < |db.events| && db.events[i].passport == Some(passport) && db.events[i].stage == ConfigReady
                && db.events[i].completed
  }

  /** Why a creation was refused. */
  ghost predicate RefusesCreation(db: Db, q: Request, maxDevices: nat, hasApplier: bool, e: Error) {
    match e
    case NotFound => q.owner !in db.users || q.server !in db.servers
    case OwnerNotActive => q.owner in db.users && !db.users[q.owner].active
    case OwnerNotAdmin => q.owner in db.users && q.mode == OwnerShared && !db.users[q.owner].isAdmin
    case MaxDevices => q.mode != OwnerShared && ActiveCount(db, q.owner) >= maxDevices
    case ApplierRequired => !hasApplier
    case IpConflict => true
    case Failure => true
    case _ => false
  }

  lemma CreationErrorIsRight(db: Db, q: Request, maxDevices: nat, hasApplier: bool)
    ensures CreationError(db, q, maxDevices, hasApplier).Some?
            ==> RefusesCreation(db, q, maxDevices, hasApplier, CreationError(db, q, maxDevices, hasApplier).value)
    ensures CreationError(db, q, maxDevices, hasApplier).None?
            <==> q.valid && MayOwn(db, q.owner, q.mode, maxDevices) && hasApplier && q.server in db.servers
    ensures RefusesCreation(db, q, maxDevices, hasApplier, Failure)
    ensures RefusesCreation(db, q, maxDevices, hasApplier, IpConflict)
  {
    hide ActiveDevices, ActiveCount;
    CountsActive(db, q.owner);
  }

  lemma ReadyIsLogged(a: Db, b: Db, env: Env)
    ensures a.events <= After(a.events, ReadyCall(env))
    ensures b.events == After(a.events, ReadyCall(env)) ==> IsReady(b, env.passport)
  {
    var c := ReadyCall(env);
    if Recorded(a.events, c) == Inserted {
      assert After(a.events, c)[|a.events|] == c.Row();
    } else {
      var i :| 0 <= i < |a.events| && Listed(a.events[i], c.ticket, c.passport) && a.events[i].stage == c.stage
               && a.events[i].completed;
      assert After(a.events, c)[i] == a.events[i];
    }
  }

  lemma CreationInRows(a: Db, b: Db, q: Request, maxDevices: nat, hasApplier: bool, env: Env)
    requires CreationError(a, q, maxDevices, hasApplier).None? && CleanUpToCommit(a, q, env)
    requires CreatedFrom(a, b, q, env)
    ensures DeviceCreated(a, b, q, env.key, env.passport, maxDevices)
    ensures GetsToCreation(a, q, maxDevices, hasApplier, env) && !env.fails(AtBegin) && !env.fails(AtCommit)
            ==> NothingFails(q, env)
  {
    hide ChosenIp, OneNewDevice, HasPeer, Creation, CreationError, MayOwn, PassportWritten;
    CreationErrorIsRight(a, q, maxDevices, hasApplier);
    CreationWrites(a, q, Chosen(a, q.owner, q.server, q.mode, env), env);
    InsertedIsNew(a, b, q.owner, q.server, q.mode, env);
  }

  /** An approval that breaks no rule and whose device is inserted and applied. */
  ghost predicate GetsToApproval(db: Db, order: nat, server: nat, maxDevices: nat, hasApplier: bool, env: Env) {
    ApprovalError(db, order, server, maxDevices).None? && !env.fails(AtRead) && Adds(db, server, hasApplier, env)
  }

  /** A creation that breaks no rule and whose device is inserted and applied. */
  ghost predicate GetsToCreation(db: Db, q: Request, maxDevices: nat, hasApplier: bool, env: Env) {
    && CreationError(db, q, maxDevices, hasApplier).None?
    && !env.fails(AtRead) && !env.fails(AtIdentity) && Adds(db, q.server, hasApplier, env)
  }

  /** The three ways a creation may end, seen from the durable database and the remote side: both changed;
      a reported partial failure with the peer added and the database as before, or with the one audit row that
      such a failure may write; or an exception with neither changed. */
  ghost predicate EndsInThreeWays<T>(w: World, v: World, peer: Peer, failureRow: Option<Audit>, r: Outcome<T>) {
    match r
    case Done(_) => v.committed != w.committed && v.peers == w.peers + {peer} && HasLive(v.committed, peer)
    case PartialFailure =>
      && v.peers == w.peers + {peer} && v.unfinished == w.unfinished + {peer}
      && (v.committed == w.committed
          || (failureRow.Some? && v.committed == w.committed.(audits := w.committed.audits + [failureRow.value])))
    case Raised(_) => v.committed == w.committed && v.peers == w.peers
  }

  /** The audit row of a partial failure. */
  function FailureRow(q: Request): Option<Audit> {
    Some(Audit(PartialFailureRow, Some(q.owner), None))
  }

  class AccessService {
    const repo: Repository<Db>
    const remote: PeerServer
    const hasApplier: bool
    const maxDevices: nat

    constructor (repo: Repository<Db>, remote: PeerServer, hasApplier: bool, maxDevices: nat)
      ensures this.repo == repo && this.remote == remote
      ensures this.hasApplier == hasApplier && this.maxDevices == maxDevices
    {
      this.repo, this.remote, this.hasApplier, this.maxDevices := repo, remote, hasApplier, maxDevices;
    }

    /** Allocates, inserts and applies; a duplicate address is retried, every other error ends it. The
        second result says whether the remote peer was added. */
    method CreateDeviceWithAllocatedIp(user: nat, server: nat, mode: Mode, env: Env)
      returns (r: Outcome<nat>, applied: bool)
      requires repo.Valid() && repo.depth > 0 && server in repo.working.servers
      modifies repo, remote`peers
      ensures repo.Valid() && repo.depth == old(repo.depth) && repo.committed == old(repo.committed)
      ensures repo.published == old(repo.published)
      ensures !r.PartialFailure?
      ensures r.Raised? ==> !applied && remote.peers == old(remote.peers) && r.error in {IpConflict, Failure}
      ensures r.Done? <==> Adds(old(repo.working), server, hasApplier, env)
      ensures r.Done? ==>
        && r.value == old(repo.working.nextDevice) && applied == hasApplier
        && !HasPeer(old(repo.working), Peer(server, env.key))
        && remote.peers == old(remote.peers) + (if hasApplier then {Peer(server, env.key)} else {})
        && repo.working == WithDevice(old(repo.working), Chosen(old(repo.working), user, server, mode, env))
    {
      hide HasPeer, LocalIps, Allocate;
      ghost var before := repo.working;
      applied := false;
      var row := repo.working.servers[server];
      for attempt := 0 to IP_ALLOCATION_ATTEMPTS
        invariant repo.Valid() && repo.depth == old(repo.depth) && repo.committed == old(repo.committed)
        invariant repo.working == before && repo.published == old(repo.published)
        invariant remote.peers == old(remote.peers) && !applied
        invariant ChosenIp(before, server, env, attempt) == ChosenIp(before, server, env, 0)
      {
        var listed := env.listing(attempt);
        if listed.None? {
          return Raised(IpConflict), false;
        }
        var ip := AllocateVpnIp(row.network, row.address, LocalIps(repo.working, server), listed.value);
        if ip.None? {
          return Raised(IpConflict), false;
        }
        AllocatedIsNew(row.network, row.address, LocalIps(repo.working, server), listed.value);
        if env.fails(AtRender(attempt)) {
          return Raised(Failure), false;
        }
        var d := NewDevice(user, server, env.key, ip.value, mode);
        if HasPeer(repo.working, d.peer) {
          return Raised(Failure), false;
        }
        if d.ip in LocalIps(repo.working, server) || env.fails(AtLostRace(attempt)) {
          continue;
        }
        var id := repo.working.nextDevice;
        var inserted := repo.Write(WithDevice(repo.working, d), FaultAt(env, AtInsert(attempt)));
        if !inserted {
          return Raised(Failure), false;
        }
        if hasApplier {
          applied := remote.ApplyPeer(d.peer, env.fails(AtApply));
          if !applied {
            return Raised(Failure), false;
          }
        }
        return Done(id), applied;
      }
      return Raised(IpConflict), false;
    }

    /** The part of an approval that runs inside the transaction. */
    method ApproveInside(order: nat, server: nat, env: Env) returns (r: Outcome<nat>, applied: bool)
      requires repo.Valid() && repo.depth > 0
      modifies repo, remote`peers
      ensures repo.Valid() && repo.depth == old(repo.depth) && repo.committed == old(repo.committed)
      ensures repo.published == old(repo.published)
      ensures !r.PartialFailure?
      ensures ApprovalError(old(repo.working), order, server, maxDevices).Some? && !env.fails(AtRead)
              ==> r == Raised(ApprovalError(old(repo.working), order, server, maxDevices).value)
      ensures r.Raised? ==> r.error in {IpConflict, Failure}
                            || ApprovalError(old(repo.working), order, server, maxDevices) == Some(r.error)
      ensures applied <==> hasApplier && GetsToApproval(old(repo.working), order, server, maxDevices, hasApplier, env)
      ensures remote.peers == old(remote.peers) + (if applied then {Peer(server, env.key)} else {})
      ensures r.Done? <==>
        && GetsToApproval(old(repo.working), order, server, maxDevices, hasApplier, env)
        && !env.fails(AtOrder) && !env.fails(AtAudit)
      ensures r.Done? ==>
        r.value == old(repo.working.nextDevice) && ApprovedFrom(old(repo.working), repo.working, order, server, env)
      ensures applied || r.Done?
              ==> Admitted(old(repo.working), repo.working, Peer(server, env.key), r.Done?, maxDevices)
    {
      hide Admitted, Allocate, Reserves;
      ghost var before := repo.working;
      if order !in repo.working.orders {
        return Raised(if env.fails(AtRead) then Failure else NotFound), false;
      }
      if env.fails(AtRead) {
        return Raised(Failure), false;
      }
      var o := repo.working.orders[order];
      if o.plan.Some? && o.plan.value !in repo.working.plans {
        return Raised(NotFound), false;
      }
      if o.status == Fulfilled || o.device.Some? {
        return Raised(AlreadyFulfilled), false;
      }
      if o.status != ManualReview && o.status != Approved {
        return Raised(NotApprovable), false;
      }
      var limit := maxDevices;
      if o.plan.Some? && repo.working.plans[o.plan.value].Some? {
        limit := Min(limit, repo.working.plans[o.plan.value].value);
      }
      if |ActiveDevices(repo.working, o.user)| >= limit {
        return Raised(MaxDevices), false;
      }
      if server !in repo.working.servers {
        return Raised(NotFound), false;
      }
      r, applied := CreateDeviceWithAllocatedIp(o.user, server, DedicatedDevice, env);
      if r.Raised? {
        return;
      }
      var id := r.value;
      ghost var d := Chosen(before, o.user, server, DedicatedDevice, env);
      assert Admissible(before, d, maxDevices);
      AdmittedBefore(before, d, maxDevices);
      var ok := repo.Write(
        repo.working.(orders := repo.working.orders[order := o.(device := Some(id), status := Fulfilled)]),
        FaultAt(env, AtOrder));
      if !ok {
        return Raised(Failure), applied;
      }
      ok := repo.Write(WithAudit(repo.working, ApprovalRow, Some(o.user), Some(id)), FaultAt(env, AtAudit));
      if !ok {
        return Raised(Failure), applied;
      }
      assert repo.working == Approval(before, order, d);
      AdmittedAs(before, repo.working, d, maxDevices);
    }

    /** Approves an order. */
    method ApproveOrder(order: nat, server: nat, env: Env) returns (r: Outcome<nat>)
      requires repo.Valid() && repo.depth == 0
      modifies repo, remote
      ensures repo.Valid() && repo.depth == 0
      // The durable database and the remote side: always one of the three ways.
      ensures EndsInThreeWays(old(WorldOf(repo, remote)), WorldOf(repo, remote), Peer(server, env.key), None, r)
              || (r.Done? && !hasApplier)
      // Exactly when it succeeds, and when it ends as a partial failure; just then its peer counts as unfinished.
      ensures r.Done? <==>
        && !old(repo.open) && !env.fails(AtBegin)
        && GetsToApproval(old(repo.working), order, server, maxDevices, hasApplier, env)
        && !env.fails(AtOrder) && !env.fails(AtAudit) && !env.fails(AtCommit)
      ensures r.PartialFailure? <==>
        && hasApplier && !old(repo.open) && !env.fails(AtBegin)
           && GetsToApproval(old(repo.working), order, server, maxDevices, hasApplier, env)
        && (env.fails(AtOrder) || env.fails(AtAudit) || env.fails(AtCommit))
      ensures remote.unfinished == old(remote.unfinished) + (if r.PartialFailure? then {Peer(server, env.key)} else {})
      // Success is exactly the approval, published at once.
      ensures r.Done? ==>
        && r.value == old(repo.working.nextDevice) && !repo.open
        && ApprovedFrom(old(repo.working), repo.committed, order, server, env)
        && OrderFulfilled(old(repo.working), repo.committed, order, server, env.key, maxDevices)
        && (forall p :: p in {AtBegin, AtRead, AtOrder, AtAudit, AtCommit} ==> !env.fails(p))
        && remote.peers == old(remote.peers) + (if hasApplier then {Peer(server, env.key)} else {})
      // A broken rule is reported as such and nothing happens.
      ensures !old(repo.open) && !env.fails(AtBegin) && !env.fails(AtRead)
              && ApprovalError(old(repo.working), order, server, maxDevices).Some?
              ==> r == Raised(ApprovalError(old(repo.working), order, server, maxDevices).value)
      ensures r.Raised? ==> RefusesApproval(old(repo.working), order, server, maxDevices, r.error)
      // Only a failed commit leaves writes pending on the connection.
      ensures !r.Done? && !env.fails(AtCommit) ==> repo.working == old(repo.working) && repo.open == old(repo.open)
      ensures Step(old(WorldOf(repo, remote)), WorldOf(repo, remote), maxDevices)
    {
      hide Admissible, ApprovalError, ChosenIp, Adds, LocalIps, Allocate, OrderFulfilled, RefusesApproval,
        ApprovedFrom, OrdersKept;
      ghost var w := WorldOf(repo, remote);
      OrdersStay(w.working, w.working);
      ApprovalErrorIsRight(w.working, order, server, maxDevices);
      var entered, isOutermost := repo.Enter(env.fails(AtBegin));
      if !entered {
        return Raised(Failure);
      }
      var applied;
      r, applied := ApproveInside(order, server, env);
      ghost var d: Device;
      ghost var inserted := applied || r.Done?;
      if inserted {
        d :| d.peer == Peer(server, env.key) && Admissible(w.working, d, maxDevices)
             && (r.Done? ==> Grown(repo.working, w.working, d));
      }
      if r.Done? {
        ApprovalInRows(w.working, repo.working, order, server, maxDevices, env);
        assert repo.working.devices[w.working.nextDevice].peer == Peer(server, env.key);
        var ok := repo.Leave(isOutermost, env.fails(AtCommit));
        if !ok {
          r := Raised(Failure);
        }
      } else {
        repo.Abort(isOutermost);
      }
      if r.Raised? && applied {
        remote.unfinished := remote.unfinished + {Peer(server, env.key)};
        r := PartialFailure;
      }
      OrdersStay(repo.committed, repo.working);
      assert inserted ==> CreationStep(w, WorldOf(repo, remote), d, maxDevices);
    }

    /** An approval whose process dies before the commit, after the peer was added if it gets that far. */
    method ApproveUntilDeath(order: nat, server: nat, env: Env) returns (applied: bool)
      requires repo.Valid() && repo.depth == 0
      modifies repo, remote
      ensures repo.Valid() && repo.depth == 0 && !repo.open && repo.working == repo.committed == old(repo.committed)
      ensures applied <==> && hasApplier && !old(repo.open) && !env.fails(AtBegin)
                           && GetsToApproval(old(repo.working), order, server, maxDevices, hasApplier, env)
      ensures var left := if applied then {Peer(server, env.key)} else {};
              remote.peers == old(remote.peers) + left && remote.unfinished == old(remote.unfinished) + left
      ensures Step(old(WorldOf(repo, remote)), WorldOf(repo, remote), maxDevices)
    {
      hide Admissible, ApprovalError, ChosenIp, Adds, LocalIps, Allocate;
      ghost var w := WorldOf(repo, remote);
      applied := false;
      var entered, isOutermost := repo.Enter(env.fails(AtBegin));
      if entered {
        var r;
        r, applied := ApproveInside(order, server, env);
      }
      repo.Restart();
      if applied {
        remote.unfinished := remote.unfinished + {Peer(server, env.key)};
        ghost var d: Device :| d.peer == Peer(server, env.key) && Admissible(w.working, d, maxDevices);
        assert CreationStep(w, WorldOf(repo, remote), d, maxDevices);
      }
    }

    /** The part of an operator's creation that runs inside the transaction. */
    method CreateInside(q: Request, env: Env) returns (r: Outcome<nat>, applied: bool)
      requires repo.Valid() && repo.depth > 0
      modifies repo, remote`peers
      ensures repo.Valid() && repo.depth == old(repo.depth) && repo.committed == old(repo.committed)
      ensures repo.published == old(repo.published)
      ensures !r.PartialFailure?
      ensures CreationError(old(repo.working), q, maxDevices, hasApplier).Some?
              && !env.fails(AtRead) && !env.fails(AtIdentity)
              ==> r == Raised(CreationError(old(repo.working), q, maxDevices, hasApplier).value)
      ensures r.Raised? ==> r.error in {IpConflict, Failure}
                            || CreationError(old(repo.working), q, maxDevices, hasApplier) == Some(r.error)
      ensures applied <==> GetsToCreation(old(repo.working), q, maxDevices, hasApplier, env)
      ensures remote.peers == old(remote.peers) + (if applied then {Peer(q.server, env.key)} else {})
      ensures r.Done? <==> applied && CleanUpToCommit(old(repo.working), q, env)
      ensures r == Raised(MaxDevices) ==> !applied && |ActiveDevices(old(repo.working), q.owner)| >= maxDevices
      ensures r.Done? ==>
        r.value == old(repo.working.nextDevice) && CreatedFrom(old(repo.working), repo.working, q, env)
      ensures applied ==> Admitted(old(repo.working), repo.working, Peer(q.server, env.key), r.Done?, maxDevices)
    {
      hide Admitted, Allocate, Reserves, After;
      ghost var before := repo.working;
      if !q.valid || env.fails(AtRead) {
        return Raised(Failure), false;
      }
      if q.owner !in repo.working.users {
        return Raised(NotFound), false;
      }
      var owner := repo.working.users[q.owner];
      if !owner.active {
        return Raised(OwnerNotActive), false;
      }
      if q.mode == OwnerShared && !owner.isAdmin {
        return Raised(OwnerNotAdmin), false;
      }
      if q.mode != OwnerShared && |ActiveDevices(repo.working, q.owner)| >= maxDevices {
        return Raised(MaxDevices), false;
      }
      if !hasApplier {
        return Raised(ApplierRequired), false;
      }
      if env.fails(AtIdentity) {
        return Raised(Failure), false;
      }
      if q.server !in repo.working.servers {
        return Raised(NotFound), false;
      }
      r, applied := CreateDeviceWithAllocatedIp(q.owner, q.server, q.mode, env);
      if r.Raised? {
        return;
      }
      var id := r.value;
      ghost var d := Chosen(before, q.owner, q.server, q.mode, env);
      assert Admissible(before, d, maxDevices) && d.peer == Peer(q.server, env.key);
      AdmittedBefore(before, d, maxDevices);
      var ok := repo.Write(WithAudit(repo.working, CreationRow, Some(q.owner), Some(id)), FaultAt(env, AtAudit));
      if !ok || env.fails(AtArtifact) {
        return Raised(Failure), applied;
      }
      if q.mode != RecipientUnassigned {
        if env.passport in repo.working.passports {
          return Raised(Failure), applied;
        }
        var passport := Passport(Some(id), q.owner, q.platform, q.schema, None);
        ok := repo.Write(repo.working.(passports := repo.working.passports[env.passport := passport]),
                         FaultAt(env, AtPassport));
        if !ok {
          return Raised(Failure), applied;
        }
        var ready := RecordDeviceLifecycleStage(repo, ReadyCall(env), FaultAt(env, AtLifecycle));
        if ready.None? || env.fails(AtLifecycle) || env.fails(AtCanonicalName) {
          return Raised(Failure), applied;
        }
      }
      assert repo.working == Creation(before, q, d, env);
      AdmittedAs(before, repo.working, d, maxDevices);
    }

    /** The transaction of an operator's creation; after a failed commit its writes stay pending. */
    method CreateInTransaction(q: Request, env: Env) returns (r: Outcome<nat>, applied: bool)
      requires repo.Valid() && repo.depth == 0
      modifies repo, remote`peers
      ensures repo.Valid() && repo.depth == 0 && !r.PartialFailure?
      ensures remote.peers == old(remote.peers) + (if applied then {Peer(q.server, env.key)} else {})
      ensures applied <==>
        && !old(repo.open) && !env.fails(AtBegin)
        && GetsToCreation(old(repo.working), q, maxDevices, hasApplier, env)
      ensures r.Done? <==> applied && CleanUpToCommit(old(repo.working), q, env) && !env.fails(AtCommit)
      ensures r == Raised(MaxDevices) ==> |ActiveDevices(old(repo.working), q.owner)| >= maxDevices
      ensures r.Raised? ==> r.error in {IpConflict, Failure}
                            || CreationError(old(repo.working), q, maxDevices, hasApplier) == Some(r.error)
      ensures applied && CleanUpToCommit(old(repo.working), q, env)
              ==> && CreatedFrom(old(repo.working), repo.working, q, env)
                  && if r.Done? then r.value == old(repo.working.nextDevice) && !repo.open
                     && repo.committed == repo.working
                     else repo.committed == old(repo.committed)
      ensures !(applied && CleanUpToCommit(old(repo.working), q, env))
              ==> repo.working == old(repo.working) && repo.committed == old(repo.committed)
                  && repo.open == old(repo.open)
      ensures !old(repo.open) && !env.fails(AtBegin) && !env.fails(AtRead) && !env.fails(AtIdentity)
              && CreationError(old(repo.working), q, maxDevices, hasApplier).Some?
              ==> r == Raised(CreationError(old(repo.working), q, maxDevices, hasApplier).value)
      ensures applied ==>
        && !old(repo.open)
        && Admitted(old(repo.working), repo.working, Peer(q.server, env.key),
                    CleanUpToCommit(old(repo.working), q, env), maxDevices)
      ensures OnlyCreates(old(repo.working), repo.working) && OnlyCreates(old(repo.committed), repo.committed)
    {
      hide Admissible, CreationError, CleanUpToCommit, CreatedFrom, Allocate, LocalIps;
      applied := false;
      var entered, isOutermost := repo.Enter(env.fails(AtBegin));
      if !entered {
        return Raised(Failure), false;
      }
      ghost var before := repo.working;
      r, applied := CreateInside(q, env);
      if r.Done? {
        CreatedFromOnlyCreates(before, repo.working, q, env);
        var ok := repo.Leave(isOutermost, env.fails(AtCommit));
        if !ok {
          r := Raised(Failure);
        }
      } else {
        repo.Abort(isOutermost);
      }
    }

    /** An operator's creation whose process dies before the commit, after the peer was added if it gets that far. */
    method CreateUntilDeath(q: Request, env: Env) returns (applied: bool)
      requires repo.Valid() && repo.depth == 0
      modifies repo, remote
      ensures repo.Valid() && repo.depth == 0 && !repo.open && repo.working == repo.committed == old(repo.committed)
      ensures applied <==> && !old(repo.open) && !env.fails(AtBegin)
                           && GetsToCreation(old(repo.working), q, maxDevices, hasApplier, env)
      ensures var left := if applied then {Peer(q.server, env.key)} else {};
              remote.peers == old(remote.peers) + left && remote.unfinished == old(remote.unfinished) + left
      ensures Step(old(WorldOf(repo, remote)), WorldOf(repo, remote), maxDevices)
    {
      hide Admissible, CreationError, CleanUpToCommit, CreatedFrom, Adds, ChosenIp, Created, HasPeer, LocalIps;
      ghost var w := WorldOf(repo, remote);
      applied := false;
      var entered, isOutermost := repo.Enter(env.fails(AtBegin));
      if entered {
        var r;
        r, applied := CreateInside(q, env);
      }
      repo.Restart();
      if applied {
        remote.unfinished := remote.unfinished + {Peer(q.server, env.key)};
        ghost var d: Device :| d.peer == Peer(q.server, env.key) && Admissible(w.working, d, maxDevices);
        assert CreationStep(w, WorldOf(repo, remote), d, maxDevices);
      }
    }

    /** The audit row of a partial failure; its own failure is ignored. */
    method RecordOperatorPartialFailure(q: Request, env: Env)
      requires repo.Valid() && repo.depth == 0
      modifies repo
      ensures repo.Valid() && repo.depth == 0
      ensures repo.working == if env.fails(AtFailureAudit) then old(repo.working)
                              else WithAudit(old(repo.working), PartialFailureRow, Some(q.owner), None)
      ensures if env.fails(AtFailureAudit) || env.fails(AtFailureAuditCommit) then repo.committed == old(repo.committed)
              else repo.committed == repo.working && !repo.open
    {
      var fault := if env.fails(AtFailureAudit) then StatementFails
                   else if env.fails(AtFailureAuditCommit) then CommitFails else NoFault;
      var _ := repo.Write(WithAudit(repo.working, PartialFailureRow, Some(q.owner), None), fault);
    }

    /** Creates a device for an owner. A partial failure is also written to the audit log, outside the
        transaction that was left. */
    method CreateOperatorDevice(q: Request, env: Env) returns (r: Outcome<nat>)
      requires repo.Valid() && repo.depth == 0
      modifies repo, remote
      ensures repo.Valid() && repo.depth == 0
      // Success and a plain exception are always right about both sides.
      ensures !r.PartialFailure?
              ==> EndsInThreeWays(old(WorldOf(repo, remote)), WorldOf(repo, remote), Peer(q.server, env.key),
                                  FailureRow(q), r)
      // A partial failure is right exactly when the commit was not the step that failed, or the audit row
      // written afterwards did not commit either.
      ensures r.PartialFailure?
              ==> (EndsInThreeWays(old(WorldOf(repo, remote)), WorldOf(repo, remote), Peer(q.server, env.key),
                                   FailureRow(q), r)
                   <==> !StrandedCommit(old(repo.working), q, env))
      // Otherwise the whole creation is durable although its failure was reported.
      ensures r.PartialFailure? && StrandedCommit(old(repo.working), q, env)
              ==> ChosenIp(old(repo.working), q.server, env, 0).Some?
                  && repo.committed
                     == WithAudit(Created(old(repo.working), q, env), PartialFailureRow, Some(q.owner), None)
      // Exactly when it succeeds, and when it ends as a partial failure; just then its peer counts as unfinished.
      ensures r.Done? <==>
        && !old(repo.open) && !env.fails(AtBegin) && GetsToCreation(old(repo.working), q, maxDevices, hasApplier, env)
        && CleanUpToCommit(old(repo.working), q, env) && !env.fails(AtCommit)
      ensures r.PartialFailure? <==>
        && !old(repo.open) && !env.fails(AtBegin) && GetsToCreation(old(repo.working), q, maxDevices, hasApplier, env)
        && !(CleanUpToCommit(old(repo.working), q, env) && !env.fails(AtCommit))
      ensures remote.unfinished
              == old(remote.unfinished) + (if r.PartialFailure? then {Peer(q.server, env.key)} else {})
      ensures remote.peers == old(remote.peers) + (if r.Raised? then {} else {Peer(q.server, env.key)})
      ensures RowsEver(repo.working, repo.committed)
              <= old(RowsEver(repo.working, repo.committed)) + (if r.Raised? then 0 else 1)
      ensures r.Done? ==>
        && r.value == old(repo.working.nextDevice) && !repo.open
        && CreatedFrom(old(repo.working), repo.committed, q, env)
        && DeviceCreated(old(repo.working), repo.committed, q, env.key, env.passport, maxDevices)
        && NothingFails(q, env)
      ensures r.Raised? ==> RefusesCreation(old(repo.working), q, maxDevices, hasApplier, r.error)
      ensures !old(repo.open) && !env.fails(AtBegin) && !env.fails(AtRead) && !env.fails(AtIdentity)
              && CreationError(old(repo.working), q, maxDevices, hasApplier).Some?
              ==> r == Raised(CreationError(old(repo.working), q, maxDevices, hasApplier).value)
      ensures r == Raised(MaxDevices) ==> |ActiveDevices(old(repo.working), q.owner)| >= maxDevices
      ensures r.Raised? ==> repo.working == old(repo.working) && repo.open == old(repo.open)
      ensures OnlyCreates(old(repo.working), repo.working) && OnlyCreates(old(repo.committed), repo.committed)
      ensures !old(repo.open) ==> AtMostOneFor(q.owner, old(repo.working), repo.working)
                                  && AtMostOneFor(q.owner, old(repo.working), repo.committed)
      ensures Step(old(WorldOf(repo, remote)), WorldOf(repo, remote), maxDevices)
    {
      hide Admissible, CreationError, CreatedFrom, CleanUpToCommit, Adds, ChosenIp, Created, HasPeer, LocalIps,
        DeviceCreated, RefusesCreation, OrdersKept, NothingFails, ActiveDevices;
      ghost var w := WorldOf(repo, remote);
      CreationErrorIsRight(w.working, q, maxDevices, hasApplier);
      var applied;
      r, applied := CreateInTransaction(q, env);
      ghost var d: Device;
      if applied && CleanUpToCommit(w.working, q, env) {
        CreatedIs(w.working, repo.working, q, env);
        CreationInRows(w.working, repo.working, q, maxDevices, hasApplier, env);
        CreatedKeepsRows(w.working, repo.working, q, env.key, env.passport, maxDevices);
      }
      if applied {
        d :| d.peer == Peer(q.server, env.key) && Live(d.status) && Admissible(w.working, d, maxDevices)
             && (CleanUpToCommit(w.working, q, env) ==> Grown(repo.working, w.working, d));
        assert Grown(repo.working, w.working, d) ==> repo.working.devices[w.working.nextDevice] == d;
      }
      if r.Raised? && applied {
        RecordOperatorPartialFailure(q, env);
        remote.unfinished := remote.unfinished + {Peer(q.server, env.key)};
        r := PartialFailure;
      }
      OrdersStay(w.working, repo.working);
      OrdersStay(w.working, repo.committed);
      OrdersStay(repo.committed, repo.working);
      assert applied ==> CreationStep(w, WorldOf(repo, remote), d, maxDevices);
    }
  }

  /** An order is approved at most once: a second approval fails, with whatever server, key and faults. */
  method ApproveTwice(service: AccessService, order: nat, server1: nat, env1: Env, server2: nat, env2: Env)
    returns (first: Outcome<nat>, second: Outcome<nat>)
    requires service.repo.Valid() && service.repo.depth == 0
    modifies service.repo, service.remote
    ensures !(first.Done? && second.Done?)
  {
    hide GetsToApproval, ApprovalError, ApprovedFrom, EndsInThreeWays, Step, OneNewDevice;
    first := service.ApproveOrder(order, server1, env1);
    second := service.ApproveOrder(order, server2, env2);
  }

  /** No new device, or one for the owner; passports and log entries stay. */
  ghost predicate AtMostOneFor(owner: nat, older: Db, newer: Db) {
    && (SameDevices(newer, older) || exists d: Device :: d.user == owner && Grown(newer, older, d))
    && (forall p :: p in older.passports ==> p in newer.passports && newer.passports[p] == older.passports[p])
    && older.events <= newer.events
  }

  lemma CreatedKeepsRows(a: Db, b: Db, q: Request, key: nat, passport: nat, maxDevices: nat)
    requires DeviceCreated(a, b, q, key, passport, maxDevices)
    ensures AtMostOneFor(q.owner, a, b)
  {
    hide IsFreshAddress, MayOwn, IsReady;
    var ip :| b.devices == a.devices[a.nextDevice := Device(q.owner, Peer(q.server, key), ip, q.mode, Active, None)];
    assert Grown(b, a, Device(q.owner, Peer(q.server, key), ip, q.mode, Active, None));
  }

  /** Nothing after the insertion and before the commit raises. */
  ghost predicate CleanUpToCommit(db: Db, q: Request, env: Env) {
    && !env.fails(AtAudit) && !env.fails(AtArtifact)
    && (q.mode != RecipientUnassigned ==>
          && env.passport !in db.passports && !env.fails(AtPassport)
          && !env.fails(AtLifecycle) && !env.fails(AtCanonicalName))
  }

  /** The commit alone failed and the audit row after it did commit, and with it everything pending. */
  ghost predicate StrandedCommit(db: Db, q: Request, env: Env) {
    CleanUpToCommit(db, q, env) && !env.fails(AtFailureAudit) && !env.fails(AtFailureAuditCommit)
  }

  /** The database after a creation whose device is inserted. */
  function Created(db: Db, q: Request, env: Env): Db
    requires ChosenIp(db, q.server, env, 0).Some?
  {
    Creation(db, q, Chosen(db, q.owner, q.server, q.mode, env), env)
  }

  ghost predicate CreatedFrom(older: Db, newer: Db, q: Request, env: Env) {
    && !HasPeer(older, Peer(q.server, env.key)) && ChosenIp(older, q.server, env, 0).Some?
    && newer == Created(older, q, env)
  }

  lemma CreatedIs(older: Db, newer: Db, q: Request, env: Env)
    requires CreatedFrom(older, newer, q, env)
    ensures ChosenIp(older, q.server, env, 0).Some? && newer == Created(older, q, env)
    ensures newer.nextDevice == older.nextDevice + 1
  {
    hide ChosenIp, LocalIps, HasPeer, Creation;
    CreationOnlyCreates(older, q, Chosen(older, q.owner, q.server, q.mode, env), env);
  }

  lemma CreatedFromOnlyCreates(older: Db, newer: Db, q: Request, env: Env)
    requires CreatedFrom(older, newer, q, env)
    ensures OnlyCreates(older, newer)
  {
    hide ChosenIp, LocalIps, HasPeer, Creation, OnlyCreates;
    CreationOnlyCreates(older, q, Chosen(older, q.owner, q.server, q.mode, env), env);
  }

  lemma {:induction false} CreationOnlyCreates(db: Db, q: Request, d: Device, env: Env)
    ensures OnlyCreates(db, Creation(db, q, d, env)) && Grown(Creation(db, q, d, env), db, d)
  {
    hide After;
  }

  /** Some device passed the checks before insertion and, if the creation got through, is the new row. */
  ghost predicate Admitted(older: Db, newer: Db, peer: Peer, inserted: bool, maxDevices: nat) {
    exists d: Device ::
      d.peer == peer && Live(d.status) && Admissible(older, d, maxDevices) && (inserted ==> Grown(newer, older, d))
  }

  lemma AdmittedBefore(older: Db, d: Device, maxDevices: nat)
    requires Live(d.status) && Admissible(older, d, maxDevices)
    ensures forall newer: Db :: Admitted(older, newer, d.peer, false, maxDevices)
  {
    hide Admissible;
  }

  lemma AdmittedAs(older: Db, newer: Db, d: Device, maxDevices: nat)
    requires Live(d.status) && Admissible(older, d, maxDevices) && Grown(newer, older, d)
    ensures Admitted(older, newer, d.peer, true, maxDevices)
  {
    hide Admissible;
  }

  ghost predicate ApprovedFrom(older: Db, newer: Db, order: nat, server: nat, env: Env) {
    && order in older.orders && !HasPeer(older, Peer(server, env.key)) && ChosenIp(older, server, env, 0).Some?
    && newer == Approval(older, order, Chosen(older, older.orders[order].user, server, DedicatedDevice, env))
  }

  // ----- The misreported case happens -----

  const EXAMPLE_REQUEST := Request(7, 3, RecipientUnassigned, 0, 0, true)

  function ExampleDb(): Db {
    Db(map[7 := User(true, false)], 8, map[], map[3 := Server(Network(10, 3), None)],
       map[], map[], map[], 0, map[], map[], [], map[], [], map[], map[])
  }

  function ExampleEnv(): Env {
    Env(1, 0, 0, (i: nat) => Some([]), p => p == AtCommit)
  }

  lemma ExampleIsAllocated(db: Db, env: Env)
    requires db.servers == map[3 := Server(Network(10, 3), None)] && LocalIps(db, 3) == {}
    requires env.listing(0) == Some([]) && !env.fails(AtRender(0)) && !env.fails(AtLostRace(0))
             && !env.fails(AtInsert(0))
    ensures ChosenIp(db, 3, env, 0) == Some(11)
  {
    hide Allocate;
    AllocationIsExact(Network(10, 3), None, {}, [], 11);
  }

  lemma ExampleGetsToTheCommit()
    ensures var db, q, env := ExampleDb(), EXAMPLE_REQUEST, ExampleEnv();
            && GetsToCreation(db, q, 5, true, env) && StrandedCommit(db, q, env)
            && env.fails(AtCommit) && !env.fails(AtBegin)
            && ChosenIp(db, q.server, env, 0) == Some(11)
            && 0 in Created(db, q, env).devices && Created(db, q, env).devices[0].status == Active
  {
    hide ChosenIp, LocalIps, ActiveDevices, Allocate;
    var db := ExampleDb();
    ExampleIsEmpty(db);
    ExampleIsAllocated(db, ExampleEnv());
  }

  lemma ExampleIsEmpty(db: Db)
    requires db.devices == map[]
    ensures ActiveDevices(db, 7) == {} && LocalIps(db, 3) == {}
  {
  }

  /** With one free address and a commit that fails once, the device is durable, with its peer, although
      the caller is told of a partial failure. */
  method StrandedCreation() returns (r: Outcome<nat>, durable: map<nat, Device>)
    ensures r.PartialFailure? && 0 in durable && durable[0].status == Active
  {
    hide ExampleDb, ExampleEnv, GetsToCreation, StrandedCommit, CleanUpToCommit, Created, ChosenIp, CreatedFrom,
      EndsInThreeWays, Step, OnlyCreates, CreationError, Safe;
    ExampleGetsToTheCommit();
    StrandedIsClean(ExampleDb(), EXAMPLE_REQUEST, ExampleEnv());
    var repo := new Repository(ExampleDb());
    var remote := new PeerServer();
    var service := new AccessService(repo, remote, true, 5);
    r := service.CreateOperatorDevice(EXAMPLE_REQUEST, ExampleEnv());
    durable := repo.committed.devices;
  }

  lemma StrandedIsClean(db: Db, q: Request, env: Env)
    requires StrandedCommit(db, q, env)
    ensures CleanUpToCommit(db, q, env)
  {
  }
}
