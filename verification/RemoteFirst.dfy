/** The database and the remote peers as one state, and what keeps them in step. */
module RemoteFirst {
  import opened Basics
  import opened Database
  import opened Transactions

  /** The peers of all servers. Each operation either takes full effect or raises with none. */
  class PeerServer {
    var peers: set<Peer>
    ghost var unfinished: set<Peer>  // peers of creations that ended in a partial failure or died before their commit

    constructor ()
      ensures peers == {} && unfinished == {}
    {
      peers, unfinished := {}, {};
    }

    method ApplyPeer(peer: Peer, fails: bool) returns (ok: bool)
      modifies this`peers
      ensures ok == !fails && peers == if ok then old(peers) + {peer} else old(peers)
    {
      ok := !fails;
      if ok {
        peers := peers + {peer};
      }
    }

    method RemovePeer(peer: Peer, fails: bool) returns (ok: bool)
      modifies this`peers
      ensures ok == !fails && peers == if ok then old(peers) - {peer} else old(peers)
    {
      ok := !fails;
      if ok {
        peers := peers - {peer};
      }
    }
  }

  datatype Error =
    | NotFound | AlreadyFulfilled | NotApprovable | MaxDevices | IpConflict
    | OwnerNotActive | OwnerNotAdmin | ApplierRequired | ApplyRequired | BadReason | BadStatus
    | Failure  // any other exception

  /** How an operation ends. PartialFailure says that the remote side changed and the local one did not. */
  datatype Outcome<+T> = Done(value: T) | PartialFailure | Raised(error: Error)

  datatype World = World(working: Db, committed: Db, open: bool, peers: set<Peer>, unfinished: set<Peer>)

  ghost function WorldOf(repo: Repository<Db>, remote: PeerServer): World
    reads repo, remote
  {
    World(repo.working, repo.committed, repo.open, remote.peers, remote.unfinished)
  }

  // ----- The invariant -----

  ghost predicate NoDeadPeer(db: Db, peers: set<Peer>) {
    forall id :: id in db.devices && !Live(db.devices[id].status) ==> db.devices[id].peer !in peers
  }

  ghost predicate HasLive(db: Db, peer: Peer) {
    exists id :: id in db.devices && db.devices[id].peer == peer && Live(db.devices[id].status)
  }

  /** Rows keep their peer and address, a revoked one stays revoked and a dead one stays dead. */
  ghost predicate NoReturn(older: Db, newer: Db) {
    && older.nextDevice <= newer.nextDevice
    && forall id :: id in older.devices ==>
         && id in newer.devices && newer.devices[id].peer == older.devices[id].peer
         && newer.devices[id].ip == older.devices[id].ip
         && (older.devices[id].status == Revoked ==> newer.devices[id].status == Revoked)
         && (Live(newer.devices[id].status) ==> Live(older.devices[id].status))
  }

  /** A fulfilled order stays fulfilled. */
  ghost predicate OrdersKept(older: Db, newer: Db) {
    forall o :: o in older.orders && older.orders[o].status == Fulfilled
                ==> o in newer.orders && newer.orders[o].status == Fulfilled
  }

  ghost predicate Safe(w: World) {
    && (!w.open ==> w.working == w.committed) && OrdersKept(w.committed, w.working)
    && UniquePeers(w.working) && UniquePeers(w.committed) && NoReturn(w.committed, w.working)
    && NoDeadPeer(w.working, w.peers) && NoDeadPeer(w.committed, w.peers)
    && forall p :: p in w.peers ==> p in w.unfinished || HasLive(w.committed, p)
  }

  /** The invariant makes it right to skip the remote removal for a device that is not live. */
  lemma {:induction false} SkippedRemovalIsNoOp(w: World, id: nat)
    requires Safe(w) && id in w.working.devices && !Live(w.working.devices[id].status)
    ensures w.peers - {w.working.devices[id].peer} == w.peers
  {
  }

  // ----- Steps -----

  ghost predicate SameDevices(a: Db, b: Db) {
    a.devices == b.devices && a.nextDevice == b.nextDevice
  }

  ghost predicate Grown(newer: Db, older: Db, d: Device) {
    newer.devices == older.devices[older.nextDevice := d] && newer.nextDevice == older.nextDevice + 1
  }

  /** What the checks before an insertion establish. */
  ghost predicate Admissible(db: Db, d: Device, maxDevices: nat) {
    && Live(d.status) && !HasPeer(db, d.peer) && d.ip !in LocalIps(db, d.peer.server)
    && (d.mode == OwnerShared || |ActiveDevices(db, d.user)| < maxDevices)
  }

  lemma OrdersStay(a: Db, b: Db)
    ensures a.orders == b.orders ==> OrdersKept(a, b)
  {
  }

  /** The same for one change of a database that had nothing pending, whether it is published or not. */
  ghost predicate OrdersKeptOn(before: Db, v: World) {
    OrdersKept(before, v.working) && OrdersKept(before, v.committed) && OrdersKept(v.committed, v.working)
  }

  /** A creation: the row is pending, published or rolled back; the peer was added or not, and if it
      was added without the row being published, it counts as unfinished. */
  ghost predicate CreationStep(w: World, v: World, d: Device, maxDevices: nat) {
    && !w.open && w.working == w.committed && Admissible(w.working, d, maxDevices) && OrdersKeptOn(w.working, v)
    && (SameDevices(v.working, w.working) || Grown(v.working, w.working, d))
    && (SameDevices(v.committed, w.working) || (Grown(v.committed, w.working, d) && Grown(v.working, w.working, d)))
    && (!v.open ==> v.working == v.committed)
    && ((v.peers == w.peers && v.unfinished == w.unfinished)
        || (&& v.peers == w.peers + {d.peer}
            && (v.unfinished == w.unfinished + {d.peer}
                || (v.unfinished == w.unfinished && Grown(v.committed, w.working, d)))))
  }

  /** A remote removal leaves the database alone. */
  ghost predicate RemovalStep(w: World, v: World) {
    v == w.(peers := v.peers) && v.peers <= w.peers
  }

  /** The only changes of status: a live device is disabled, or any device is revoked. */
  ghost predicate Ended(newer: Db, older: Db, id: nat) {
    && id in older.devices && newer.nextDevice == older.nextDevice
    && exists s, t ::
         && newer.devices == older.devices[id := older.devices[id].(status := s, endedAt := t)]
         && (s == Revoked || (s == Disabled && Live(older.devices[id].status)))
  }

  /** A device is disabled or revoked locally; its peer must be gone already. */
  ghost predicate EndingStep(w: World, v: World, id: nat) {
    && !w.open && w.working == w.committed && id in w.working.devices && w.working.devices[id].peer !in w.peers
    && (SameDevices(v.working, w.working) || Ended(v.working, w.working, id))
    && (SameDevices(v.committed, w.committed) || SameDevices(v.committed, v.working))
    && (!v.open ==> v.working == v.committed) && OrdersKeptOn(w.working, v)
    && v.peers == w.peers && v.unfinished == w.unfinished
  }

  ghost predicate SameRows(a: Db, b: Db) {
    SameDevices(a, b) && a.orders == b.orders
  }

  /** What writes do that touch no device or order: they may publish what an earlier failed commit left pending. */
  ghost predicate Publishes(working: Db, committed: Db, next: Db, published: Db) {
    && SameRows(next, working)
    && (SameRows(published, committed) || SameRows(published, working))
  }

  /** Any other writes, outside every block or in one of their own, which may stay pending themselves. */
  ghost predicate PublishStep(w: World, v: World) {
    && Publishes(w.working, w.committed, v.working, v.committed)
    && (!v.open ==> v.working == v.committed)
    && v.peers == w.peers && v.unfinished == w.unfinished
  }

  /** A restart of the process forgets what is pending. */
  ghost predicate RestartStep(w: World, v: World) {
    v == w.(working := w.committed, open := false)
  }

  ghost predicate Step(w: World, v: World, maxDevices: nat) {
    || v == w
    || (exists d :: CreationStep(w, v, d, maxDevices))
    || RemovalStep(w, v)
    || (exists id :: EndingStep(w, v, id))
    || PublishStep(w, v)
    || RestartStep(w, v)
  }

  /** The new row's peer belonged to no row before. */
  lemma GrownKeeps(a: Db, b: Db, d: Device, peers: set<Peer>)
    requires UniquePeers(b) && Grown(a, b, d) && !HasPeer(b, d.peer) && Live(d.status) && NoDeadPeer(b, peers)
    ensures UniquePeers(a) && NoReturn(b, a) && NoDeadPeer(a, peers + {d.peer}) && HasLive(a, d.peer)
    ensures forall p :: HasLive(b, p) ==> HasLive(a, p)
  {
    assert a.devices[b.nextDevice] == d;
    assert forall id :: id in b.devices ==> id != b.nextDevice && a.devices[id] == b.devices[id];
    assert forall id :: id in b.devices ==> b.devices[id].peer != d.peer;
    forall p | HasLive(b, p) ensures HasLive(a, p) {
      var id :| id in b.devices && b.devices[id].peer == p && Live(b.devices[id].status);
      assert a.devices[id] == b.devices[id];
    }
  }

  /** The same with the row rolled back. */
  lemma SameDevicesKeep(a: Db, b: Db, d: Device, peers: set<Peer>)
    requires UniquePeers(b) && SameDevices(a, b) && !HasPeer(b, d.peer) && NoDeadPeer(b, peers)
    ensures UniquePeers(a) && NoReturn(b, a) && NoDeadPeer(a, peers + {d.peer})
    ensures forall p :: HasLive(b, p) <==> HasLive(a, p)
  {
  }

  lemma {:induction false} CreationKeepsSafe(w: World, v: World, d: Device, maxDevices: nat)
    requires Safe(w) && CreationStep(w, v, d, maxDevices)
    ensures Safe(v)
  {
    hide UniquePeers, NoReturn, NoDeadPeer, HasLive, HasPeer, LocalIps, ActiveDevices, Grown, SameDevices;
    var b := w.working;
    FewerPeers(v.working, w.peers, d.peer);
    FewerPeers(v.committed, w.peers, d.peer);
    NoReturnAlike(v.committed, v.working, b, d);
    if Grown(v.working, b, d) {
      GrownKeeps(v.working, b, d, w.peers);
    } else {
      SameDevicesKeep(v.working, b, d, w.peers);
    }
    if Grown(v.committed, b, d) {
      GrownKeeps(v.committed, b, d, w.peers);
    } else {
      SameDevicesKeep(v.committed, b, d, w.peers);
    }
  }

  lemma FewerPeers(db: Db, peers: set<Peer>, peer: Peer)
    ensures NoDeadPeer(db, peers + {peer}) ==> NoDeadPeer(db, peers)
  {
  }

  lemma NoReturnAlike(a: Db, c: Db, b: Db, d: Device)
    requires UniquePeers(b)
    requires SameDevices(a, b) || (Grown(a, b, d) && Grown(c, b, d))
    requires SameDevices(c, b) || Grown(c, b, d)
    ensures NoReturn(a, c)
  {
    assert forall id :: id in b.devices ==> id != b.nextDevice;
  }

  lemma EndedKeeps(a: Db, b: Db, id: nat, peers: set<Peer>)
    requires UniquePeers(b) && Ended(a, b, id) && NoDeadPeer(b, peers) && b.devices[id].peer !in peers
    ensures UniquePeers(a) && NoReturn(b, a) && NoDeadPeer(a, peers)
    ensures forall p :: p != b.devices[id].peer && HasLive(b, p) ==> HasLive(a, p)
  {
    assert a.devices.Keys == b.devices.Keys;
    assert forall i :: i in b.devices && i != id ==> a.devices[i] == b.devices[i];
    assert a.devices[id].peer == b.devices[id].peer;
    forall p | p != b.devices[id].peer && HasLive(b, p) ensures HasLive(a, p) {
      var i :| i in b.devices && b.devices[i].peer == p && Live(b.devices[i].status);
      assert a.devices[i] == b.devices[i];
    }
  }

  lemma AlikeKeeps(a: Db, b: Db, peers: set<Peer>)
    requires SameDevices(a, b)
    ensures UniquePeers(a) <==> UniquePeers(b)
    ensures NoDeadPeer(a, peers) <==> NoDeadPeer(b, peers)
    ensures NoReturn(a, b) && NoReturn(b, a)
    ensures forall p :: HasLive(a, p) <==> HasLive(b, p)
  {
  }

  lemma {:induction false} EndingKeepsSafe(w: World, v: World, id: nat)
    requires Safe(w) && EndingStep(w, v, id)
    ensures Safe(v)
  {
    hide UniquePeers, NoReturn, NoDeadPeer, HasLive, SameDevices, Ended;
    var b := w.working;
    if Ended(v.working, b, id) {
      EndedKeeps(v.working, b, id, w.peers);
    } else {
      AlikeKeeps(v.working, b, w.peers);
    }
    if SameDevices(v.committed, w.committed) {
      AlikeKeeps(v.committed, b, w.peers);
      NoReturnFrom(v.committed, b, v.working);
    } else {
      AlikeKeeps(v.committed, v.working, w.peers);
    }
  }

  lemma NoReturnFrom(a: Db, b: Db, c: Db)
    requires SameDevices(a, b) && NoReturn(b, c)
    ensures NoReturn(a, c)
  {
  }

  lemma {:induction false} PublishKeepsSafe(w: World, v: World)
    requires Safe(w) && PublishStep(w, v)
    ensures Safe(v)
  {
    forall p | p in v.peers ensures p in v.unfinished || HasLive(v.committed, p) {
      if p !in w.unfinished {
        var i :| i in w.committed.devices && w.committed.devices[i].peer == p && Live(w.committed.devices[i].status);
        assert i in v.committed.devices && v.committed.devices[i].peer == p;
      }
    }
  }

  lemma {:induction false} StepKeepsSafe(w: World, v: World, maxDevices: nat)
    requires Safe(w) && Step(w, v, maxDevices)
    ensures Safe(v)
  {
    if d :| CreationStep(w, v, d, maxDevices) {
      CreationKeepsSafe(w, v, d, maxDevices);
    } else if id :| EndingStep(w, v, id) {
      EndingKeepsSafe(w, v, id);
    } else if PublishStep(w, v) {
      PublishKeepsSafe(w, v);
    }
  }

  // ----- Addresses and quota -----

  /** A user's active devices, owner-shared ones aside. */
  function Limited(db: Db, user: nat): set<nat> {
    set id | id in ActiveDevices(db, user) && db.devices[id].mode != OwnerShared
  }

  ghost predicate WithinQuota(db: Db, maxDevices: nat) {
    forall user :: |Limited(db, user)| <= maxDevices
  }

  /** No two devices of a server share a reserved address, and no user has too many devices. */
  ghost predicate Ordered(w: World, maxDevices: nat) {
    && UniqueIps(w.working) && UniqueIps(w.committed)
    && WithinQuota(w.working, maxDevices) && WithinQuota(w.committed, maxDevices)
  }

  lemma SameDevicesOrdered(a: Db, b: Db, maxDevices: nat)
    requires SameDevices(a, b) && UniqueIps(b) && WithinQuota(b, maxDevices)
    ensures UniqueIps(a) && WithinQuota(a, maxDevices)
  {
    forall user ensures |Limited(a, user)| <= maxDevices {
      assert Limited(a, user) == Limited(b, user);
    }
  }

  lemma GrownUniqueIps(a: Db, b: Db, d: Device)
    requires UniquePeers(b) && Grown(a, b, d) && d.ip !in LocalIps(b, d.peer.server) && UniqueIps(b)
    ensures UniqueIps(a)
  {
    assert forall id :: id in b.devices ==> id != b.nextDevice && a.devices[id] == b.devices[id];
    assert forall id :: id in b.devices && b.devices[id].peer.server == d.peer.server && Reserves(b.devices[id].status)
                        ==> b.devices[id].ip in LocalIps(b, d.peer.server);
  }

  lemma GrownWithinQuota(a: Db, b: Db, d: Device, maxDevices: nat)
    requires UniquePeers(b) && Grown(a, b, d) && WithinQuota(b, maxDevices)
    requires d.mode == OwnerShared || |ActiveDevices(b, d.user)| < maxDevices
    ensures WithinQuota(a, maxDevices)
  {
    hide UniqueIps;
    assert b.nextDevice !in b.devices;
    forall user ensures |Limited(a, user)| <= maxDevices {
      if user == d.user && d.mode != OwnerShared {
        assert Limited(a, user) <= Limited(b, user) + {b.nextDevice};
        SizeOfSubset(Limited(a, user), Limited(b, user) + {b.nextDevice});
        SizeOfSubset(Limited(b, user), ActiveDevices(b, user));
      } else {
        assert Limited(a, user) == Limited(b, user);
      }
    }
  }

  lemma GrownOrdered(a: Db, b: Db, d: Device, maxDevices: nat)
    requires UniquePeers(b) && Grown(a, b, d) && Admissible(b, d, maxDevices)
    requires UniqueIps(b) && WithinQuota(b, maxDevices)
    ensures UniqueIps(a) && WithinQuota(a, maxDevices)
  {
    hide UniquePeers, UniqueIps, WithinQuota, Grown, LocalIps, ActiveDevices;
    GrownUniqueIps(a, b, d);
    GrownWithinQuota(a, b, d, maxDevices);
  }

  lemma EndedOrdered(a: Db, b: Db, id: nat, maxDevices: nat)
    requires Ended(a, b, id) && UniqueIps(b) && WithinQuota(b, maxDevices)
    ensures UniqueIps(a) && WithinQuota(a, maxDevices)
  {
    forall user ensures |Limited(a, user)| <= maxDevices {
      SizeOfSubset(Limited(a, user), Limited(b, user));
    }
  }

  lemma {:induction false} StepKeepsOrder(w: World, v: World, maxDevices: nat)
    requires Safe(w) && Ordered(w, maxDevices) && Step(w, v, maxDevices)
    ensures Ordered(v, maxDevices)
  {
    hide UniqueIps, WithinQuota;
    if d :| CreationStep(w, v, d, maxDevices) {
      OrderedBy(v.working, w.working, d, maxDevices);
      OrderedBy(v.committed, w.working, d, maxDevices);
    } else if id :| EndingStep(w, v, id) {
      if Ended(v.working, w.working, id) {
        EndedOrdered(v.working, w.working, id, maxDevices);
      } else {
        SameDevicesOrdered(v.working, w.working, maxDevices);
      }
      OrderedFrom(v.committed, w.committed, v.working, maxDevices);
    } else if PublishStep(w, v) {
      SameDevicesOrdered(v.working, w.working, maxDevices);
      OrderedFrom(v.committed, w.committed, w.working, maxDevices);
    }
  }

  lemma OrderedBy(a: Db, b: Db, d: Device, maxDevices: nat)
    requires UniquePeers(b) && Admissible(b, d, maxDevices) && (SameDevices(a, b) || Grown(a, b, d))
    requires UniqueIps(b) && WithinQuota(b, maxDevices)
    ensures UniqueIps(a) && WithinQuota(a, maxDevices)
  {
    hide UniqueIps, WithinQuota, UniquePeers, Admissible;
    if Grown(a, b, d) {
      GrownOrdered(a, b, d, maxDevices);
    } else {
      SameDevicesOrdered(a, b, maxDevices);
    }
  }

  lemma OrderedFrom(a: Db, b: Db, c: Db, maxDevices: nat)
    requires SameDevices(a, b) || SameDevices(a, c)
    requires UniqueIps(b) && WithinQuota(b, maxDevices) && UniqueIps(c) && WithinQuota(c, maxDevices)
    ensures UniqueIps(a) && WithinQuota(a, maxDevices)
  {
    hide UniqueIps, WithinQuota;
    if SameDevices(a, b) {
      SameDevicesOrdered(a, b, maxDevices);
    } else {
      SameDevicesOrdered(a, c, maxDevices);
    }
  }

  // ----- Whole runs -----

  ghost predicate IsRun(run: seq<World>, maxDevices: nat) {
    forall i :: 0 <= i < |run| - 1 ==> Step(run[i], run[i + 1], maxDevices)
  }

  /** From a safe and ordered start every state of every run is safe and ordered. */
  lemma {:induction false} RunIsSafe(run: seq<World>, maxDevices: nat, n: nat)
    requires n < |run| && IsRun(run, maxDevices) && Safe(run[0])
    ensures Safe(run[n])
    ensures Ordered(run[0], maxDevices) ==> Ordered(run[n], maxDevices)
  {
    hide Safe, Ordered, Step;
    if n > 0 {
      RunIsSafe(run, maxDevices, n - 1);
      assert Step(run[n - 1], run[n - 1 + 1], maxDevices);
      StepKeepsSafe(run[n - 1], run[n], maxDevices);
      if Ordered(run[0], maxDevices) {
        StepKeepsOrder(run[n - 1], run[n], maxDevices);
      }
    }
  }

  lemma StepKeepsOrders(w: World, v: World, maxDevices: nat)
    requires Safe(w) && Step(w, v, maxDevices)
    ensures OrdersKept(w.committed, v.committed)
  {
    hide NoDeadPeer, HasLive, Admissible, UniqueIps, NoReturn, UniquePeers, SameDevices, Grown, Ended;
  }

  lemma EndedNoReturn(a: Db, b: Db, id: nat)
    requires Ended(a, b, id)
    ensures NoReturn(b, a)
  {
  }

  lemma StepNeverReturns(w: World, v: World, maxDevices: nat)
    requires Safe(w) && Step(w, v, maxDevices)
    ensures NoReturn(w.committed, v.committed)
  {
    hide NoDeadPeer, HasLive, Admissible, UniqueIps;
    if id :| EndingStep(w, v, id) {
      if Ended(v.working, w.working, id) {
        EndedNoReturn(v.working, w.working, id);
      }
    }
  }

  /** Along a run no durable row is lost, changes its peer or address, or leaves a final status. */
  lemma {:induction false} RunNeverReturns(run: seq<World>, maxDevices: nat, m: nat, n: nat)
    requires m <= n < |run| && IsRun(run, maxDevices) && Safe(run[0])
    ensures NoReturn(run[m].committed, run[n].committed) && OrdersKept(run[m].committed, run[n].committed)
  {
    hide Safe, Step;
    if m < n {
      RunNeverReturns(run, maxDevices, m, n - 1);
      RunIsSafe(run, maxDevices, n - 1);
      assert Step(run[n - 1], run[n - 1 + 1], maxDevices);
      StepNeverReturns(run[n - 1], run[n], maxDevices);
      StepKeepsOrders(run[n - 1], run[n], maxDevices);
    }
  }

  /** A database without devices and servers without peers are a safe and ordered start. */
  lemma {:induction false} EmptyStart(db: Db, maxDevices: nat)
    requires db.devices == map[]
    ensures var w := World(db, db, false, {}, {}); Safe(w) && Ordered(w, maxDevices)
  {
    forall user ensures Limited(db, user) == {} {
    }
  }

  // ----- Several steps -----

  /** One state leads to another by some run. */
  ghost predicate Leads(w: World, v: World, maxDevices: nat) {
    exists run: seq<World> :: Connects(run, w, v, maxDevices)
  }

  ghost predicate Connects(run: seq<World>, w: World, v: World, maxDevices: nat) {
    run != [] && run[0] == w && run[|run| - 1] == v && IsRun(run, maxDevices)
  }

  lemma StepLeads(w: World, v: World, maxDevices: nat)
    requires Step(w, v, maxDevices)
    ensures Leads(w, v, maxDevices)
  {
    hide Step;
    assert Connects([w, v], w, v, maxDevices);
  }

  lemma LeadsOn(u: World, w: World, v: World, maxDevices: nat)
    requires Leads(u, w, maxDevices) && Leads(w, v, maxDevices)
    ensures Leads(u, v, maxDevices)
  {
    hide Step;
    var a :| Connects(a, u, w, maxDevices);
    var b :| Connects(b, w, v, maxDevices);
    var run := a + b[1..];
    forall i | 0 <= i < |run| - 1 ensures Step(run[i], run[i + 1], maxDevices) {
      if i < |a| - 1 {
        assert Step(a[i], a[i + 1], maxDevices);
      } else {
        var j := i - (|a| - 1);
        assert run[i] == b[j] && run[i + 1] == b[j + 1];
        assert Step(b[j], b[j + 1], maxDevices);
      }
    }
    assert Connects(run, u, v, maxDevices);
  }

  lemma LeadsSafely(w: World, v: World, maxDevices: nat)
    requires Leads(w, v, maxDevices) && Safe(w)
    ensures Safe(v) && NoReturn(w.committed, v.committed) && OrdersKept(w.committed, v.committed)
    ensures Ordered(w, maxDevices) ==> Ordered(v, maxDevices)
  {
    hide Step, Safe, Ordered, NoReturn, OrdersKept;
    var run :| Connects(run, w, v, maxDevices);
    RunIsSafe(run, maxDevices, |run| - 1);
    RunNeverReturns(run, maxDevices, 0, |run| - 1);
  }

  /** A run under a smaller quota is one under a larger quota. */
  lemma LeadsUnderLargerQuota(w: World, v: World, m: nat, n: nat)
    requires Leads(w, v, m) && m <= n
    ensures Leads(w, v, n)
  {
    var run :| Connects(run, w, v, m);
    forall i | 0 <= i < |run| - 1 ensures Step(run[i], run[i + 1], n) {
      StepUnderLargerQuota(run[i], run[i + 1], m, n);
    }
    assert Connects(run, w, v, n);
  }

  lemma StepUnderLargerQuota(w: World, v: World, m: nat, n: nat)
    requires Step(w, v, m) && m <= n
    ensures Step(w, v, n)
  {
    if d :| CreationStep(w, v, d, m) {
      assert CreationStep(w, v, d, n);
    }
  }
}
