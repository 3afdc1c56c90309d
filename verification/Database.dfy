/** The rows the services share, and what one SQL statement does to them. */
module Database {
  import opened Basics
  import opened Allocation

  datatype Status = Pending | Active | Disabled | Expired | Revoked | Failed

  /** Devices of these statuses are expected to have a remote peer. */
  predicate Live(s: Status) {
    s == Pending || s == Active
  }

  /** Devices of these statuses keep their address, by the partial unique index. */
  predicate Reserves(s: Status) {
    s == Pending || s == Active || s == Disabled
  }

  datatype Mode = DedicatedDevice | OwnerShared | RecipientUnassigned

  /** A peer of one server, named by its public key. */
  datatype Peer = Peer(server: nat, key: nat)

  datatype Device = Device(user: nat, peer: Peer, ip: int, mode: Mode, status: Status, endedAt: Option<int>)

  datatype User = User(active: bool, isAdmin: bool)

  datatype Server = Server(network: Network, address: Option<int>)

  datatype OrderStatus = Draft | PaymentPending | ManualReview | Approved | Rejected | Fulfilled

  /** The plan of an order, if any, is named by its id. */
  datatype Order = Order(user: nat, plan: Option<nat>, status: OrderStatus, device: Option<nat>)

  datatype Passport = Passport(localDevice: Option<nat>, owner: nat, platform: nat, schema: nat, endedAt: Option<int>)

  datatype Ticket = Ticket(
    user: nat, tokenHash: nat, platform: nat, schema: nat, expiresAt: int, endedAt: Option<int>,
    claimedAt: Option<int>, claimedPassport: Option<nat>, claimKey: Option<nat>)

  datatype Stage = Issued | Claimed | ConfigReady | Delivered | AcceptanceVerified

  datatype Event = Event(ticket: Option<nat>, passport: Option<nat>, stage: Stage, completed: bool, at: int)

  /** A one-time delivery link for a device. */
  datatype Link = Link(device: nat, usedAt: Option<int>)

  datatype Action = ApprovalRow | CreationRow | PartialFailureRow | DisableRow | RevokeRow | OtherRow

  datatype Audit = Audit(action: Action, user: Option<nat>, device: Option<nat>)

  /** One slot of an issuance manifest; labels stand for their canonical keys. */
  datatype Slot = Slot(item: nat, recipient: nat, mode: Mode, sequence: nat, device: nat, platform: nat, expiry: nat)

  /** What the fingerprint of a request pins down. */
  datatype IssuanceRequest = IssuanceRequest(server: nat, slots: seq<Slot>)

  datatype ReceiptKey = ReceiptKey(request: nat, index: nat)

  datatype ReceiptStatus = Started | Completed | PartlyFailed

  datatype ErrorCode = NoError | QuotaError | OtherError

  /** What the fingerprint of an item pins down, and what became of it. */
  datatype Receipt = Receipt(
    server: nat, slot: Slot, user: nat, status: ReceiptStatus, device: Option<nat>, passport: Option<nat>,
    error: ErrorCode)

  datatype Db = Db(
    users: map<nat, User>, nextUser: nat,
    labels: map<nat, nat>,  // the user that carries an operator label
    servers: map<nat, Server>,
    plans: map<nat, Option<nat>>,  // a plan's device limit, if it has one
    orders: map<nat, Order>,
    devices: map<nat, Device>, nextDevice: nat,
    passports: map<nat, Passport>, tickets: map<nat, Ticket>, events: seq<Event>,
    links: map<nat, Link>, audits: seq<Audit>,
    requests: map<nat, IssuanceRequest>, receipts: map<ReceiptKey, Receipt>)

  // ----- Queries -----

  function ActiveDevices(db: Db, user: nat): set<nat> {
    set id | id in db.devices && db.devices[id].user == user && db.devices[id].status == Active
  }

  function LocalIps(db: Db, server: nat): set<int> {
    set id | id in db.devices && db.devices[id].peer.server == server && Reserves(db.devices[id].status)
           :: db.devices[id].ip
  }

  predicate HasPeer(db: Db, peer: Peer) {
    exists id :: id in db.devices && db.devices[id].peer == peer
  }

  /** The number of device rows ever inserted, durable or pending. */
  function RowsEver(working: Db, committed: Db): nat {
    if working.nextDevice <= committed.nextDevice then committed.nextDevice else working.nextDevice
  }

  // ----- Constraints of the schema -----

  /** UNIQUE (server_id, peer_public_key) and row ids below the AUTOINCREMENT counter. */
  ghost predicate UniquePeers(db: Db) {
    && (forall id :: id in db.devices ==> id < db.nextDevice)
    && (forall i, j :: i in db.devices && j in db.devices && db.devices[i].peer == db.devices[j].peer ==> i == j)
  }

  /** The partial unique index over reserved addresses. */
  ghost predicate UniqueIps(db: Db) {
    forall i, j ::
      && i in db.devices && j in db.devices && Reserves(db.devices[i].status) && Reserves(db.devices[j].status)
      && db.devices[i].peer.server == db.devices[j].peer.server && db.devices[i].ip == db.devices[j].ip
      ==> i == j
  }

  // ----- Statements -----

  function WithDevice(db: Db, d: Device): Db {
    db.(devices := db.devices[db.nextDevice := d], nextDevice := db.nextDevice + 1)
  }

  function WithAudit(db: Db, action: Action, user: Option<nat>, device: Option<nat>): Db {
    db.(audits := db.audits + [Audit(action, user, device)])
  }

  function Coalesce<T>(old_: Option<T>, new_: T): Option<T> {
    if old_.Some? then old_ else Some(new_)
  }

  /** UPDATE ... SET status = 'disabled' WHERE status IN ('pending', 'active') */
  function WithDisabled(db: Db, id: nat, at: int): Db {
    if id in db.devices && Live(db.devices[id].status)
    then db.(devices := db.devices[id := db.devices[id].(status := Disabled, endedAt := Some(at))])
    else db
  }

  predicate IsPassportOf(db: Db, passport: nat, device: nat) {
    passport in db.passports && db.passports[passport].localDevice == Some(device)
  }

  /** All updates of one cascade: tickets claimed by the device's passport, the passport,
      unused links, orders, and the device itself. */
  function Cascaded(db: Db, id: nat, at: int): Db
    requires id in db.devices
  {
    var d := db.devices[id];
    db.(tickets := map t | t in db.tickets ::
                     var x := db.tickets[t];
                     if x.endedAt.None? && x.claimedPassport.Some? && IsPassportOf(db, x.claimedPassport.value, id)
                     then x.(endedAt := Some(at)) else x,
        passports := map p | p in db.passports ::
                       var x := db.passports[p];
                       if IsPassportOf(db, p, id) then x.(endedAt := Coalesce(x.endedAt, at)) else x,
        links := map l | l in db.links ::
                   var x := db.links[l];
                   if x.device == id && x.usedAt.None? then x.(usedAt := Some(at)) else x,
        orders := map o | o in db.orders ::
                    var x := db.orders[o];
                    if x.device == Some(id) then x.(device := None) else x,
        devices := if d.status == Revoked then db.devices
                   else db.devices[id := d.(status := Revoked, endedAt := Coalesce(d.endedAt, at))])
  }

  /** After a cascade nothing that belongs to the device grants access any more. */
  ghost predicate Closed(db: Db, id: nat) {
    && id in db.devices && db.devices[id].status == Revoked
    && (forall l :: l in db.links && db.links[l].device == id ==> db.links[l].usedAt.Some?)
    && (forall o :: o in db.orders ==> db.orders[o].device != Some(id))
    && (forall p :: IsPassportOf(db, p, id) ==> db.passports[p].endedAt.Some?)
    && (forall t :: t in db.tickets && db.tickets[t].claimedPassport.Some?
                    && IsPassportOf(db, db.tickets[t].claimedPassport.value, id)
                    ==> db.tickets[t].endedAt.Some?)
  }

  lemma {:induction false} CascadeCloses(db: Db, id: nat, at: int)
    requires id in db.devices
    ensures Closed(Cascaded(db, id, at), id)
  {
  }

  /** A cascade over a closed device changes nothing, whatever its time: every first time stays. */
  lemma {:induction false} CascadeOfClosed(db: Db, id: nat, at: int)
    requires Closed(db, id)
    ensures Cascaded(db, id, at) == db
  {
    var c := Cascaded(db, id, at);
    assert c.tickets == db.tickets;
    assert c.passports == db.passports;
    assert c.links == db.links;
    assert c.orders == db.orders;
  }

  // ----- What a cascade changes, and what it leaves alone -----

  /** A time that was set stays; one that was not is the given one. */
  predicate EndsAt(before: Option<int>, after: Option<int>, at: int) {
    after == if before.Some? then before else Some(at)
  }

  ghost predicate TicketsEnded(a: Db, b: Db, ids: set<nat>, at: int) {
    && b.tickets.Keys == a.tickets.Keys
    && forall t :: t in a.tickets ==>
         && var x, y := a.tickets[t], b.tickets[t];
         && y == x.(endedAt := y.endedAt)
         && (if x.claimedPassport.Some? && x.claimedPassport.value in a.passports
                && a.passports[x.claimedPassport.value].localDevice.Some?
                && a.passports[x.claimedPassport.value].localDevice.value in ids
             then EndsAt(x.endedAt, y.endedAt, at) else y == x)
  }

  ghost predicate PassportsEnded(a: Db, b: Db, ids: set<nat>, at: int) {
    && b.passports.Keys == a.passports.Keys
    && forall p :: p in a.passports ==>
         && var x, y := a.passports[p], b.passports[p];
         && y == x.(endedAt := y.endedAt)
         && (if x.localDevice.Some? && x.localDevice.value in ids then EndsAt(x.endedAt, y.endedAt, at) else y == x)
  }

  ghost predicate LinksUsed(a: Db, b: Db, ids: set<nat>, at: int) {
    && b.links.Keys == a.links.Keys
    && forall l :: l in a.links ==>
         && var x, y := a.links[l], b.links[l];
         && y == x.(usedAt := y.usedAt)
         && (if x.device in ids then EndsAt(x.usedAt, y.usedAt, at) else y == x)
  }

  ghost predicate OrdersUnlinked(a: Db, b: Db, ids: set<nat>) {
    && b.orders.Keys == a.orders.Keys
    && forall o :: o in a.orders ==>
         && var x, y := a.orders[o], b.orders[o];
         && y == if x.device.Some? && x.device.value in ids then x.(device := None) else x
  }

  ghost predicate DevicesRevoked(a: Db, b: Db, ids: set<nat>, at: int) {
    && b.devices.Keys == a.devices.Keys
    && forall d :: d in a.devices ==>
         && var x, y := a.devices[d], b.devices[d];
         && y == x.(status := y.status, endedAt := y.endedAt)
         && (if d in ids && x.status != Revoked then y.status == Revoked && EndsAt(x.endedAt, y.endedAt, at)
             else y == x)
  }

  /** Exactly what belongs to the devices is closed, each thing at its first time or now; all else is as it was. */
  ghost predicate ClosedOnly(a: Db, b: Db, ids: set<nat>, at: int) {
    && TicketsEnded(a, b, ids, at) && PassportsEnded(a, b, ids, at) && LinksUsed(a, b, ids, at)
    && OrdersUnlinked(a, b, ids) && DevicesRevoked(a, b, ids, at)
    && b == a.(tickets := b.tickets, passports := b.passports, links := b.links, orders := b.orders,
               devices := b.devices)
  }

  /** A cascade closes exactly what belongs to its device. */
  lemma {:induction false} CascadeClosesOnly(db: Db, id: nat, at: int)
    requires id in db.devices
    ensures ClosedOnly(db, Cascaded(db, id, at), {id}, at)
  {
    hide TicketsEnded, PassportsEnded, LinksUsed, OrdersUnlinked, DevicesRevoked;
    CascadeEndsPapers(db, id, at);
    CascadeEndsOthers(db, id, at);
  }

  lemma CascadeEndsPapers(db: Db, id: nat, at: int)
    requires id in db.devices
    ensures TicketsEnded(db, Cascaded(db, id, at), {id}, at) && PassportsEnded(db, Cascaded(db, id, at), {id}, at)
  {
  }

  lemma CascadeEndsOthers(db: Db, id: nat, at: int)
    requires id in db.devices
    ensures var c := Cascaded(db, id, at);
            LinksUsed(db, c, {id}, at) && OrdersUnlinked(db, c, {id}) && DevicesRevoked(db, c, {id}, at)
  {
    assert Cascaded(db, id, at).devices.Keys == db.devices.Keys;
  }

  lemma TicketsEndedNext(a: Db, b: Db, c: Db, ids: set<nat>, id: nat, at: int)
    requires TicketsEnded(a, b, ids, at) && PassportsEnded(a, b, ids, at) && TicketsEnded(b, c, {id}, at)
    ensures TicketsEnded(a, c, ids + {id}, at)
  {
  }

  lemma PassportsEndedNext(a: Db, b: Db, c: Db, ids: set<nat>, id: nat, at: int)
    requires PassportsEnded(a, b, ids, at) && PassportsEnded(b, c, {id}, at)
    ensures PassportsEnded(a, c, ids + {id}, at)
  {
  }

  lemma OthersClosedNext(a: Db, b: Db, c: Db, ids: set<nat>, id: nat, at: int)
    requires LinksUsed(a, b, ids, at) && OrdersUnlinked(a, b, ids) && DevicesRevoked(a, b, ids, at)
    requires LinksUsed(b, c, {id}, at) && OrdersUnlinked(b, c, {id}) && DevicesRevoked(b, c, {id}, at)
    ensures LinksUsed(a, c, ids + {id}, at) && OrdersUnlinked(a, c, ids + {id}) && DevicesRevoked(a, c, ids + {id}, at)
  {
  }

  /** One cascade after others closes exactly what belongs to any of the devices. */
  lemma {:induction false} ClosedOnlyNext(a: Db, b: Db, c: Db, ids: set<nat>, id: nat, at: int)
    requires ClosedOnly(a, b, ids, at) && ClosedOnly(b, c, {id}, at)
    ensures ClosedOnly(a, c, ids + {id}, at)
  {
    hide TicketsEnded, PassportsEnded, LinksUsed, OrdersUnlinked, DevicesRevoked;
    TicketsEndedNext(a, b, c, ids, id, at);
    PassportsEndedNext(a, b, c, ids, id, at);
    OthersClosedNext(a, b, c, ids, id, at);
  }

  /** The same with the audit rows that were written beside it. */
  ghost predicate ClosedAndAudited(a: Db, b: Db, ids: set<nat>, at: int, rows: seq<Audit>) {
    ClosedOnly(a, b.(audits := a.audits), ids, at) && b.audits == a.audits + rows
  }

  /** One row became disabled at the given time, and nothing else changed. */
  ghost predicate DisabledOnly(a: Db, b: Db, id: nat, at: int) {
    && id in a.devices && b.devices.Keys == a.devices.Keys && b == a.(devices := b.devices)
    && (forall d :: d in a.devices && d != id ==> b.devices[d] == a.devices[d])
    && b.devices[id] == if a.devices[id].status in {Pending, Active}
                        then a.devices[id].(status := Disabled, endedAt := Some(at)) else a.devices[id]
  }

  lemma NothingClosed(db: Db, at: int)
    ensures ClosedOnly(db, db, {}, at)
  {
  }
}
