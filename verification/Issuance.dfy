/** Issuing the slots of a manifest one by one. A receipt row is made durable before each creation, so a
    creation is never asked for twice, however often the manifest is replayed. */
module Issuance {
  import opened Allocation
  import opened Basics
  import opened Database
  import opened RemoteFirst
  import opened Transactions
  import opened FileNames
  import Access

  /** Where the process dies: with the receipt started, after the peer was added and before the row is durable, or
      after the creation. */
  datatype Crash = NoCrash | BeforeCreation | DuringCreation | AfterCreation

  /** What happens around one slot. */
  datatype SlotEnv = SlotEnv(
    creation: Access.Env, recipientFault: Fault, receiptFault: Fault, crash: Crash,
    attachmentFails: bool, beginFails: bool, auditFails: bool, completeFails: bool, commitFails: bool, failFault: Fault)
  {
    predicate Dies() {
      crash == DuringCreation || crash == AfterCreation
    }
  }

  /** The creations that were asked for, over all runs. */
  class CallLog {
    ghost var calls: multiset<ReceiptKey>

    constructor ()
      ensures calls == multiset{}
    {
      calls := multiset{};
    }
  }

  // ----- Rows -----

  function WithRecipient(db: Db, recipient: nat): Db {
    db.(users := db.users[db.nextUser := User(true, false)], labels := db.labels[recipient := db.nextUser],
        nextUser := db.nextUser + 1)
  }

  function WithReceipt(db: Db, key: ReceiptKey, r: Receipt): Db {
    db.(receipts := db.receipts[key := r])
  }

  function Ended(
      r: Receipt, status: ReceiptStatus, device: Option<nat>, passport: Option<nat>, error: ErrorCode): (e: Receipt)
    ensures e.server == r.server && e.slot == r.slot && e.user == r.user && e.status == status && e.error == error
  {
    r.(status := status, device := device, passport := passport, error := error)
  }

  /** UPDATE ... WHERE status = 'started' */
  function WithOutcome(
      db: Db, key: ReceiptKey, status: ReceiptStatus, device: Option<nat>, passport: Option<nat>, error: ErrorCode): Db
  {
    if key in db.receipts && db.receipts[key].status == Started
    then WithReceipt(db, key, Ended(db.receipts[key], status, device, passport, error))
    else db
  }

  function StartedReceipt(server: nat, slot: Slot, user: nat): Receipt {
    Receipt(server, slot, user, Started, None, None, NoError)
  }

  // ----- The invariant -----

  /** Receipts belong to requests, and all before a receipt are completed. */
  ghost predicate Ledger(db: Db) {
    forall key :: key in db.receipts ==>
      && key.request in db.requests && key.index < |db.requests[key.request].slots|
      && db.receipts[key].server == db.requests[key.request].server
      && db.receipts[key].slot == db.requests[key.request].slots[key.index]
      && forall j :: 0 <= j < key.index ==>
           && ReceiptKey(key.request, j) in db.receipts && db.receipts[ReceiptKey(key.request, j)].status == Completed
  }

  /** Requests never change; receipts keep their terms, and a completed or failed one never changes. */
  ghost predicate ReceiptsKept(older: Db, newer: Db) {
    && (forall id :: id in older.requests ==> id in newer.requests && newer.requests[id] == older.requests[id])
    && (forall key :: key in older.receipts ==>
          && key in newer.receipts
          && newer.receipts[key].server == older.receipts[key].server
             && newer.receipts[key].slot == older.receipts[key].slot
          && (older.receipts[key].status != Started ==> newer.receipts[key] == older.receipts[key]))
  }

  /** Both views of the database are in order and the pending one extends the durable one. */
  ghost predicate Book(working: Db, committed: Db) {
    Ledger(working) && Ledger(committed) && ReceiptsKept(committed, working)
  }

  /** No creation was asked for twice, and each that was has a durable receipt. */
  ghost predicate AtMostOnce(working: Db, committed: Db, calls: multiset<ReceiptKey>) {
    && Book(working, committed)
    && (forall key :: calls[key] <= 1)
    && (forall key :: key in calls ==> key in committed.receipts)
  }

  ghost predicate SameReceipts(a: Db, b: Db) {
    a.requests == b.requests && a.receipts == b.receipts
  }

  lemma KeptOn(a: Db, b: Db, c: Db)
    requires ReceiptsKept(a, b) && ReceiptsKept(b, c)
    ensures ReceiptsKept(a, c)
  {
  }

  /** One durable or pending write that keeps the receipts in order keeps the book. */
  lemma BookKept(working: Db, committed: Db, next: Db, published: Db)
    requires Book(working, committed) && Ledger(next) && ReceiptsKept(working, next)
    requires published == committed || published == next
    ensures Book(next, published) && ReceiptsKept(committed, published)
  {
    hide Ledger, ReceiptsKept;
    KeptOn(committed, working, next);
    Unchanged(committed);
    Unchanged(next);
  }

  lemma Unchanged(db: Db)
    ensures ReceiptsKept(db, db)
  {
  }

  lemma SameReceiptsKept(a: Db, b: Db)
    requires SameReceipts(a, b)
    ensures (Ledger(a) <==> Ledger(b)) && ReceiptsKept(a, b)
  {
  }

  /** Where a new receipt may go. */
  ghost predicate MayStart(db: Db, key: ReceiptKey, server: nat, slot: Slot) {
    && key !in db.receipts && key.request in db.requests
    && key.index < |db.requests[key.request].slots|
    && db.requests[key.request].server == server && db.requests[key.request].slots[key.index] == slot
    && (forall j :: 0 <= j < key.index
          ==> ReceiptKey(key.request, j) in db.receipts && db.receipts[ReceiptKey(key.request, j)].status == Completed)
  }

  lemma {:induction false} StartKeepsLedger(db: Db, key: ReceiptKey, server: nat, slot: Slot, user: nat)
    requires Ledger(db) && MayStart(db, key, server, slot)
    ensures Ledger(WithReceipt(db, key, StartedReceipt(server, slot, user)))
    ensures ReceiptsKept(db, WithReceipt(db, key, StartedReceipt(server, slot, user)))
  {
    var next := WithReceipt(db, key, StartedReceipt(server, slot, user));
    forall k | k in next.receipts ensures
      && k.request in next.requests && k.index < |next.requests[k.request].slots|
      && next.receipts[k].server == next.requests[k.request].server
      && next.receipts[k].slot == next.requests[k.request].slots[k.index]
      && forall j :: 0 <= j < k.index ==>
           && ReceiptKey(k.request, j) in next.receipts && next.receipts[ReceiptKey(k.request, j)].status == Completed
    {
      forall j | 0 <= j < k.index ensures
        && ReceiptKey(k.request, j) in next.receipts && next.receipts[ReceiptKey(k.request, j)].status == Completed
      {
        if k != key {
          assert ReceiptKey(k.request, j) in db.receipts;
        }
      }
    }
  }

  /** Ending the last started receipt, either way, keeps the ledger. */
  lemma {:induction false} OutcomeKeepsLedger(
      db: Db, key: ReceiptKey, status: ReceiptStatus, device: Option<nat>, passport: Option<nat>, error: ErrorCode)
    requires Ledger(db)
    ensures Ledger(WithOutcome(db, key, status, device, passport, error))
    ensures ReceiptsKept(db, WithOutcome(db, key, status, device, passport, error))
  {
    hide Ledger, ReceiptsKept;
    Unchanged(db);
    if key in db.receipts && db.receipts[key].status == Started {
      EndKeepsLedger(db, WithOutcome(db, key, status, device, passport, error), key);
    }
  }

  lemma EndKeepsLedger(db: Db, next: Db, key: ReceiptKey)
    requires Ledger(db) && key in db.receipts && db.receipts[key].status == Started
    requires next.requests == db.requests && key in next.receipts
             && next.receipts == db.receipts[key := next.receipts[key]]
    requires next.receipts[key].server == db.receipts[key].server && next.receipts[key].slot == db.receipts[key].slot
    ensures Ledger(next) && ReceiptsKept(db, next)
  {
    forall k, j: nat | k in next.receipts && j < k.index ensures
      && ReceiptKey(k.request, j) in next.receipts && next.receipts[ReceiptKey(k.request, j)].status == Completed
    {
      assert db.receipts[ReceiptKey(k.request, j)].status == Completed;
    }
  }

  lemma OnlyCreatesSameReceipts(a: Db, b: Db)
    requires Access.OnlyCreates(a, b)
    ensures SameReceipts(a, b) && a.labels == b.labels && a.users == b.users
    ensures a.nextUser == b.nextUser && a.servers == b.servers
  {
  }

  /** The database just before the creation for a slot is asked for. */
  function StartedDb(db: Db, key: ReceiptKey, server: nat, slot: Slot): Db {
    WithReceipt(if slot.recipient in db.labels then db else WithRecipient(db, slot.recipient),
                key, StartedReceipt(server, slot, OwnerOf(db, slot.recipient)))
  }

  predicate Starts(db: Db, slot: Slot, env: SlotEnv) {
    env.receiptFault == NoFault && (slot.recipient in db.labels || env.recipientFault == NoFault)
  }

  /** The creation succeeds. */
  ghost predicate Creates(db: Db, user: nat, server: nat, slot: Slot, maxDevices: nat, hasApplier: bool, env: SlotEnv) {
    var q := CreationRequest(user, server, slot);
    && !env.creation.fails(Access.AtBegin) && Access.GetsToCreation(db, q, maxDevices, hasApplier, env.creation)
    && Access.CleanUpToCommit(db, q, env.creation) && !env.creation.fails(Access.AtCommit)
  }

  /** The creation succeeds, and nothing fails before the commit of the receipt's completion. */
  ghost predicate GetsToCompletion(
      db: Db, user: nat, server: nat, slot: Slot, maxDevices: nat, hasApplier: bool, env: SlotEnv)
  {
    && Creates(db, user, server, slot, maxDevices, hasApplier, env) && !env.Dies()
    && !env.attachmentFails && !env.beginFails && !env.auditFails && !env.completeFails
  }

  /** The creation adds a peer without making its row durable as a success: it ends in a partial failure, or the
      process dies. */
  ghost predicate LeavesPeer(
      db: Db, user: nat, server: nat, slot: Slot, maxDevices: nat, hasApplier: bool, env: SlotEnv)
  {
    var q := CreationRequest(user, server, slot);
    && !env.creation.fails(Access.AtBegin) && Access.GetsToCreation(db, q, maxDevices, hasApplier, env.creation)
    && (env.crash == DuringCreation
        || !(Access.CleanUpToCommit(db, q, env.creation) && !env.creation.fails(Access.AtCommit)))
  }

  /** The peer that a started slot leaves unfinished. */
  ghost function LeftStarted(
      db: Db, user: nat, server: nat, slot: Slot, maxDevices: nat, hasApplier: bool, env: SlotEnv): set<Peer>
  {
    if LeavesPeer(db, user, server, slot, maxDevices, hasApplier, env) then {Peer(server, env.creation.key)} else {}
  }

  function PassportOf(slot: Slot, env: SlotEnv): Option<nat> {
    if slot.mode == RecipientUnassigned then None else Some(env.creation.passport)
  }

  function WithCompletion(db: Db, key: ReceiptKey, user: nat, device: nat, passport: Option<nat>): Db {
    WithOutcome(WithAudit(db, OtherRow, Some(user), Some(device)), key, Completed, Some(device), passport, NoError)
  }

  /** The database after a slot that succeeded, from the one just before its creation. */
  function AfterSlot(db: Db, key: ReceiptKey, user: nat, server: nat, slot: Slot, env: SlotEnv): Db {
    var q := CreationRequest(user, server, slot);
    if Access.ChosenIp(db, server, env.creation, 0).None? then db
    else WithCompletion(Access.Created(db, q, env.creation), key, user, db.nextDevice, PassportOf(slot, env))
  }

  /** How issuing a slot ends: with a completed receipt, with one that is completed although its commit is said to
      have failed, with a failed one, or with an exception or a crash. */
  datatype Issuing = Finishes | Strands | Fails | Escapes

  ghost function IssuingOf(
      db: Db, key: ReceiptKey, server: nat, slot: Slot, maxDevices: nat, hasApplier: bool, env: SlotEnv): Issuing
  {
    var gets := GetsToCompletion(StartedDb(db, key, server, slot), OwnerOf(db, slot.recipient), server, slot,
                                 maxDevices, hasApplier, env);
    if !Starts(db, slot, env) || env.crash != NoCrash then Escapes
    else if gets && !env.commitFails then Finishes
    else if env.failFault != NoFault then Escapes
    else if gets then Strands
    else Fails
  }

  /** Something outside the creation keeps the slot from ending with a receipt. */
  predicate Disturbed(env: SlotEnv) {
    || env.receiptFault != NoFault || env.recipientFault != NoFault || env.failFault != NoFault
    || env.crash != NoCrash
  }

  /** The peer that issuing a slot leaves unfinished. */
  ghost function LeftOf(
      db: Db, key: ReceiptKey, server: nat, slot: Slot, maxDevices: nat, hasApplier: bool, env: SlotEnv): set<Peer>
  {
    if !Starts(db, slot, env) || env.crash == BeforeCreation then {}
    else LeftStarted(
           StartedDb(db, key, server, slot), OwnerOf(db, slot.recipient), server, slot, maxDevices, hasApplier, env)
  }

  lemma FinishingLeavesNothing(
      db: Db, key: ReceiptKey, server: nat, slot: Slot, maxDevices: nat, hasApplier: bool, env: SlotEnv)
    ensures IssuingOf(db, key, server, slot, maxDevices, hasApplier, env) in {Finishes, Strands}
            ==> LeftOf(db, key, server, slot, maxDevices, hasApplier, env) == {}
  {
    hide StartedDb, OwnerOf, Access.GetsToCreation, Access.CleanUpToCommit;
  }

  // ----- People and receipts -----

  /** One canonical identity per recipient: labels name different existing users, and only existing users
      have devices. */
  ghost predicate PeopleOk(db: Db) {
    LabelsOk(db) && forall id :: id in db.devices ==> db.devices[id].user < db.nextUser && id < db.nextDevice
  }

  ghost predicate LabelsOk(db: Db) {
    && (forall x :: x in db.labels ==> db.labels[x] < db.nextUser)
    && (forall x, y :: x in db.labels && y in db.labels && db.labels[x] == db.labels[y] ==> x == y)
  }

  /** A slot as manifests are expanded to: a numbered unassigned one, or a dedicated one. */
  predicate IsNumberedSlot(s: Slot) {
    s.mode == DedicatedDevice || (s.mode == RecipientUnassigned && 1 <= s.sequence <= 100)
  }

  /** The receipt's recipient has what its slot says: a device of its own on the server in the slot's mode and, exactly
      for a dedicated slot, a passport of that device and owner for the slot's platform that is logged as ready. */
  ghost predicate Served(db: Db, r: Receipt) {
    && r.device.Some? && r.device.value in db.devices
    && var d := db.devices[r.device.value];
    && d.user == r.user && d.peer.server == r.server && d.mode == r.slot.mode
    && (r.passport.Some? <==> r.slot.mode == DedicatedDevice)
    && (r.passport.Some? ==>
          && r.passport.value in db.passports
          && var p := db.passports[r.passport.value];
          && p.localDevice == r.device && p.owner == r.user && p.platform == r.slot.platform
          && exists i :: 0 <= i < |db.events| && db.events[i].passport == r.passport
                         && db.events[i].stage == ConfigReady && db.events[i].completed)
  }

  /** A receipt belongs to its slot's recipient, and a completed one was served. */
  ghost predicate ReceiptOk(db: Db, r: Receipt) {
    && r.slot.recipient in db.labels && db.labels[r.slot.recipient] == r.user
    && IsNumberedSlot(r.slot) && (r.status == Completed ==> Served(db, r))
  }

  /** No two completed receipts share a device. */
  ghost predicate OwnDevices(db: Db) {
    forall j, k :: j in db.receipts && k in db.receipts && j != k
                   && db.receipts[j].status == Completed && db.receipts[k].status == Completed
                   ==> db.receipts[j].device != db.receipts[k].device
  }

  ghost predicate Sane(db: Db) {
    PeopleOk(db) && OwnDevices(db) && forall k :: k in db.receipts ==> ReceiptOk(db, db.receipts[k])
  }

  ghost predicate BothSane(working: Db, committed: Db) {
    Sane(working) && Sane(committed)
  }

  /** A sane ledger is as the admission of a batch expects it. */
  lemma {:induction false} SaneLedgerIsComparable(db: Db, recipient: nat)
    requires Sane(db) && recipient in db.labels
    ensures CompletedFor(db, db.labels[recipient], recipient)
  {
    forall k | k in db.receipts && IsCompletedFor(db.receipts[k], db.labels[recipient])
      ensures CompletedLike(db.receipts[k], recipient)
    {
      assert ReceiptOk(db, db.receipts[k]);
    }
  }

  ghost predicate SaneAlike(a: Db, b: Db) {
    && a.labels == b.labels && a.nextUser == b.nextUser && SameDevices(a, b) && a.receipts == b.receipts
    && a.passports == b.passports && a.events == b.events
  }

  lemma AlikeIsSane(a: Db, b: Db)
    requires SaneAlike(a, b)
    ensures Sane(a) <==> Sane(b)
  {
    assert forall r :: Served(a, r) <==> Served(b, r);
    assert forall r :: ReceiptOk(a, r) <==> ReceiptOk(b, r);
  }

  lemma RecipientKeepsSane(db: Db, recipient: nat)
    requires Sane(db) && recipient !in db.labels
    ensures Sane(WithRecipient(db, recipient))
  {
    var next := WithRecipient(db, recipient);
    assert forall r :: Served(db, r) <==> Served(next, r);
    forall k | k in next.receipts ensures ReceiptOk(next, next.receipts[k]) {
      assert ReceiptOk(db, db.receipts[k]);
    }
  }

  lemma ReceiptKeepsSane(db: Db, key: ReceiptKey, server: nat, slot: Slot, user: nat)
    requires Sane(db) && slot.recipient in db.labels && db.labels[slot.recipient] == user && IsNumberedSlot(slot)
    ensures Sane(WithReceipt(db, key, StartedReceipt(server, slot, user)))
  {
    var next := WithReceipt(db, key, StartedReceipt(server, slot, user));
    assert forall r :: Served(db, r) <==> Served(next, r);
    forall k | k in next.receipts ensures ReceiptOk(next, next.receipts[k]) {
      assert k != key ==> ReceiptOk(db, db.receipts[k]);
    }
  }

  /** A creation takes nothing away from what a receipt was served. */
  lemma CreationKeepsServed(a: Db, b: Db, owner: nat, r: Receipt)
    requires PeopleOk(a) && Access.AtMostOneFor(owner, a, b) && Served(a, r)
    ensures Served(b, r)
  {
    assert r.device.value != a.nextDevice;
    if r.passport.Some? {
      var i :| 0 <= i < |a.events| && a.events[i].passport == r.passport && a.events[i].stage == ConfigReady
               && a.events[i].completed;
      assert b.events[i] == a.events[i];
    }
  }

  lemma CreationKeepsSane(a: Db, b: Db, key: ReceiptKey)
    requires Sane(a) && Access.OnlyCreates(a, b) && key in a.receipts && Access.AtMostOneFor(a.receipts[key].user, a, b)
    ensures Sane(b)
  {
    hide Served;
    OnlyCreatesSameReceipts(a, b);
    assert ReceiptOk(a, a.receipts[key]);
    forall id | id in b.devices ensures b.devices[id].user < b.nextUser && id < b.nextDevice {
      assert id == a.nextDevice || (id in a.devices && b.devices[id] == a.devices[id]);
    }
    forall k | k in b.receipts ensures ReceiptOk(b, b.receipts[k]) {
      assert ReceiptOk(a, a.receipts[k]);
      if a.receipts[k].status == Completed {
        CreationKeepsServed(a, b, a.receipts[key].user, a.receipts[k]);
      }
    }
  }

  lemma OutcomeKeepsSane(
      db: Db, key: ReceiptKey, status: ReceiptStatus, device: Option<nat>, passport: Option<nat>, error: ErrorCode)
    requires Sane(db)
    requires status == Completed && key in db.receipts ==>
      && Served(db, Ended(db.receipts[key], status, device, passport, error))
      && forall k :: k in db.receipts && db.receipts[k].status == Completed ==> db.receipts[k].device != device
    ensures Sane(WithOutcome(db, key, status, device, passport, error))
  {
    hide Served;
    var next := WithOutcome(db, key, status, device, passport, error);
    ServedAlike(db, next);
    forall k | k in next.receipts ensures ReceiptOk(next, next.receipts[k]) {
      assert ReceiptOk(db, db.receipts[k]);
    }
  }

  lemma ServedAlike(a: Db, b: Db)
    requires a.devices == b.devices && a.passports == b.passports && a.events == b.events
    ensures forall r :: Served(a, r) <==> Served(b, r)
  {
  }

  /** A device created for a started receipt serves it, and no completed one has it already. */
  lemma CreationServes(
      a: Db, b: Db, key: ReceiptKey, user: nat, server: nat, slot: Slot, maxDevices: nat, env: SlotEnv)
    requires Sane(a) && key in a.receipts && a.receipts[key] == StartedReceipt(server, slot, user)
    requires b.receipts == a.receipts
    requires Access.DeviceCreated(
               a, b, CreationRequest(user, server, slot), env.creation.key, env.creation.passport, maxDevices)
    ensures Served(b, Ended(b.receipts[key], Completed, Some(a.nextDevice), PassportOf(slot, env), NoError))
    ensures forall k ::
      k in b.receipts && b.receipts[k].status == Completed ==> b.receipts[k].device != Some(a.nextDevice)
  {
    hide Access.IsFreshAddress, Access.MayOwn;
    assert ReceiptOk(a, a.receipts[key]);
    forall k | k in b.receipts && b.receipts[k].status == Completed ensures b.receipts[k].device != Some(a.nextDevice) {
      assert ReceiptOk(a, a.receipts[k]);
    }
  }

  datatype SlotResult = Finished(receipt: Receipt) | Stopped(receipt: Receipt) | Escaped

  predicate IsQuotaError(o: Outcome<nat>) {
    o == Raised(MaxDevices)
  }

  /** Makes the receipt durable before anything is created. */
  method StartReceipt(repo: Repository<Db>, key: ReceiptKey, server: nat, slot: Slot, env: SlotEnv)
    returns (user: Option<nat>)
    requires repo.Valid() && repo.depth == 0 && MayStart(repo.working, key, server, slot)
    modifies repo
    ensures repo.Valid() && repo.depth == 0
    ensures old(Book(repo.working, repo.committed))
            ==> Book(repo.working, repo.committed) && ReceiptsKept(old(repo.committed), repo.committed)
    ensures user.Some? <==> Starts(old(repo.working), slot, env)
    ensures Publishes(old(repo.working), old(repo.committed), repo.working, repo.committed)
    ensures IsNumberedSlot(slot) && old(BothSane(repo.working, repo.committed))
            ==> BothSane(repo.working, repo.committed)
    // A recipient without a row gets one, as an active user who is no administrator.
    ensures user.Some? ==>
      && slot.recipient in repo.working.labels && repo.working.labels[slot.recipient] == user.value
      && (slot.recipient !in old(repo.working.labels) ==>
            user.value in repo.working.users && repo.working.users[user.value] == User(true, false))
    ensures RowsEver(repo.working, repo.committed) <= old(RowsEver(repo.working, repo.committed))
    ensures user.Some? ==>
      && repo.working == StartedDb(old(repo.working), key, server, slot)
      && user.value == OwnerOf(old(repo.working), slot.recipient)
    ensures user.Some? ==>
      && !repo.open && repo.working.devices == old(repo.working.devices)
         && repo.working.servers == old(repo.working.servers)
      && repo.working.nextDevice == old(repo.working.nextDevice)
      && repo.working.requests == old(repo.working.requests)
      && repo.working.receipts == old(repo.working.receipts)[key := StartedReceipt(server, slot, user.value)]
      && (if slot.recipient in old(repo.working.labels)
          then user.value == old(repo.working.labels[slot.recipient]) && SamePeople(repo.working, old(repo.working))
          else user.value == old(repo.working.nextUser)
               && SamePeople(repo.working, WithRecipient(old(repo.working), slot.recipient)))
  {
    hide Ledger, ReceiptsKept, Book, Sane, Publishes, RowsEver;
    ghost var working, committed := repo.working, repo.committed;
    Unchanged(committed);
    var id: nat;
    if slot.recipient in repo.working.labels {
      id := repo.working.labels[slot.recipient];
    } else {
      id := repo.working.nextUser;
      var created := repo.Write(WithRecipient(repo.working, slot.recipient), env.recipientFault);
      PeopleKeepBook(working, committed, repo.working, repo.committed);
      if Sane(working) {
        RecipientKeepsSane(working, slot.recipient);
      }
      TouchesNoDevice(working, committed, working, committed, repo.working, repo.committed);
      if !created {
        return None;
      }
    }
    ghost var mid, published := repo.working, repo.committed;
    TouchesNoDevice(working, committed, working, committed, mid, published);
    var started := repo.Write(WithReceipt(repo.working, key, StartedReceipt(server, slot, id)), env.receiptFault);
    ReceiptKeepsBook(mid, published, repo.working, repo.committed, key, server, slot, id);
    TouchesNoDevice(working, committed, mid, published, repo.working, repo.committed);
    if Sane(mid) && IsNumberedSlot(slot) {
      ReceiptKeepsSane(mid, key, server, slot, id);
    }
    if Book(working, committed) {
      KeptOn(committed, published, repo.committed);
    }
    user := if started then Some(id) else None;
  }

  /** One more write that touches no device. */
  lemma TouchesNoDevice(working: Db, committed: Db, mid: Db, durable: Db, next: Db, published: Db)
    requires Publishes(working, committed, mid, durable) || (mid == working && durable == committed)
    requires RowsEver(mid, durable) <= RowsEver(working, committed)
    requires SameRows(next, mid) && (published == durable || published == next)
    ensures Publishes(working, committed, next, published)
    ensures RowsEver(next, published) <= RowsEver(working, committed)
  {
  }

  lemma PeopleKeepBook(working: Db, committed: Db, next: Db, published: Db)
    requires SameReceipts(working, next) && (published == committed || published == next)
    ensures Book(working, committed) ==> Book(next, published) && ReceiptsKept(committed, published)
  {
    hide Ledger, ReceiptsKept;
    if Book(working, committed) {
      SameReceiptsKept(working, next);
      BookKept(working, committed, next, published);
    }
  }

  lemma ReceiptKeepsBook(
      working: Db, committed: Db, next: Db, published: Db, key: ReceiptKey, server: nat, slot: Slot, user: nat)
    requires MayStart(working, key, server, slot)
    requires next == working || next == WithReceipt(working, key, StartedReceipt(server, slot, user))
    requires published == committed || published == next
    ensures Book(working, committed) ==> Book(next, published) && ReceiptsKept(committed, published)
  {
    hide Ledger, ReceiptsKept, MayStart;
    if Book(working, committed) {
      StartKeepsLedger(working, key, server, slot, user);
      Unchanged(working);
      BookKept(working, committed, next, published);
    }
  }

  ghost predicate SamePeople(a: Db, b: Db) {
    a.users == b.users && a.labels == b.labels && a.nextUser == b.nextUser
  }

  /** Writes the audit row and completes the receipt in one transaction; false stands for an exception. */
  method CompleteReceipt(
      repo: Repository<Db>, key: ReceiptKey, user: nat, device: nat, passport: Option<nat>, env: SlotEnv)
    returns (ok: bool)
    requires repo.Valid() && repo.depth == 0 && !repo.open
    modifies repo
    ensures repo.Valid() && repo.depth == 0
    ensures ok ==> repo.working == WithCompletion(old(repo.working), key, user, device, passport)
    ensures Publishes(old(repo.working), old(repo.committed), repo.working, repo.committed)
    ensures RowsEver(repo.working, repo.committed) == old(RowsEver(repo.working, repo.committed))
    ensures ok ==> repo.working.audits == old(repo.working.audits) + [Audit(OtherRow, Some(user), Some(device))]
    ensures repo.open <==> env.commitFails && !env.beginFails && !env.auditFails && !env.completeFails
    ensures ok ==>
      && !repo.open
      && SameBut(repo.working, WithOutcome(old(repo.working), key, Completed, Some(device), passport, NoError))
    ensures !ok ==>
      && repo.committed == old(repo.committed)
      && (if repo.open then env.commitFails
             && SameBut(repo.working, WithOutcome(old(repo.working), key, Completed, Some(device), passport, NoError))
          else repo.working == old(repo.working))
    ensures ok <==> !env.beginFails && !env.auditFails && !env.completeFails && !env.commitFails
  {
    var entered, isOutermost := repo.Enter(env.beginFails);
    if !entered {
      return false;
    }
    ok := repo.Write(WithAudit(repo.working, OtherRow, Some(user), Some(device)),
                     if env.auditFails then StatementFails else NoFault);
    if ok {
      ok := repo.Write(WithOutcome(repo.working, key, Completed, Some(device), passport, NoError),
                       if env.completeFails then StatementFails else NoFault);
    }
    if ok {
      ok := repo.Leave(isOutermost, env.commitFails);
    } else {
      repo.Abort(isOutermost);
    }
  }

  /** Equal up to audit rows. */
  ghost predicate SameBut(a: Db, b: Db) {
    a.(audits := b.audits) == b
  }

  // ----- One slot -----

  /** The request for the device of a slot. */
  function CreationRequest(user: nat, server: nat, slot: Slot): Access.Request {
    Access.Request(user, server, slot.mode, slot.platform, 0, true)
  }

  datatype Attempt = Succeeded | Crashed | FailedWith(device: Option<nat>, passport: Option<nat>, error: ErrorCode)

  /** An active owner who has met the quota, and no fault before that is noticed. */
  ghost predicate IsOverQuota(db: Db, user: nat, slot: Slot, maxDevices: nat, env: SlotEnv) {
    && user in db.users && db.users[user].active && slot.mode != OwnerShared
    && |ActiveDevices(db, user)| >= maxDevices
    && !env.creation.fails(Access.AtBegin) && !env.creation.fails(Access.AtRead)
    && !env.creation.fails(Access.AtIdentity)
  }

  lemma OverQuotaIsRefused(
      db: Db, user: nat, server: nat, slot: Slot, maxDevices: nat, hasApplier: bool, env: SlotEnv)
    requires IsOverQuota(db, user, slot, maxDevices, env)
    ensures Access.CreationError(db, CreationRequest(user, server, slot), maxDevices, hasApplier)
            == Some(MaxDevices)
    ensures !env.creation.fails(Access.AtBegin)
    ensures !env.creation.fails(Access.AtRead) && !env.creation.fails(Access.AtIdentity)
  {
  }

  /** Asks for the device of a slot; None if the process dies. */
  method AskForDevice(service: Access.AccessService, key: ReceiptKey, user: nat, server: nat, slot: Slot, env: SlotEnv)
    returns (r: Option<Outcome<nat>>)
    requires service.repo.Valid() && service.repo.depth == 0 && !service.repo.open
             && key in service.repo.working.receipts
    modifies service.repo, service.remote
    ensures service.repo.Valid() && service.repo.depth == 0
    ensures r.None? <==> env.Dies()
    ensures r.Some? ==>
      && (r.value.Done? <==> Creates(old(service.repo.working), user, server, slot, service.maxDevices,
                                     service.hasApplier, env))
      && (r.value == Raised(MaxDevices) ==> |ActiveDevices(old(service.repo.working), user)| >= service.maxDevices)
      && (IsOverQuota(old(service.repo.working), user, slot, service.maxDevices, env) ==> r.value == Raised(MaxDevices))
      && (r.value.Done? ==>
            && r.value.value == old(service.repo.working.nextDevice) && !service.repo.open
            && Access.DeviceCreated(old(service.repo.working), service.repo.working,
                                    CreationRequest(user, server, slot), env.creation.key, env.creation.passport,
                                    service.maxDevices)
            && Access.CreatedFrom(old(service.repo.working), service.repo.working, CreationRequest(user, server, slot),
                                  env.creation))
    ensures Access.OnlyCreates(old(service.repo.working), service.repo.working)
    ensures Access.OnlyCreates(old(service.repo.working), service.repo.committed)
    ensures AskedOnce(old(WorldOf(service.repo, service.remote)), WorldOf(service.repo, service.remote),
                      key, user, server, slot, service.maxDevices, service.hasApplier, env)
  {
    hide Access.CreatedFrom, Access.CreationError, Access.EndsInThreeWays, Step, Access.StrandedCommit,
      Access.GetsToCreation, Access.CleanUpToCommit, Access.OnlyCreates, Access.ChosenIp, Access.Created,
      Access.AtMostOneFor, Access.DeviceCreated, Access.NothingFails, Access.RefusesCreation, IsOverQuota, Sane,
      Leads, ActiveDevices, RowsEver;
    var repo, remote := service.repo, service.remote;
    ghost var started, w := repo.working, WorldOf(repo, remote);
    var q := CreationRequest(user, server, slot);
    if IsOverQuota(started, user, slot, service.maxDevices, env) {
      OverQuotaIsRefused(started, user, server, slot, service.maxDevices, service.hasApplier, env);
    }
    if env.crash == DuringCreation {
      var applied := service.CreateUntilDeath(q, env.creation);
      StepLeads(w, WorldOf(repo, remote), service.maxDevices);
      CreatesNothing(started);
      return None;
    }
    var created := service.CreateOperatorDevice(q, env.creation);
    StepLeads(w, WorldOf(repo, remote), service.maxDevices);
    if Sane(started) && started.receipts[key] == StartedReceipt(server, slot, user) {
      CreationKeepsSane(started, repo.working, key);
      CreationKeepsSane(started, repo.committed, key);
    }
    r := if env.crash == AfterCreation then None else Some(created);
  }

  lemma CreatesNothing(db: Db)
    ensures Access.OnlyCreates(db, db)
  {
  }

  /** Creates the device and completes the receipt. */
  method AttemptSlot(service: Access.AccessService, key: ReceiptKey, user: nat, server: nat, slot: Slot, env: SlotEnv)
    returns (a: Attempt)
    requires service.repo.Valid() && service.repo.depth == 0 && !service.repo.open
    requires key in service.repo.working.receipts && service.repo.working.receipts[key].status == Started
    modifies service.repo, service.remote
    ensures service.repo.Valid() && service.repo.depth == 0
    ensures key in service.repo.working.receipts && key in service.repo.committed.receipts
    ensures old(Book(service.repo.working, service.repo.working)) ==>
      && Book(service.repo.working, service.repo.committed)
      && ReceiptsKept(old(service.repo.working), service.repo.committed)
    ensures SameReceipts(service.repo.working, old(service.repo.working))
            || (env.commitFails && a.FailedWith? && Completes(service.repo.working, old(service.repo.working), key))
            || (a.Succeeded? && Completes(service.repo.working, old(service.repo.working), key))
    ensures service.repo.working.servers == old(service.repo.working.servers)
    ensures a.Succeeded? ==>
      && !env.commitFails && !service.repo.open && Completes(service.repo.working, old(service.repo.working), key)
      && SamePeople(old(service.repo.working), service.repo.working)
      && exists d: Device ::
           d.user == user && d.status == Active && Grown(service.repo.working, old(service.repo.working), d)
    ensures a.FailedWith? && a.error == QuotaError
            ==> |ActiveDevices(old(service.repo.working), user)| >= service.maxDevices
    ensures a.FailedWith? ==> a.error != NoError
    ensures a.FailedWith? && IsOverQuota(old(service.repo.working), user, slot, service.maxDevices, env)
            ==> a.error == QuotaError
    // Exactly when it succeeds, and when the receipt is completed although the commit of that is said to have failed.
    ensures a.Crashed? <==> env.Dies()
    ensures a.Succeeded? <==>
      && GetsToCompletion(old(service.repo.working), user, server, slot, service.maxDevices, service.hasApplier, env)
      && !env.commitFails
    ensures service.repo.working.receipts[key].status == Completed
            <==> GetsToCompletion(old(service.repo.working), user, server, slot, service.maxDevices, service.hasApplier,
                                  env)
    ensures a.Succeeded? ==>
      service.repo.working == AfterSlot(old(service.repo.working), key, user, server, slot, env)
    ensures AskedOnce(old(WorldOf(service.repo, service.remote)), WorldOf(service.repo, service.remote),
                      key, user, server, slot, service.maxDevices, service.hasApplier, env)
  {
    hide Ledger, ReceiptsKept, Book, Access.CreatedFrom, Access.OnlyCreates, WithOutcome, Grown, Sane, Leads, Creates,
      CreationRequest, AfterSlot, Publishes, RowsEver, BothSane, AskedOnce;
    var repo, remote := service.repo, service.remote;
    ghost var started, w := repo.working, WorldOf(repo, remote);
    Unchanged(started);
    var asked := AskForDevice(service, key, user, server, slot, env);
    OnlyCreatesSameReceipts(started, repo.working);
    OnlyCreatesSameReceipts(started, repo.committed);
    ghost var mid, published, u := repo.working, repo.committed, WorldOf(repo, remote);
    CreationKeepsBook(started, started, mid, published);
    if asked.None? {
      return Crashed;
    }
    var created := asked.value;
    if !created.Done? {
      return FailedWith(None, None, if IsQuotaError(created) then QuotaError else OtherError);
    }
    var passport := PassportOf(slot, env);
    if env.attachmentFails {
      return FailedWith(Some(created.value), passport, OtherError);
    }
    var ok := CompleteReceipt(repo, key, user, created.value, passport, env);
    OutcomeIs(mid, key, Completed, Some(created.value), passport, NoError);
    OutcomeKeepsBook(started, mid, published, repo.working, repo.committed, key, Completed, Some(created.value),
                     passport, NoError);
    if Sane(started) && started.receipts[key] == StartedReceipt(server, slot, user) {
      CompletionKeepsSane(started, mid, published, repo.working, repo.committed, key, user, server, slot,
                          service.maxDevices, env);
    }
    AskedThenWritten(w, u, WorldOf(repo, remote), key, user, server, slot, service.maxDevices, service.hasApplier, env);
    if ok {
      CompletedIs(started, mid, repo.working, key, user, server, slot, env);
      return Succeeded;
    }
    return FailedWith(Some(created.value), passport, OtherError);
  }

  lemma CompletedIs(
      started: Db, created: Db, next: Db, key: ReceiptKey, user: nat, server: nat, slot: Slot, env: SlotEnv)
    requires Access.CreatedFrom(started, created, CreationRequest(user, server, slot), env.creation)
    requires next == WithCompletion(created, key, user, started.nextDevice, PassportOf(slot, env))
    requires SameBut(next, WithOutcome(created, key, Completed, Some(started.nextDevice), PassportOf(slot, env),
                                       NoError))
    ensures next == AfterSlot(started, key, user, server, slot, env)
    ensures SamePeople(started, next)
    ensures exists d: Device :: d.user == user && d.status == Active && Grown(next, started, d)
  {
    hide Access.CreatedFrom, Access.ChosenIp, Access.Created, Grown, WithCompletion;
    var q := CreationRequest(user, server, slot);
    Access.CreatedIs(started, created, q, env.creation);
    Access.CreatedFromOnlyCreates(started, created, q, env.creation);
    OnlyCreatesSameReceipts(started, created);
    CreatedGrows(started, created, q, env.creation);
    GrownAlike(started, created, next);
  }

  /** A run of steps that keep the invariants, with one creation asked for: at most one row and one peer more, and
      exactly this peer left unfinished. */
  ghost predicate AskedOnce(
      w: World, v: World, key: ReceiptKey, user: nat, server: nat, slot: Slot, maxDevices: nat, hasApplier: bool,
      env: SlotEnv)
  {
    && Leads(w, v, maxDevices)
    && v.peers <= w.peers + {Peer(server, env.creation.key)}
    && RowsEver(v.working, v.committed) <= RowsEver(w.working, w.committed) + 1
    && v.unfinished == w.unfinished + LeftStarted(w.working, user, server, slot, maxDevices, hasApplier, env)
    && (Sane(w.working) && key in w.working.receipts
        && w.working.receipts[key] == StartedReceipt(server, slot, user)
        ==> BothSane(v.working, v.committed))
  }

  lemma AskedThenWritten(
      w: World, u: World, v: World, key: ReceiptKey, user: nat, server: nat, slot: Slot, maxDevices: nat,
      hasApplier: bool, env: SlotEnv)
    requires AskedOnce(w, u, key, user, server, slot, maxDevices, hasApplier, env)
    requires PublishStep(u, v) && RowsEver(v.working, v.committed) <= RowsEver(u.working, u.committed)
    requires Sane(w.working) && key in w.working.receipts
             && w.working.receipts[key] == StartedReceipt(server, slot, user) && BothSane(u.working, u.committed)
             ==> BothSane(v.working, v.committed)
    ensures AskedOnce(w, v, key, user, server, slot, maxDevices, hasApplier, env)
  {
    hide Leads, RowsEver, BothSane, LeftStarted, Sane;
    PublishLeads(w, u, v, maxDevices);
  }

  lemma AskedThenRestarted(
      w: World, u: World, v: World, key: ReceiptKey, user: nat, server: nat, slot: Slot, maxDevices: nat,
      hasApplier: bool, env: SlotEnv)
    requires AskedOnce(w, u, key, user, server, slot, maxDevices, hasApplier, env) && RestartStep(u, v)
    ensures AskedOnce(w, v, key, user, server, slot, maxDevices, hasApplier, env)
  {
    hide Leads, LeftStarted, Sane;
    RestartLeads(w, u, v, maxDevices);
  }

  lemma CompletionKeepsSane(
      started: Db, mid: Db, published: Db, next: Db, durable: Db, key: ReceiptKey, user: nat, server: nat, slot: Slot,
      maxDevices: nat, env: SlotEnv)
    requires Sane(started) && key in started.receipts && started.receipts[key] == StartedReceipt(server, slot, user)
    requires mid.receipts == started.receipts
    requires Access.DeviceCreated(
               started, mid, CreationRequest(user, server, slot), env.creation.key, env.creation.passport, maxDevices)
    requires next == mid
             || SameBut(next, WithOutcome(mid, key, Completed, Some(started.nextDevice), PassportOf(slot, env),
                                          NoError))
    requires durable == published || durable == next
    ensures BothSane(mid, published) ==> BothSane(next, durable)
  {
    hide Sane, Served, Access.DeviceCreated;
    if Sane(mid) && next != mid {
      var device, passport := Some(started.nextDevice), PassportOf(slot, env);
      var outcome := WithOutcome(mid, key, Completed, device, passport, NoError);
      CreationServes(started, mid, key, user, server, slot, maxDevices, env);
      OutcomeKeepsSane(mid, key, Completed, device, passport, NoError);
      AlikeIsSane(outcome, next);
    }
  }

  /** Writes that touch no device, after a run. */
  lemma PublishLeads(w: World, u: World, v: World, maxDevices: nat)
    requires Leads(w, u, maxDevices) && PublishStep(u, v)
    ensures Leads(w, v, maxDevices)
  {
    hide Leads;
    StepLeads(u, v, maxDevices);
    LeadsOn(w, u, v, maxDevices);
  }

  lemma RestartLeads(w: World, u: World, v: World, maxDevices: nat)
    requires Leads(w, u, maxDevices) && RestartStep(u, v)
    ensures Leads(w, v, maxDevices)
  {
    hide Leads;
    StepLeads(u, v, maxDevices);
    LeadsOn(w, u, v, maxDevices);
  }

  lemma StayingLeads(w: World, maxDevices: nat)
    ensures Leads(w, w, maxDevices)
  {
    hide Leads;
    StepLeads(w, w, maxDevices);
  }

  /** The receipt became completed and nothing else of the books changed. */
  ghost predicate Completes(newer: Db, older: Db, key: ReceiptKey) {
    && newer.requests == older.requests && key in newer.receipts && newer.receipts[key].status == Completed
    && newer.receipts[key].error == NoError
    && newer.receipts == older.receipts[key := newer.receipts[key]]
  }

  lemma CreatedGrows(started: Db, created: Db, q: Access.Request, env: Access.Env)
    requires Access.CreatedFrom(started, created, q, env)
    ensures exists d: Device :: d.user == q.owner && d.status == Active && Grown(created, started, d)
  {
    hide Access.ChosenIp, LocalIps, HasPeer, Access.Creation, Access.OnlyCreates, Grown;
    Access.CreationOnlyCreates(started, q, Access.Chosen(started, q.owner, q.server, q.mode, env), env);
  }

  lemma GrownIsOneMore(before: Db, started: Db, newer: Db, recipient: nat, user: nat)
    requires started.devices == before.devices && started.nextDevice == before.nextDevice
    requires user == OwnerOf(before, recipient) && SamePeople(started, newer)
    requires if recipient in before.labels then SamePeople(started, before)
             else SamePeople(started, WithRecipient(before, recipient))
    requires exists d: Device :: d.user == user && d.status == Active && Grown(newer, started, d)
    ensures OneMore(before, newer, recipient)
  {
  }

  lemma GrownAlike(older: Db, a: Db, b: Db)
    requires SameDevices(a, b)
    ensures forall d :: Grown(a, older, d) ==> Grown(b, older, d)
  {
  }

  method IssueSlot(service: Access.AccessService, log: CallLog, key: ReceiptKey, server: nat, slot: Slot, env: SlotEnv)
    returns (r: SlotResult)
    requires service.repo.Valid() && service.repo.depth == 0 && MayStart(service.repo.working, key, server, slot)
    modifies service.repo, service.remote, log
    ensures service.repo.Valid() && service.repo.depth == 0
    ensures old(AtMostOnce(service.repo.working, service.repo.committed, log.calls)) ==>
      && AtMostOnce(service.repo.working, service.repo.committed, log.calls)
      && ReceiptsKept(old(service.repo.committed), service.repo.committed)
    ensures r != Escaped ==>
      && !service.repo.open && service.repo.working.requests == old(service.repo.working.requests)
      && service.repo.working.servers == old(service.repo.working.servers)
      && service.repo.working.receipts == old(service.repo.working.receipts)[key := r.receipt]
    ensures r.Finished? ==> r.receipt.status == Completed && r.receipt.error == NoError && !env.commitFails
    ensures r.Stopped? ==> r.receipt.status == PartlyFailed || (r.receipt.status == Completed && env.commitFails)
    ensures r.Stopped? && r.receipt.error == QuotaError
            ==> |ActiveDevices(old(service.repo.working), OwnerOf(old(service.repo.working), slot.recipient))|
                >= service.maxDevices
    ensures r.Finished? ==> OneMore(old(service.repo.working), service.repo.working, slot.recipient)
    // Exactly how it ends.
    ensures var e := IssuingOf(old(service.repo.working), key, server, slot, service.maxDevices, service.hasApplier,
                               env);
      && (r.Finished? <==> e == Finishes) && (r.Escaped? <==> e == Escapes)
      && (r.Stopped? && r.receipt.status == Completed <==> e == Strands)
    ensures r.Finished? ==>
      service.repo.working == AfterSlot(StartedDb(old(service.repo.working), key, server, slot), key,
                                        OwnerOf(old(service.repo.working), slot.recipient), server, slot, env)
    // Nothing is created without a call.
    ensures CalledAtMostOnce(
      old(WorldOf(service.repo, service.remote)), WorldOf(service.repo, service.remote), old(log.calls), log.calls,
      key, server, slot, service.maxDevices, service.hasApplier, env)
  {
    hide Ledger, ReceiptsKept, Book, AtMostOnce, MayStart, WithOutcome, Grown, OneMore, WithRecipient, SamePeople,
      GetsToCompletion, AfterSlot, StartedDb, CreationRequest, OwnerOf, BothSane, CalledAtMostOnce, Publishes,
      RowsEver, AskedOnce;
    var repo := service.repo;
    ghost var before, durable, calls := repo.working, repo.committed, log.calls;
    ghost var w := WorldOf(service.repo, service.remote);
    BookOfOnce(before, durable, calls);
    KeyIsNew(before, key, server, slot);
    var user := StartReceipt(repo, key, server, slot, env);
    ghost var started, u := repo.working, WorldOf(repo, service.remote);
    if user.None? || env.crash == BeforeCreation {
      OnceSame(before, durable, calls, repo.working, repo.committed);
      if user.Some? {
        repo.Restart();
      }
      NotCalled(w, u, WorldOf(repo, service.remote), calls, key, server, slot, service.maxDevices, service.hasApplier,
                env);
      return Escaped;
    }
    r := IssueStarted(service, log, key, user.value, server, slot, env);
    Called(w, u, WorldOf(repo, service.remote), calls, key, user.value, server, slot, service.maxDevices,
           service.hasApplier, env);
    if Book(before, durable) {
      KeptOn(durable, started, repo.committed);
    }
    OnceMore(before, durable, calls, repo.working, repo.committed, key);
    if r != Escaped {
      Overwritten(before.receipts, key, started.receipts[key], r.receipt);
    }
    if r.Finished? {
      GrownIsOneMore(before, started, repo.working, slot.recipient, user.value);
    }
  }

  /** A run of steps that keep the invariants. Nothing is created without a call, a call creates at most one row and
      one peer, and exactly this peer is left unfinished. */
  ghost predicate CalledAtMostOnce(
      w: World, v: World, calls: multiset<ReceiptKey>, next: multiset<ReceiptKey>, key: ReceiptKey, server: nat,
      slot: Slot, maxDevices: nat, hasApplier: bool, env: SlotEnv)
  {
    && Leads(w, v, maxDevices)
    && (next == calls || next == calls + multiset{key}) && (next == calls ==> v.peers == w.peers)
    && v.peers <= w.peers + {Peer(server, env.creation.key)}
    && RowsEver(v.working, v.committed) + |calls| <= RowsEver(w.working, w.committed) + |next|
    && v.unfinished == w.unfinished + LeftOf(w.working, key, server, slot, maxDevices, hasApplier, env)
    && (IsNumberedSlot(slot) && BothSane(w.working, w.committed) ==> BothSane(v.working, v.committed))
  }

  lemma NotCalled(
      w: World, u: World, v: World, calls: multiset<ReceiptKey>, key: ReceiptKey, server: nat, slot: Slot,
      maxDevices: nat, hasApplier: bool, env: SlotEnv)
    requires PublishStep(w, u) && (v == u || RestartStep(u, v))
    requires RowsEver(u.working, u.committed) <= RowsEver(w.working, w.committed)
    requires !Starts(w.working, slot, env) || env.crash == BeforeCreation
    requires IsNumberedSlot(slot) && BothSane(w.working, w.committed) ==> BothSane(u.working, u.committed)
    ensures CalledAtMostOnce(w, v, calls, calls, key, server, slot, maxDevices, hasApplier, env)
  {
    hide Leads, Sane, StartedDb, LeavesPeer;
    StepLeads(w, u, maxDevices);
    if RestartStep(u, v) {
      RestartLeads(w, u, v, maxDevices);
    }
  }

  lemma Called(
      w: World, u: World, v: World, calls: multiset<ReceiptKey>, key: ReceiptKey, user: nat, server: nat, slot: Slot,
      maxDevices: nat, hasApplier: bool, env: SlotEnv)
    requires PublishStep(w, u) && u.working == u.committed == StartedDb(w.working, key, server, slot)
    requires RowsEver(u.working, u.committed) <= RowsEver(w.working, w.committed) && u.unfinished == w.unfinished
    requires Starts(w.working, slot, env) && env.crash != BeforeCreation && user == OwnerOf(w.working, slot.recipient)
    requires IsNumberedSlot(slot) && BothSane(w.working, w.committed) ==> BothSane(u.working, u.committed)
    requires AskedOnce(u, v, key, user, server, slot, maxDevices, hasApplier, env)
    ensures CalledAtMostOnce(w, v, calls, calls + multiset{key}, key, server, slot, maxDevices, hasApplier, env)
  {
    hide Leads, Sane, LeavesPeer;
    StepLeads(w, u, maxDevices);
    LeadsOn(w, u, v, maxDevices);
  }

  /** Asks for the creation of a slot whose receipt was just started, and ends the receipt. */
  method IssueStarted(
      service: Access.AccessService, log: CallLog, key: ReceiptKey, user: nat, server: nat, slot: Slot, env: SlotEnv)
    returns (r: SlotResult)
    requires service.repo.Valid() && service.repo.depth == 0 && !service.repo.open
    requires key in service.repo.working.receipts && service.repo.working.receipts[key].status == Started
    modifies service.repo, service.remote, log
    ensures service.repo.Valid() && service.repo.depth == 0 && key in service.repo.committed.receipts
    ensures r != Escaped ==>
      && !service.repo.open && service.repo.working.requests == old(service.repo.working.requests)
      && service.repo.working.servers == old(service.repo.working.servers)
      && service.repo.working.receipts == old(service.repo.working.receipts)[key := r.receipt]
    ensures r.Finished? ==> r.receipt.status == Completed && r.receipt.error == NoError && !env.commitFails
    ensures r.Stopped? ==> r.receipt.status == PartlyFailed || (r.receipt.status == Completed && env.commitFails)
    ensures r.Stopped? && r.receipt.error == QuotaError
            ==> |ActiveDevices(old(service.repo.working), user)| >= service.maxDevices
    ensures r.Finished? ==>
      && SamePeople(old(service.repo.working), service.repo.working)
      && exists d: Device ::
           d.user == user && d.status == Active && Grown(service.repo.working, old(service.repo.working), d)
    ensures r.Finished? ==>
      service.repo.working == AfterSlot(old(service.repo.working), key, user, server, slot, env)
    ensures
      var gets := GetsToCompletion(old(service.repo.working), user, server, slot, service.maxDevices,
                                   service.hasApplier, env);
      && (r.Finished? <==> gets && !env.commitFails)
      && (r.Escaped? <==> env.Dies() || (!(gets && !env.commitFails) && env.failFault != NoFault))
      && (r.Stopped? && r.receipt.status == Completed <==> gets && env.commitFails && env.failFault == NoFault)
    ensures log.calls == old(log.calls) + multiset{key}
    ensures old(Book(service.repo.working, service.repo.working)) ==>
      && Book(service.repo.working, service.repo.committed)
      && ReceiptsKept(old(service.repo.working), service.repo.committed)
    ensures AskedOnce(old(WorldOf(service.repo, service.remote)), WorldOf(service.repo, service.remote),
                      key, user, server, slot, service.maxDevices, service.hasApplier, env)
  {
    hide Ledger, ReceiptsKept, Book, WithOutcome, Grown, SamePeople, GetsToCompletion, AfterSlot, CreationRequest,
      Ended, AskedOnce, BothSane, RowsEver, Publishes;
    var repo := service.repo;
    ghost var started, w := repo.working, WorldOf(service.repo, service.remote);
    log.calls := log.calls + multiset{key};
    var attempt := AttemptSlot(service, key, user, server, slot, env);
    ghost var last, published, u := repo.working, repo.committed, WorldOf(service.repo, service.remote);
    if attempt.Crashed? {
      RestartKeepsBook(last, published);
      repo.Restart();
      AskedThenRestarted(w, u, WorldOf(service.repo, service.remote), key, user, server, slot, service.maxDevices,
                         service.hasApplier, env);
      return Escaped;
    }
    if attempt.Succeeded? {
      return Finished(repo.working.receipts[key]);
    }
    r := FailReceipt(repo, key, attempt, env);
    AskedThenWritten(w, u, WorldOf(service.repo, service.remote), key, user, server, slot, service.maxDevices,
                     service.hasApplier, env);
    if Book(started, started) {
      KeptOn(started, published, repo.committed);
    }
    if r != Escaped {
      Overwritten(started.receipts, key, last.receipts[key], r.receipt);
    }
  }

  lemma RestartKeepsBook(working: Db, committed: Db)
    ensures Book(working, committed) ==> Book(committed, committed)
  {
    hide Ledger;
    Unchanged(committed);
  }

  /** Records a failure, unless the receipt was completed after all by a commit that was reported as failed. */
  method FailReceipt(repo: Repository<Db>, key: ReceiptKey, attempt: Attempt, env: SlotEnv) returns (r: SlotResult)
    requires repo.Valid() && repo.depth == 0 && attempt.FailedWith?
    requires key in repo.working.receipts && key in repo.committed.receipts
    modifies repo
    ensures repo.Valid() && repo.depth == 0 && !r.Finished?
    ensures old(Book(repo.working, repo.committed))
            ==> Book(repo.working, repo.committed) && ReceiptsKept(old(repo.committed), repo.committed)
    ensures key in repo.committed.receipts
    ensures r.Stopped? <==> env.failFault == NoFault
    ensures repo.working.nextDevice == old(repo.working.nextDevice)
    ensures repo.committed == old(repo.committed) || repo.committed == repo.working
    ensures RowsEver(repo.working, repo.committed) <= old(RowsEver(repo.working, repo.committed))
    ensures Publishes(old(repo.working), old(repo.committed), repo.working, repo.committed)
    ensures old(BothSane(repo.working, repo.committed)) ==> BothSane(repo.working, repo.committed)
    ensures r.Stopped? ==>
      && !repo.open && repo.working.requests == old(repo.working.requests)
      && repo.working.servers == old(repo.working.servers)
      && (if old(repo.working.receipts[key].status) == Started
          then r.receipt == Ended(old(repo.working.receipts[key]), PartlyFailed, attempt.device, attempt.passport,
                                  attempt.error)
               && repo.working.receipts == old(repo.working.receipts)[key := r.receipt]
          else r.receipt == old(repo.working.receipts[key]) && repo.working.receipts == old(repo.working.receipts))
  {
    hide Ledger, ReceiptsKept, Book, WithOutcome, Ended, BothSane, Publishes, RowsEver;
    ghost var last, published := repo.working, repo.committed;
    var failed := repo.Write(
      WithOutcome(repo.working, key, PartlyFailed, attempt.device, attempt.passport, attempt.error), env.failFault);
    FailureKeepsBook(last, published, repo.working, repo.committed, key, attempt.device, attempt.passport,
                     attempt.error);
    FailureKeepsSane(last, published, repo.working, repo.committed, key, attempt.device, attempt.passport,
                     attempt.error);
    OutcomeIs(last, key, PartlyFailed, attempt.device, attempt.passport, attempt.error);
    r := if failed then Stopped(repo.working.receipts[key]) else Escaped;
  }

  lemma FailureKeepsSane(
      working: Db, committed: Db, next: Db, published: Db,
      key: ReceiptKey, device: Option<nat>, passport: Option<nat>, error: ErrorCode)
    requires key in working.receipts
    requires next == working || next == WithOutcome(working, key, PartlyFailed, device, passport, error)
    requires published == committed || published == next
    ensures Publishes(working, committed, next, published)
    ensures BothSane(working, committed) ==> BothSane(next, published)
    ensures RowsEver(next, published) <= RowsEver(working, committed)
  {
    hide WithOutcome, Sane;
    OutcomeIs(working, key, PartlyFailed, device, passport, error);
    if Sane(working) {
      OutcomeKeepsSane(working, key, PartlyFailed, device, passport, error);
    }
  }

  lemma FailureKeepsBook(
      working: Db, committed: Db, next: Db, published: Db,
      key: ReceiptKey, device: Option<nat>, passport: Option<nat>, error: ErrorCode)
    requires next == working || next == WithOutcome(working, key, PartlyFailed, device, passport, error)
    requires published == committed || published == next
    ensures Book(working, committed) ==> Book(next, published) && ReceiptsKept(committed, published)
  {
    hide Ledger, ReceiptsKept, Book, WithOutcome;
    Unchanged(committed);
    OutcomeKeepsBook(committed, working, committed, next, published, key, PartlyFailed, device, passport, error);
  }

  lemma Overwritten<K, V>(m: map<K, V>, k: K, a: V, b: V)
    ensures m[k := a][k := b] == m[k := b]
  {
  }

  lemma BookOfOnce(working: Db, committed: Db, calls: multiset<ReceiptKey>)
    ensures AtMostOnce(working, committed, calls) ==> Book(working, committed)
  {
  }

  lemma KeyIsNew(db: Db, key: ReceiptKey, server: nat, slot: Slot)
    requires MayStart(db, key, server, slot)
    ensures key !in db.receipts
  {
  }

  /** No call was made. */
  lemma OnceSame(working: Db, committed: Db, calls: multiset<ReceiptKey>, next: Db, published: Db)
    requires AtMostOnce(working, committed, calls) ==> Book(next, published) && ReceiptsKept(committed, published)
    ensures AtMostOnce(working, committed, calls)
            ==> AtMostOnce(next, published, calls) && AtMostOnce(published, published, calls)
  {
    hide Ledger;
    Unchanged(published);
  }

  /** One call was made, for a receipt that was not there before and is durable now. */
  lemma OnceMore(working: Db, committed: Db, calls: multiset<ReceiptKey>, next: Db, published: Db, key: ReceiptKey)
    requires key !in working.receipts && key in published.receipts
    requires AtMostOnce(working, committed, calls) ==> Book(next, published) && ReceiptsKept(committed, published)
    ensures AtMostOnce(working, committed, calls) ==> AtMostOnce(next, published, calls + multiset{key})
  {
    hide Ledger;
    if AtMostOnce(working, committed, calls) {
      assert key !in committed.receipts;
      forall k | k in calls + multiset{key} ensures k in published.receipts {
        if k != key {
          assert k in committed.receipts;
        }
      }
    }
  }

  lemma CreationKeepsBook(durable: Db, started: Db, next: Db, published: Db)
    requires SameReceipts(started, next) && SameReceipts(started, published)
    ensures Book(started, started) && ReceiptsKept(durable, started)
            ==> Book(next, published) && ReceiptsKept(durable, published)
  {
    hide Ledger, ReceiptsKept;
    SameReceiptsKept(started, next);
    SameReceiptsKept(started, published);
    SameReceiptsKept(published, next);
    if ReceiptsKept(durable, started) {
      KeptOn(durable, started, published);
    }
  }

  lemma OutcomeKeepsBook(
      durable: Db, working: Db, committed: Db, next: Db, published: Db,
      key: ReceiptKey, status: ReceiptStatus, device: Option<nat>, passport: Option<nat>, error: ErrorCode)
    requires SameReceipts(next, working)
             || SameReceipts(next, WithOutcome(working, key, status, device, passport, error))
    requires published == committed || published == next
    ensures Book(working, committed) && ReceiptsKept(durable, committed)
            ==> Book(next, published) && ReceiptsKept(durable, published)
  {
    hide Ledger, ReceiptsKept, WithOutcome;
    if Book(working, committed) && ReceiptsKept(durable, committed) {
      var outcome := WithOutcome(working, key, status, device, passport, error);
      OutcomeKeepsLedger(working, key, status, device, passport, error);
      Unchanged(working);
      if SameReceipts(next, outcome) {
        SameReceiptsKept(outcome, next);
        KeptOn(working, outcome, next);
      } else {
        SameReceiptsKept(working, next);
      }
      BookKept(working, committed, next, published);
      KeptOn(durable, committed, published);
    }
  }

  lemma OutcomeIs(
      db: Db, key: ReceiptKey, status: ReceiptStatus, device: Option<nat>, passport: Option<nat>, error: ErrorCode)
    requires key in db.receipts && status != Started
    ensures var r := db.receipts[key]; var next := WithOutcome(db, key, status, device, passport, error);
            && next == db.(receipts := next.receipts) && next.nextDevice == db.nextDevice
            && next.receipts == if r.status == Started
                                then db.receipts[key := Ended(r, status, device, passport, error)]
                                else db.receipts
  {
  }

  /** The user a recipient label stands for, or will stand for once it is created. */
  function OwnerOf(db: Db, recipient: nat): nat {
    if recipient in db.labels then db.labels[recipient] else db.nextUser
  }

  /** One more active device for the recipient, none for anyone else, and no other recipient. */
  ghost predicate OneMore(a: Db, b: Db, recipient: nat) {
    && (if recipient in a.labels then SamePeople(a, b) else SamePeople(b, WithRecipient(a, recipient)))
    && b.nextDevice == a.nextDevice + 1
    && exists d: Device ::
         d.user == OwnerOf(a, recipient) && d.status == Active && b.devices == a.devices[a.nextDevice := d]
  }

  // ----- Admission of a whole batch -----

  function CountOf(slots: seq<Slot>, recipient: nat): nat {
    if slots == [] then 0
    else CountOf(slots[..|slots| - 1], recipient) + (if slots[|slots| - 1].recipient == recipient then 1 else 0)
  }

  /** The active devices of a recipient; an unknown recipient has none. */
  function ActiveOf(db: Db, recipient: nat): nat {
    if recipient in db.labels then |ActiveDevices(db, db.labels[recipient])| else 0
  }

  ghost predicate Admitted(db: Db, slots: seq<Slot>, batchLimit: nat) {
    forall i :: 0 <= i < |slots| ==> ActiveOf(db, slots[i].recipient) + CountOf(slots, slots[i].recipient) <= batchLimit
  }

  /** Every recipient's active devices and requested slots together are at most the limit. */
  ghost predicate FitsLimit(db: Db, slots: seq<Slot>, batchLimit: nat) {
    forall s :: s in slots ==>
      (if s.recipient in db.labels then Access.ActiveCount(db, db.labels[s.recipient]) else 0)
      + |SlotsFor(slots, s.recipient)| <= batchLimit
  }

  function SlotsFor(slots: seq<Slot>, recipient: nat): set<nat> {
    set i | 0 <= i < |slots| && slots[i].recipient == recipient
  }

  /** A name can be built for every slot of a known recipient, and no completed receipt of his has it. */
  ghost predicate NoNameTaken(db: Db, slots: seq<Slot>, names: Naming) {
    forall s :: s in slots && s.recipient in db.labels ==>
      && ProposedName(names, s).Some?
      && forall k :: k in db.receipts && db.receipts[k].user == db.labels[s.recipient]
                     && db.receipts[k].status == Completed
                     ==> CompletedName(names, db.receipts[k]) != ProposedName(names, s)
  }

  lemma {:induction false} CountsSlots(slots: seq<Slot>, recipient: nat)
    ensures CountOf(slots, recipient) == |SlotsFor(slots, recipient)|
  {
    if slots == [] {
      assert SlotsFor(slots, recipient) == {};
    } else {
      var n := |slots| - 1;
      CountsSlots(slots[..n], recipient);
      assert SlotsFor(slots, recipient)
             == SlotsFor(slots[..n], recipient) + (if slots[n].recipient == recipient then {n} else {});
    }
  }

  lemma AdmittedExactly(db: Db, slots: seq<Slot>, batchLimit: nat, names: Naming)
    ensures Admitted(db, slots, batchLimit) <==> FitsLimit(db, slots, batchLimit)
    ensures NoCollision(db, slots, names) <==> NoNameTaken(db, slots, names)
  {
    hide ProposedName, CompletedName, CountOf, SlotsFor, Access.ActiveCount, ActiveDevices;
    forall x: nat ensures CountOf(slots, x) == |SlotsFor(slots, x)| {
      CountsSlots(slots, x);
    }
    forall user: nat ensures Access.ActiveCount(db, user) == |ActiveDevices(db, user)| {
      Access.CountsActive(db, user);
    }
  }

  /** Counter(...): the number of slots of each recipient. */
  method CountRequested(slots: seq<Slot>) returns (requested: map<nat, nat>)
    ensures forall x :: x in requested <==> exists j :: 0 <= j < |slots| && slots[j].recipient == x
    ensures forall x :: x in requested ==> requested[x] == CountOf(slots, x)
  {
    requested := map[];
    for i := 0 to |slots|
      invariant forall x :: x in requested <==> exists j :: 0 <= j < i && slots[j].recipient == x
      invariant forall x :: x in requested ==> requested[x] == CountOf(slots[..i], x)
      invariant forall x :: x !in requested ==> CountOf(slots[..i], x) == 0
    {
      assert slots[..i + 1][..i] == slots[..i];
      ghost var counted := requested;
      var x := slots[i].recipient;
      requested := requested[x := (if x in requested then requested[x] else 0) + 1];
      forall y ensures y in requested <==> exists j :: 0 <= j < i + 1 && slots[j].recipient == y {
        assert y in requested <==> y in counted || y == slots[i].recipient;
      }
    }
    assert slots[..|slots|] == slots;
  }

  /** Checks every recipient against the batch limit, and known recipients for name collisions. */
  method AdmitFullBatch(db: Db, slots: seq<Slot>, batchLimit: nat, names: Naming) returns (ok: bool)
    ensures ok <==> Admitted(db, slots, batchLimit) && NoCollision(db, slots, names)
    ensures ok <==> FitsLimit(db, slots, batchLimit) && NoNameTaken(db, slots, names)
  {
    hide FitsLimit, NoNameTaken, CountOf, Collides, ActiveOf;
    AdmittedExactly(db, slots, batchLimit, names);
    var requested := CountRequested(slots);
    var pending := requested.Keys;
    ghost var checked: set<nat> := {};
    while pending != {}
      invariant checked + pending == requested.Keys
      invariant forall x :: x in checked ==>
        ActiveOf(db, x) + CountOf(slots, x) <= batchLimit && !Collides(db, slots, names, x)
      decreases pending
    {
      var x :| x in pending;
      var j :| 0 <= j < |slots| && slots[j].recipient == x;
      if ActiveOf(db, x) + requested[x] > batchLimit {
        return false;
      }
      if Collides(db, slots, names, x) {
        return false;
      }
      pending := pending - {x};
      checked := checked + {x};
    }
    forall i | 0 <= i < |slots|
      ensures ActiveOf(db, slots[i].recipient) + CountOf(slots, slots[i].recipient) <= batchLimit
      ensures !Collides(db, slots, names, slots[i].recipient)
    {
      assert slots[i].recipient in requested;
    }
    return true;
  }

  lemma GrownCounts(a: Db, b: Db, d: Device, user: nat)
    requires a.nextDevice !in a.devices && b.devices == a.devices[a.nextDevice := d] && d.status == Active
    ensures |ActiveDevices(b, user)| == |ActiveDevices(a, user)| + (if user == d.user then 1 else 0)
  {
    var added: set<nat> := if user == d.user then {a.nextDevice} else {};
    assert ActiveDevices(b, user) == ActiveDevices(a, user) + added by {
      forall id ensures id in ActiveDevices(b, user) <==> id in ActiveDevices(a, user) + added {
      }
    }
  }

  lemma OneMoreLabel(a: Db, b: Db, recipient: nat)
    requires LabelsOk(a)
    requires if recipient in a.labels then SamePeople(a, b) else SamePeople(b, WithRecipient(a, recipient))
    ensures LabelsOk(b) && recipient in b.labels && b.labels[recipient] == OwnerOf(a, recipient)
    ensures a.nextUser <= b.nextUser && OwnerOf(a, recipient) < b.nextUser
    ensures forall x :: x != recipient ==>
      (x in b.labels <==> x in a.labels) && (x in b.labels ==> b.labels[x] == a.labels[x])
  {
    assert b.labels == (if recipient in a.labels then a.labels else a.labels[recipient := a.nextUser]);
  }

  lemma OneMorePeople(a: Db, b: Db, recipient: nat)
    requires PeopleOk(a) && OneMore(a, b, recipient)
    ensures PeopleOk(b) && recipient in b.labels && b.labels[recipient] == OwnerOf(a, recipient)
    ensures forall x :: x != recipient ==>
      (x in b.labels <==> x in a.labels) && (x in b.labels ==> b.labels[x] == a.labels[x])
  {
    hide LabelsOk, SamePeople, WithRecipient, OwnerOf;
    OneMoreLabel(a, b, recipient);
    var d: Device :| d.user == OwnerOf(a, recipient) && d.status == Active && b.devices == a.devices[a.nextDevice := d];
    forall id | id in b.devices ensures b.devices[id].user < b.nextUser && id < b.nextDevice {
      assert id == a.nextDevice || (id in a.devices && b.devices[id] == a.devices[id]);
    }
  }

  lemma OneMoreCounts(a: Db, b: Db, recipient: nat)
    requires PeopleOk(a) && OneMore(a, b, recipient)
    ensures PeopleOk(b)
    ensures forall x :: ActiveOf(b, x) == ActiveOf(a, x) + (if x == recipient then 1 else 0)
  {
    OneMorePeople(a, b, recipient);
    OwnerCount(a, recipient);
    var d: Device :| d.user == OwnerOf(a, recipient) && d.status == Active && b.devices == a.devices[a.nextDevice := d];
    assert a.nextDevice !in a.devices;
    forall x ensures ActiveOf(b, x) == ActiveOf(a, x) + (if x == recipient then 1 else 0) {
      if x in b.labels {
        OtherOwner(a, x, recipient);
        GrownCounts(a, b, d, b.labels[x]);
      }
    }
  }

  lemma OtherOwner(db: Db, x: nat, recipient: nat)
    requires PeopleOk(db)
    ensures x in db.labels && x != recipient ==> db.labels[x] != OwnerOf(db, recipient)
  {
  }

  lemma OwnerCount(db: Db, recipient: nat)
    requires PeopleOk(db)
    ensures |ActiveDevices(db, OwnerOf(db, recipient))| == ActiveOf(db, recipient)
  {
    if recipient !in db.labels {
      assert ActiveDevices(db, db.nextUser) == {};
    }
  }

  // ----- The whole manifest -----

  /** Refused is a refusal before anything is issued, Interrupted any later exception or crash. */
  datatype IssueResult = Report(completed: bool, receipts: seq<Receipt>) | Refused | Interrupted

  /** The receipts of a request up to its first one that is not completed. */
  ghost predicate Reported(db: Db, request: nat, receipts: seq<Receipt>) {
    forall j :: 0 <= j < |receipts| ==>
      && ReceiptKey(request, j) in db.receipts && db.receipts[ReceiptKey(request, j)] == receipts[j]
      && (j < |receipts| - 1 ==> receipts[j].status == Completed)
  }

  /** A report with nothing missing: it ends with the last slot or with a receipt that is not completed. */
  ghost predicate Whole(slots: seq<Slot>, receipts: seq<Receipt>) {
    |receipts| <= |slots| && (|receipts| == |slots| || !AllCompleted(receipts))
  }

  lemma LastDecides(slots: seq<Slot>, receipts: seq<Receipt>, last: Receipt)
    requires AllCompleted(receipts) && |receipts| < |slots|
    ensures AllCompleted(receipts + [last]) <==> last.status == Completed
    ensures last.status != Completed || |receipts| + 1 == |slots| ==> Whole(slots, receipts + [last])
  {
    assert (receipts + [last])[|receipts|] == last;
  }

  ghost predicate AllCompleted(receipts: seq<Receipt>) {
    forall j :: 0 <= j < |receipts| ==> receipts[j].status == Completed
  }

  /** An unknown server, a changed manifest under a known request, or a batch that may not be admitted. */
  ghost predicate MustRefuse(db: Db, request: nat, server: nat, slots: seq<Slot>, batchLimit: nat, names: Naming) {
    || server !in db.servers
    || (if request in db.requests then db.requests[request] != IssuanceRequest(server, slots)
        else !(Admitted(db, slots, batchLimit) && NoCollision(db, slots, names)))
  }

  function WithRequest(db: Db, request: nat, q: IssuanceRequest): Db {
    db.(requests := db.requests[request := q])
  }

  method OpenRequest(
      repo: Repository<Db>, request: nat, server: nat, slots: seq<Slot>, batchLimit: nat, names: Naming, fault: Fault)
    returns (r: Option<IssueResult>)
    requires repo.Valid() && repo.depth == 0
    modifies repo
    ensures repo.Valid() && repo.depth == 0
    ensures r.None? || r == Some(Refused) || r == Some(Interrupted)
    ensures old(Book(repo.working, repo.committed))
            ==> Book(repo.working, repo.committed) && ReceiptsKept(old(repo.committed), repo.committed)
    ensures r.None? ==>
      && server in repo.working.servers && request in repo.working.requests
         && repo.working.requests[request] == IssuanceRequest(server, slots)
      && repo.working == old(repo.working).(requests := repo.working.requests)
      && (if request in old(repo.working.requests)
          then repo.working == old(repo.working) && repo.committed == old(repo.committed) && repo.open == old(repo.open)
          else Admitted(old(repo.working), slots, batchLimit) && !repo.open)
    ensures server in old(repo.working.servers) && request in old(repo.working.requests)
            ==> (r.None? <==> old(repo.working.requests[request]) == IssuanceRequest(server, slots))
    ensures r == Some(Refused) <==> MustRefuse(old(repo.working), request, server, slots, batchLimit, names)
    ensures r == Some(Interrupted) ==> fault != NoFault && request !in old(repo.working.requests)
    ensures r.None? && request !in old(repo.working.requests)
            ==> fault == NoFault
                && repo.working == WithRequest(old(repo.working), request, IssuanceRequest(server, slots))
    ensures RowsEver(repo.working, repo.committed) <= old(RowsEver(repo.working, repo.committed))
    ensures Publishes(old(repo.working), old(repo.committed), repo.working, repo.committed)
    ensures old(BothSane(repo.working, repo.committed)) ==> BothSane(repo.working, repo.committed)
    ensures r == Some(Refused) ==>
      && repo.working == old(repo.working) && repo.committed == old(repo.committed) && repo.open == old(repo.open)
  {
    hide Ledger, ReceiptsKept, Book, Admitted, Sane;
    ghost var before, durable := repo.working, repo.committed;
    Unchanged(durable);
    if server !in repo.working.servers {
      return Some(Refused);
    }
    if request in repo.working.requests {
      return if repo.working.requests[request] != IssuanceRequest(server, slots) then Some(Refused) else None;
    }
    var admitted := AdmitFullBatch(repo.working, slots, batchLimit, names);
    if !admitted {
      return Some(Refused);
    }
    var ok := repo.Write(WithRequest(repo.working, request, IssuanceRequest(server, slots)), fault);
    RequestKeepsBook(before, durable, repo.working, repo.committed, request, IssuanceRequest(server, slots));
    AlikeIsSane(before, repo.working);
    r := if ok then None else Some(Interrupted);
  }

  lemma RequestKeepsBook(working: Db, committed: Db, next: Db, published: Db, request: nat, q: IssuanceRequest)
    requires request !in working.requests && (published == committed || published == next)
    requires next == working || next == WithRequest(working, request, q)
    ensures Book(working, committed) ==> Book(next, published) && ReceiptsKept(committed, published)
  {
    hide Ledger, ReceiptsKept;
    if Book(working, committed) {
      Unchanged(working);
      RequestKeepsLedger(working, WithRequest(working, request, q), request, q);
      BookKept(working, committed, next, published);
    }
  }

  lemma RequestKeepsLedger(db: Db, next: Db, request: nat, q: IssuanceRequest)
    requires Ledger(db) && request !in db.requests
    requires next.requests == db.requests[request := q] && next.receipts == db.receipts
    ensures Ledger(next) && ReceiptsKept(db, next)
  {
  }

  /** A slot that succeeded has one more device for its recipient; one that failed for the quota had met it. */
  ghost predicate IssuedFor(recipient: nat, before: Db, after: Db, r: SlotResult, maxDevices: nat)
    requires r != Escaped
  {
    && (r.Finished? ==> r.receipt.error == NoError && OneMore(before, after, recipient))
    && (r.receipt.error == QuotaError ==> |ActiveDevices(before, OwnerOf(before, recipient))| >= maxDevices)
  }

  // ----- The course of a manifest -----

  /** A manifest, the service it runs on, and what happens around each of its slots. */
  datatype Job = Job(request: nat, server: nat, slots: seq<Slot>, maxDevices: nat, hasApplier: bool,
                     envs: nat -> SlotEnv)

  /** What the loop does at a slot. */
  datatype Visit = GoesOn | EndsWith(completed: bool) | Breaks

  ghost function VisitOf(db: Db, job: Job, i: nat): Visit
    requires i < |job.slots|
  {
    var key := ReceiptKey(job.request, i);
    if key in db.receipts then
      var r := db.receipts[key];
      if r.server != job.server || r.slot != job.slots[i] then Breaks
      else if r.status == Completed then GoesOn else EndsWith(false)
    else match IssuingOf(db, key, job.server, job.slots[i], job.maxDevices, job.hasApplier, job.envs(i))
         case Finishes => GoesOn
         case Strands => EndsWith(true)
         case Fails => EndsWith(false)
         case Escapes => Breaks
  }

  /** The database after a slot at which the loop goes on. */
  function AfterVisit(db: Db, job: Job, i: nat): Db
    requires i < |job.slots|
  {
    var key, slot := ReceiptKey(job.request, i), job.slots[i];
    if key in db.receipts then db
    else AfterSlot(StartedDb(db, key, job.server, slot), key, OwnerOf(db, slot.recipient), job.server, slot,
                   job.envs(i))
  }

  /** The peer that a visit leaves unfinished. */
  ghost function LeftAt(db: Db, job: Job, i: nat): set<Peer>
    requires i < |job.slots|
  {
    var key := ReceiptKey(job.request, i);
    if key in db.receipts then {}
    else LeftOf(db, key, job.server, job.slots[i], job.maxDevices, job.hasApplier, job.envs(i))
  }

  /** How many receipts the loop gets to from slot i on, how it ends, and which peer it then leaves unfinished. */
  datatype Course = Course(receipts: nat, ending: Visit, left: set<Peer>)

  ghost function CourseOf(db: Db, job: Job, i: nat): Course
    requires i <= |job.slots|
    decreases |job.slots| - i
  {
    if i == |job.slots| then Course(i, GoesOn, {})
    else
      var v := VisitOf(db, job, i);
      if v.GoesOn? then CourseOf(AfterVisit(db, job, i), job, i + 1) else Course(i + 1, v, LeftAt(db, job, i))
  }

  function PeerAt(job: Job, i: nat): Peer {
    Peer(job.server, job.envs(i).creation.key)
  }

  lemma GoingOnLeavesNothing(db: Db, job: Job, i: nat)
    requires i < |job.slots|
    ensures VisitOf(db, job, i) in {GoesOn, EndsWith(true)} ==> LeftAt(db, job, i) == {}
    ensures LeftAt(db, job, i) <= {PeerAt(job, i)}
  {
    hide IssuingOf, LeavesPeer, StartedDb, OwnerOf;
    var key := ReceiptKey(job.request, i);
    if key !in db.receipts {
      FinishingLeavesNothing(db, key, job.server, job.slots[i], job.maxDevices, job.hasApplier, job.envs(i));
    }
  }

  lemma {:induction false} CourseGoesOn(db: Db, job: Job, i: nat)
    requires i <= |job.slots|
    ensures CourseOf(db, job, i).receipts <= |job.slots|
    ensures CourseOf(db, job, i).ending == GoesOn ==> CourseOf(db, job, i).receipts == |job.slots|
    // Only the last slot leaves a peer, and only if it fails or breaks off.
    ensures var c := CourseOf(db, job, i);
            c.left != {} ==>
              0 < c.receipts && c.left == {PeerAt(job, c.receipts - 1)} && c.ending in {EndsWith(false), Breaks}
    decreases |job.slots| - i
  {
    hide VisitOf, AfterVisit, LeftAt, PeerAt;
    if i < |job.slots| {
      GoingOnLeavesNothing(db, job, i);
      if VisitOf(db, job, i).GoesOn? {
        CourseGoesOn(AfterVisit(db, job, i), job, i + 1);
      }
    }
  }

  lemma EscapeIsDisturbance(
      db: Db, key: ReceiptKey, server: nat, slot: Slot, maxDevices: nat, hasApplier: bool, env: SlotEnv)
    ensures IssuingOf(db, key, server, slot, maxDevices, hasApplier, env) == Escapes ==> Disturbed(env)
  {
    hide GetsToCompletion, StartedDb;
  }

  /** What the service and the log have come to. */
  datatype Tally = Tally(
    working: Db, committed: Db, open: bool, peers: set<Peer>, unfinished: set<Peer>, calls: multiset<ReceiptKey>,
    maxDevices: nat)
  {
    function InWorld(): World {
      World(working, committed, open, peers, unfinished)
    }
  }

  ghost function TallyOf(service: Access.AccessService, log: CallLog): Tally
    reads service.repo, service.remote, log
  {
    Tally(service.repo.working, service.repo.committed, service.repo.open, service.remote.peers,
          service.remote.unfinished, log.calls, service.maxDevices)
  }

  ghost predicate Once(a: Tally) {
    AtMostOnce(a.working, a.committed, a.calls)
  }

  /** No creation is asked for twice, receipts are kept, and every device row inserted and every peer added since
      has a call of its own. */
  ghost predicate Keeps(a: Tally, b: Tally) {
    && (Once(a) ==> Once(b) && ReceiptsKept(a.committed, b.committed))
    && RowsEver(b.working, b.committed) + |a.calls| <= RowsEver(a.working, a.committed) + |b.calls|
    && |b.peers| + |a.calls| <= |a.peers| + |b.calls|
    && b.maxDevices == a.maxDevices && Leads(a.InWorld(), b.InWorld(), a.maxDevices)
  }

  ghost predicate KeepsSane(a: Tally, b: Tally) {
    BothSane(a.working, a.committed) ==> BothSane(b.working, b.committed)
  }

  ghost predicate IsNumbered(job: Job) {
    forall i :: 0 <= i < |job.slots| ==> IsNumberedSlot(job.slots[i])
  }

  lemma KeepsOn(a: Tally, b: Tally, c: Tally)
    requires Keeps(a, b) && Keeps(b, c)
    ensures Keeps(a, c)
  {
    hide Once, ReceiptsKept, RowsEver, Leads;
    LeadsOn(a.InWorld(), b.InWorld(), c.InWorld(), a.maxDevices);
    if Once(a) {
      KeptOn(a.committed, b.committed, c.committed);
    }
  }

  lemma KeepsItself(a: Tally)
    ensures Keeps(a, a)
  {
    hide Once, Leads;
    Unchanged(a.committed);
    StayingLeads(a.InWorld(), a.maxDevices);
  }

  lemma OnceIsLedger(a: Tally)
    ensures Once(a) ==> Ledger(a.working)
  {
    BookOfOnce(a.working, a.committed, a.calls);
    LedgerOfBook(a.working, a.committed);
  }

  lemma PeersGrow(older: set<Peer>, newer: set<Peer>, peer: Peer)
    requires newer <= older + {peer}
    ensures |newer| <= |older| + 1
  {
    SizeOfSubset(newer, older + {peer});
    assert older + {peer} == if peer in older then older else older + {peer};
  }

  ghost predicate Known(db: Db, job: Job) {
    && job.request in db.requests && job.server in db.servers
    && db.requests[job.request] == IssuanceRequest(job.server, job.slots)
  }

  /** What one turn of the loop does: an existing receipt is taken as it is, a missing one is issued. */
  ghost predicate Turn(a: Tally, b: Tally, job: Job, receipts: seq<Receipt>, r: SlotResult)
    requires |receipts| < |job.slots|
  {
    var i, key := |receipts|, ReceiptKey(job.request, |receipts|);
    var v := VisitOf(a.working, job, i);
    && Keeps(a, b) && b.unfinished == a.unfinished + LeftAt(a.working, job, i)
    && (IsNumberedSlot(job.slots[i]) ==> KeepsSane(a, b))
    && (r.Finished? <==> v.GoesOn?) && (r.Escaped? <==> v.Breaks?)
    && (r.Finished? ==> r.receipt.status == Completed && b.working == AfterVisit(a.working, job, i))
    && (r.Stopped? ==>
          v == EndsWith(r.receipt.status == Completed) && (r.receipt.status == Completed ==> job.envs(i).commitFails))
    && (r.Escaped? ==> Disturbed(job.envs(i)) || !Ledger(a.working))
    && (key in a.working.receipts
        ==> b == a && (Ledger(a.working) ==> r != Escaped) && (r.Stopped? ==> r.receipt.status != Completed))
    && (key !in a.working.receipts && r != Escaped
        ==> IssuedFor(job.slots[i].recipient, a.working, b.working, r, job.maxDevices))
    && (r != Escaped ==>
          && b.working.requests == a.working.requests && b.working.servers == a.working.servers
          && Reported(b.working, job.request, receipts + [r.receipt])
          && b.working.receipts == a.working.receipts[key := r.receipt])
  }

  lemma TurnOfTaken(a: Tally, job: Job, receipts: seq<Receipt>)
    requires |receipts| < |job.slots| && ReceiptKey(job.request, |receipts|) in a.working.receipts
    requires Known(a.working, job) && Reported(a.working, job.request, receipts) && AllCompleted(receipts)
    ensures var i, receipt := |receipts|, a.working.receipts[ReceiptKey(job.request, |receipts|)];
            Turn(a, a, job, receipts, if receipt.server != job.server || receipt.slot != job.slots[i] then Escaped
                                      else if receipt.status == Completed then Finished(receipt) else Stopped(receipt))
  {
    hide Ledger, Reported, IssuingOf, AfterSlot, StartedDb, Disturbed, Keeps, LeftOf;
    var db, key := a.working, ReceiptKey(job.request, |receipts|);
    LedgerMatches(db, key);
    KeepsItself(a);
    assert db.receipts == db.receipts[key := db.receipts[key]];
    ReportedGrows(db, db, job.request, receipts, db.receipts[key]);
  }

  /** One turn of the loop over the slots. */
  method VisitSlot(service: Access.AccessService, log: CallLog, job: Job, receipts: seq<Receipt>)
    returns (r: SlotResult)
    requires service.repo.Valid() && service.repo.depth == 0 && |receipts| < |job.slots|
    requires job.maxDevices == service.maxDevices && job.hasApplier == service.hasApplier
    requires Known(service.repo.working, job)
    requires Reported(service.repo.working, job.request, receipts) && AllCompleted(receipts)
    modifies service.repo, service.remote, log
    ensures service.repo.Valid() && service.repo.depth == 0
    ensures Turn(old(TallyOf(service, log)), TallyOf(service, log), job, receipts, r)
  {
    hide Ledger, ReceiptsKept, Book, AtMostOnce, OneMore, MayStart, ActiveDevices, OwnerOf, Reported, IssuingOf,
      AfterSlot, StartedDb, RowsEver, Disturbed, Leads, LeftOf, BothSane;
    var repo := service.repo;
    ghost var before, first, peers := repo.working, TallyOf(service, log), service.remote.peers;
    var i, key := |receipts|, ReceiptKey(job.request, |receipts|);
    var slot, env := job.slots[i], job.envs(i);
    if key in repo.working.receipts {
      var receipt := repo.working.receipts[key];
      TurnOfTaken(first, job, receipts);
      if receipt.server != job.server || receipt.slot != slot {
        return Escaped;
      }
      return if receipt.status == Completed then Finished(receipt) else Stopped(receipt);
    }
    MayStartNext(repo.working, job.request, job.server, job.slots, receipts);
    EscapeIsDisturbance(before, key, job.server, slot, service.maxDevices, service.hasApplier, env);
    r := IssueSlot(service, log, key, job.server, slot, env);
    PeersGrow(peers, service.remote.peers, Peer(job.server, env.creation.key));
    if r != Escaped {
      ReportedGrows(before, repo.working, job.request, receipts, r.receipt);
    }
  }

  // ----- The loop -----

  /** A request for which nothing was issued yet, in a database with one canonical identity per recipient. */
  ghost predicate Untouched(db: Db, request: nat) {
    PeopleOk(db) && forall j :: ReceiptKey(request, j) !in db.receipts
  }

  /** A new batch that was admitted under a limit no larger than the quota. */
  ghost predicate IsNew(db: Db, job: Job, batchLimit: nat) {
    Untouched(db, job.request) && Admitted(db, job.slots, batchLimit) && batchLimit <= job.maxDevices
  }

  ghost predicate IsSettled(db: Db, job: Job) {
    Ledger(db) && Settled(db, job.request, job.server, job.slots)
  }

  /** Where the loop is after the given receipts, all of them completed. */
  ghost predicate Going(first: Tally, now: Tally, job: Job, batchLimit: nat, receipts: seq<Receipt>) {
    && |receipts| <= |job.slots| && Known(now.working, job) && Keeps(first, now)
    && AllCompleted(receipts) && Reported(now.working, job.request, receipts)
    && CourseOf(now.working, job, |receipts|) == CourseOf(first.working, job, 0)
    && now.unfinished == first.unfinished && (IsNumbered(job) ==> KeepsSane(first, now))
    && (IsNew(first.working, job, batchLimit)
        ==> BatchOn(first.working, now.working, job.request, job.slots, receipts) && NoQuotaError(receipts))
    && (IsSettled(first.working, job) ==> now == first)
  }

  /** What the whole loop does. */
  ghost predicate IssuedAs(first: Tally, now: Tally, job: Job, batchLimit: nat, r: IssueResult) {
    var c := CourseOf(first.working, job, 0);
    && Keeps(first, now) && r != Refused
    && now.unfinished == first.unfinished + c.left && (IsNumbered(job) ==> KeepsSane(first, now))
    && (IsSettled(first.working, job) ==>
          r.Report? && Reported(first.working, job.request, r.receipts) && Whole(job.slots, r.receipts) && now == first)
    && (r.Report? ==>
          && Known(now.working, job) && Reported(now.working, job.request, r.receipts)
          && |r.receipts| <= |job.slots| && (r.completed <==> AllCompleted(r.receipts))
          && |r.receipts| == c.receipts && (r.completed <==> c.ending == GoesOn || c.ending == EndsWith(true))
          && (r.completed && |r.receipts| < |job.slots| ==> r.receipts != [] && job.envs(|r.receipts| - 1).commitFails)
          && (IsNew(first.working, job, batchLimit) ==> NoQuotaError(r.receipts)))
    && (r.Interrupted? <==> c.ending == Breaks)
    && (r.Interrupted? && Once(first) ==> exists i :: 0 <= i < |job.slots| && Disturbed(job.envs(i)))
  }

  lemma GoingStarts(first: Tally, job: Job, batchLimit: nat)
    requires Known(first.working, job)
    ensures Going(first, first, job, batchLimit, [])
  {
    hide Keeps, CourseOf, BatchOn, Untouched, Admitted, IsSettled;
    KeepsItself(first);
    NoneReported(first.working, job.request);
    BatchStarts(first.working, job.request, job.slots);
  }

  lemma GoingOn(first: Tally, a: Tally, b: Tally, job: Job, batchLimit: nat, receipts: seq<Receipt>, r: SlotResult)
    requires Going(first, a, job, batchLimit, receipts) && |receipts| < |job.slots| && Turn(a, b, job, receipts, r)
    ensures match r
            case Finished(receipt) => Going(first, b, job, batchLimit, receipts + [receipt])
            case Stopped(receipt) =>
              IssuedAs(first, b, job, batchLimit, Report(receipt.status == Completed, receipts + [receipt]))
            case Escaped => IssuedAs(first, b, job, batchLimit, Interrupted)
  {
    hide Keeps, Once, Ledger, BatchOn, NoQuotaError, IsNew, Settled, Reported, AllCompleted, Whole, VisitOf,
      AfterVisit, IssuedFor, Disturbed, LeftAt, BothSane;
    GoingOnLeavesNothing(a.working, job, |receipts|);
    KeepsOn(first, a, b);
    SettledNext(a.working, job.request, job.server, job.slots, receipts);
    OnceIsLedger(a);
    OnceKept(first, a);
    if r != Escaped {
      LastDecides(job.slots, receipts, r.receipt);
      if IsNew(first.working, job, batchLimit) {
        NewIsAdmitted(first.working, job, batchLimit);
        BatchGoesOn(first.working, a.working, b.working, job.request, job.slots, batchLimit, receipts, r,
                    job.maxDevices);
      }
    }
  }

  lemma NewIsAdmitted(db: Db, job: Job, batchLimit: nat)
    requires IsNew(db, job, batchLimit)
    ensures Admitted(db, job.slots, batchLimit) && batchLimit <= job.maxDevices
  {
  }

  lemma OnceKept(a: Tally, b: Tally)
    ensures Keeps(a, b) && Once(a) ==> Once(b)
  {
    hide Once;
  }

  lemma GoingEnds(first: Tally, now: Tally, job: Job, batchLimit: nat, receipts: seq<Receipt>)
    requires Going(first, now, job, batchLimit, receipts) && |receipts| == |job.slots|
    ensures IssuedAs(first, now, job, batchLimit, Report(true, receipts))
  {
    hide Keeps, Once, Ledger, BatchOn, NoQuotaError, IsNew, IsSettled, Reported, AllCompleted;
  }

  /** The loop over the slots of a manifest, up to the first one that does not succeed. */
  method IssueSlots(service: Access.AccessService, log: CallLog, job: Job, ghost batchLimit: nat)
    returns (r: IssueResult)
    requires service.repo.Valid() && service.repo.depth == 0
    requires job.maxDevices == service.maxDevices && job.hasApplier == service.hasApplier
    requires Known(service.repo.working, job)
    modifies service.repo, service.remote, log
    ensures service.repo.Valid() && service.repo.depth == 0
    ensures IssuedAs(old(TallyOf(service, log)), TallyOf(service, log), job, batchLimit, r)
  {
    hide IssuedAs, Keeps, CourseOf, Turn, BatchOn, IsNew, IsSettled;
    ghost var first := TallyOf(service, log);
    var receipts: seq<Receipt> := [];
    GoingStarts(first, job, batchLimit);
    for i := 0 to |job.slots|
      invariant service.repo.Valid() && service.repo.depth == 0 && |receipts| == i
      invariant Going(first, TallyOf(service, log), job, batchLimit, receipts)
    {
      ghost var mid := TallyOf(service, log);
      var result := VisitSlot(service, log, job, receipts);
      GoingOn(first, mid, TallyOf(service, log), job, batchLimit, receipts, result);
      match result {
        case Escaped => return Interrupted;
        case Stopped(receipt) => return Report(receipt.status == Completed, receipts + [receipt]);
        case Finished(receipt) => receipts := receipts + [receipt];
      }
    }
    GoingEnds(first, TallyOf(service, log), job, batchLimit, receipts);
    return Report(true, receipts);
  }

  method IssueManifest(
      service: Access.AccessService, log: CallLog, job: Job, batchLimit: nat, names: Naming, requestFault: Fault)
    returns (r: IssueResult)
    requires service.repo.Valid() && service.repo.depth == 0
    requires job.maxDevices == service.maxDevices && job.hasApplier == service.hasApplier
    modifies service.repo, service.remote, log
    ensures service.repo.Valid() && service.repo.depth == 0
    // At most once, over any number of runs, faults and crashes.
    ensures Keeps(old(TallyOf(service, log)), TallyOf(service, log))
    // A request whose receipts end the matter is answered from them, and nothing changes.
    ensures job.server in old(service.repo.working.servers) && IsSettled(old(service.repo.working), job) ==>
      && r.Report? && Reported(old(service.repo.working), job.request, r.receipts) && Whole(job.slots, r.receipts)
      && TallyOf(service, log) == old(TallyOf(service, log))
    // The report tells the stored receipts.
    ensures r.Report? ==>
      && Known(service.repo.working, job) && Reported(service.repo.working, job.request, r.receipts)
      && |r.receipts| <= |job.slots| && (r.completed <==> AllCompleted(r.receipts))
      && (r.completed && |r.receipts| < |job.slots| ==> r.receipts != [] && job.envs(|r.receipts| - 1).commitFails)
    // Exactly when it is refused, when it breaks off, and how long the report is.
    ensures r == Refused <==> MustRefuse(old(service.repo.working), job.request, job.server, job.slots, batchLimit,
                                         names)
    ensures r != Refused ==>
      var opens := Opens(old(service.repo.working), job, requestFault);
      var c := CourseOf(Opened(old(service.repo.working), job), job, 0);
      && (r.Interrupted? <==> !opens || c.ending == Breaks)
      && (r.Report? ==>
            |r.receipts| == c.receipts && (r.completed <==> c.ending == GoesOn || c.ending == EndsWith(true)))
      // A short report is called completed exactly when its last slot strands.
      && (r.Report? ==> (r.completed && |r.receipts| < |job.slots|
                         <==> c.ending == EndsWith(true) && c.receipts < |job.slots|))
    // Exactly which peer it leaves unfinished.
    ensures service.remote.unfinished
            == old(service.remote.unfinished) + LeftIssuing(old(service.repo.working), job, requestFault, r)
    ensures IsNumbered(job) ==> KeepsSane(old(TallyOf(service, log)), TallyOf(service, log))
    ensures Once(old(TallyOf(service, log))) && r == Interrupted
            ==> requestFault != NoFault || exists i :: 0 <= i < |job.slots| && Disturbed(job.envs(i))
    // No slot of an admitted batch fails for the quota.
    ensures old(PeopleOk(service.repo.working)) && old(Ledger(service.repo.working))
            && job.request !in old(service.repo.working.requests) && batchLimit <= service.maxDevices && r.Report?
            ==> NoQuotaError(r.receipts)
  {
    hide Ledger, Book, Keeps, Once, PeopleOk, Admitted, Settled, ActiveOf, Reported, MustRefuse, AllCompleted, Whole,
      CourseOf, NoQuotaError, Disturbed, BothSane, Publishes, ReceiptsKept, RowsEver, IsNumbered, LeftOf, OwnerOf;
    var repo := service.repo;
    ghost var base, first := repo.working, TallyOf(service, log);
    SettledIsKnown(base, job.request, job.server, job.slots);
    var refusal := OpenRequest(repo, job.request, job.server, job.slots, batchLimit, names, requestFault);
    ghost var mid := TallyOf(service, log);
    OpeningKeeps(first, mid);
    if refusal.Some? {
      return refusal.value;
    }
    PeopleAlike(base, repo.working, job.slots, batchLimit);
    FreshHasNone(base, job.request);
    CourseGoesOn(Opened(base, job), job, 0);
    r := IssueSlots(service, log, job, batchLimit);
    KeepsOn(first, mid, TallyOf(service, log));
    OnceKept(first, mid);
  }

  predicate Opens(db: Db, job: Job, fault: Fault) {
    job.request in db.requests || fault == NoFault
  }

  /** The peer that a manifest leaves unfinished. */
  ghost function LeftIssuing(db: Db, job: Job, fault: Fault, r: IssueResult): set<Peer> {
    if r == Refused || !Opens(db, job, fault) then {} else CourseOf(Opened(db, job), job, 0).left
  }

  /** It is that of the last slot visited, and the report does not call that one completed. */
  lemma {:induction false} LeftIsTheLast(db: Db, job: Job, fault: Fault, r: IssueResult)
    requires LeftIssuing(db, job, fault, r) != {}
    ensures var c := CourseOf(Opened(db, job), job, 0);
            && 0 < c.receipts <= |job.slots| && c.ending in {EndsWith(false), Breaks}
            && LeftIssuing(db, job, fault, r) == {PeerAt(job, c.receipts - 1)}
  {
    hide CourseOf, Opened, PeerAt;
    CourseGoesOn(Opened(db, job), job, 0);
  }

  /** The database once the request is on record. */
  function Opened(db: Db, job: Job): Db {
    if job.request in db.requests then db
    else WithRequest(db, job.request, IssuanceRequest(job.server, job.slots))
  }

  /** Opening a request creates nothing. */
  lemma OpeningKeeps(a: Tally, b: Tally)
    requires b == a.(working := b.working, committed := b.committed, open := b.open)
    requires PublishStep(a.InWorld(), b.InWorld())
    requires RowsEver(b.working, b.committed) <= RowsEver(a.working, a.committed)
    requires Book(a.working, a.committed) ==> Book(b.working, b.committed) && ReceiptsKept(a.committed, b.committed)
    ensures Keeps(a, b)
  {
    hide Book, ReceiptsKept, RowsEver, Leads;
    StepLeads(a.InWorld(), b.InWorld(), a.maxDevices);
    BookOfOnce(a.working, a.committed, a.calls);
    OnceSame(a.working, a.committed, a.calls, b.working, b.committed);
  }

  /** The receipts of a known request leave nothing to issue: all are completed, or some is not. */
  ghost predicate Settled(db: Db, request: nat, server: nat, slots: seq<Slot>) {
    && request in db.requests && db.requests[request] == IssuanceRequest(server, slots)
    && ((forall i :: 0 <= i < |slots| ==> ReceiptKey(request, i) in db.receipts)
        || exists i :: 0 <= i < |slots| && ReceiptKey(request, i) in db.receipts
                       && db.receipts[ReceiptKey(request, i)].status != Completed)
  }

  lemma SettledIsKnown(db: Db, request: nat, server: nat, slots: seq<Slot>)
    ensures Settled(db, request, server, slots)
            ==> request in db.requests && db.requests[request] == IssuanceRequest(server, slots)
  {
  }

  lemma ReportedGrows(a: Db, b: Db, request: nat, receipts: seq<Receipt>, next: Receipt)
    requires Reported(a, request, receipts) && AllCompleted(receipts)
    requires b.receipts == a.receipts[ReceiptKey(request, |receipts|) := next]
    ensures Reported(b, request, receipts + [next])
  {
  }

  lemma NoneReported(db: Db, request: nat)
    ensures Reported(db, request, []) && AllCompleted([])
  {
  }

  lemma MayStartNext(db: Db, request: nat, server: nat, slots: seq<Slot>, receipts: seq<Receipt>)
    requires |receipts| < |slots| && ReceiptKey(request, |receipts|) !in db.receipts
    requires request in db.requests && db.requests[request] == IssuanceRequest(server, slots)
    requires Reported(db, request, receipts) && AllCompleted(receipts)
    ensures MayStart(db, ReceiptKey(request, |receipts|), server, slots[|receipts|])
  {
  }

  /** A settled request whose first receipts are all completed has the next one too. */
  lemma SettledNext(db: Db, request: nat, server: nat, slots: seq<Slot>, receipts: seq<Receipt>)
    requires |receipts| < |slots| && Reported(db, request, receipts) && AllCompleted(receipts)
    ensures Ledger(db) && Settled(db, request, server, slots) ==> ReceiptKey(request, |receipts|) in db.receipts
  {
  }

  lemma PeopleAlike(a: Db, b: Db, slots: seq<Slot>, batchLimit: nat)
    requires b == a.(requests := b.requests)
    ensures PeopleOk(a) <==> PeopleOk(b)
    ensures Admitted(a, slots, batchLimit) <==> Admitted(b, slots, batchLimit)
  {
    assert forall x :: ActiveOf(b, x) == ActiveOf(a, x);
  }

  lemma FreshHasNone(db: Db, request: nat)
    ensures Ledger(db) && request !in db.requests ==> forall j :: ReceiptKey(request, j) !in db.receipts
  {
  }

  lemma LedgerMatches(db: Db, key: ReceiptKey)
    requires key in db.receipts
    ensures Ledger(db) ==>
      && key.request in db.requests && key.index < |db.requests[key.request].slots|
      && db.receipts[key].server == db.requests[key.request].server
      && db.receipts[key].slot == db.requests[key.request].slots[key.index]
  {
  }

  /** The first i slots have been issued since base, and nothing else was created. */
  ghost predicate Counted(base: Db, db: Db, slots: seq<Slot>, i: nat)
    requires i <= |slots|
  {
    PeopleOk(db) && forall x :: ActiveOf(db, x) == ActiveOf(base, x) + CountOf(slots[..i], x)
  }

  lemma NoneCounted(db: Db, slots: seq<Slot>)
    ensures PeopleOk(db) ==> Counted(db, db, slots, 0)
  {
    hide PeopleOk, ActiveOf;
  }

  /** A slot of an admitted batch never meets the quota, and if it succeeds one more slot is counted. */
  lemma {:induction false} StepOfBatch(
      base: Db, db: Db, next: Db, slots: seq<Slot>, batchLimit: nat, i: nat, r: SlotResult, maxDevices: nat)
    requires i < |slots| && r != Escaped && batchLimit <= maxDevices
    requires Counted(base, db, slots, i) && Admitted(base, slots, batchLimit)
    requires IssuedFor(slots[i].recipient, db, next, r, maxDevices)
    ensures r.receipt.error != QuotaError
    ensures r.Finished? ==> r.receipt.error == NoError && Counted(base, next, slots, i + 1)
  {
    hide PeopleOk, ActiveOf, OwnerOf, ActiveDevices, OneMore;
    OwnerCount(db, slots[i].recipient);
    CountBelow(slots, i);
    if r.Finished? {
      OneMoreCounts(db, next, slots[i].recipient);
    }
  }

  ghost predicate NoQuotaError(receipts: seq<Receipt>) {
    forall j :: 0 <= j < |receipts| ==> receipts[j].error != QuotaError
  }

  /** The receipts so far succeeded, one device each, and there is none for a later slot. */
  ghost predicate BatchOn(base: Db, db: Db, request: nat, slots: seq<Slot>, receipts: seq<Receipt>) {
    && |receipts| <= |slots| && Counted(base, db, slots, |receipts|)
    && forall j :: |receipts| <= j ==> ReceiptKey(request, j) !in db.receipts
  }

  lemma BatchStarts(db: Db, request: nat, slots: seq<Slot>)
    ensures Untouched(db, request) ==> BatchOn(db, db, request, slots, []) && NoQuotaError([])
  {
    hide PeopleOk, Counted;
    NoneCounted(db, slots);
  }

  lemma BatchGoesOn(
      base: Db, db: Db, next: Db, request: nat, slots: seq<Slot>, batchLimit: nat, receipts: seq<Receipt>,
      r: SlotResult, maxDevices: nat)
    requires |receipts| < |slots| && r != Escaped && batchLimit <= maxDevices && Admitted(base, slots, batchLimit)
    requires BatchOn(base, db, request, slots, receipts) && NoQuotaError(receipts)
    requires next.receipts == db.receipts[ReceiptKey(request, |receipts|) := r.receipt]
    requires ReceiptKey(request, |receipts|) !in db.receipts
             ==> IssuedFor(slots[|receipts|].recipient, db, next, r, maxDevices)
    ensures NoQuotaError(receipts + [r.receipt])
    ensures r.Finished? ==> BatchOn(base, next, request, slots, receipts + [r.receipt])
  {
    hide Admitted, Counted, IssuedFor;
    StepOfBatch(base, db, next, slots, batchLimit, |receipts|, r, maxDevices);
  }

  lemma {:induction false} CountBelow(slots: seq<Slot>, i: nat)
    requires i < |slots|
    ensures CountOf(slots[..i], slots[i].recipient) < CountOf(slots, slots[i].recipient)
    ensures forall x ::
      CountOf(slots[..i + 1], x) == CountOf(slots[..i], x) + (if x == slots[i].recipient then 1 else 0)
  {
    var n := |slots| - 1;
    assert slots[..i + 1][..i] == slots[..i];
    if i < n {
      CountBelow(slots[..n], i);
      assert slots[..n][..i] == slots[..i] && slots[..n][..i + 1] == slots[..i + 1];
    } else {
      assert slots[..i + 1] == slots;
    }
  }

  // ----- Replays -----

  lemma WholeIsSettled(db: Db, request: nat, server: nat, slots: seq<Slot>, receipts: seq<Receipt>)
    requires request in db.requests && db.requests[request] == IssuanceRequest(server, slots)
    requires Reported(db, request, receipts) && Whole(slots, receipts)
    ensures Settled(db, request, server, slots)
  {
    if !AllCompleted(receipts) {
      var j :| 0 <= j < |receipts| && receipts[j].status != Completed;
      assert ReceiptKey(request, j) in db.receipts;
    }
  }

  lemma WholeReportIsUnique(db: Db, request: nat, slots: seq<Slot>, a: seq<Receipt>, b: seq<Receipt>)
    requires Reported(db, request, a) && Reported(db, request, b) && Whole(slots, a) && Whole(slots, b)
    ensures a == b
  {
    assert forall j :: 0 <= j < |a| && j < |b| ==> db.receipts[ReceiptKey(request, j)] == a[j] == b[j];
  }

  /** Replaying a manifest that was reported in full changes nothing and gives the same report. */
  method IssueTwice(
      service: Access.AccessService, log: CallLog, job: Job, later: Job, batchLimit: nat, names: Naming,
      requestFault: Fault)
    returns (r: IssueResult, replay: IssueResult, ghost between: Tally)
    requires service.repo.Valid() && service.repo.depth == 0
    requires job.maxDevices == service.maxDevices && job.hasApplier == service.hasApplier
    requires later == job.(envs := later.envs)
    requires Once(TallyOf(service, log))
    modifies service.repo, service.remote, log
    ensures r.Report? && Whole(job.slots, r.receipts) ==> replay == r && between == TallyOf(service, log)
    ensures r.Report? ==> Whole(job.slots, r.receipts) || (r.receipts != [] && job.envs(|r.receipts| - 1).commitFails)
  {
    hide Keeps, Once, Ledger, PeopleOk, Settled, Reported, CourseOf, MustRefuse, Disturbed, NoQuotaError;
    ghost var first := TallyOf(service, log);
    r := IssueManifest(service, log, job, batchLimit, names, requestFault);
    between := TallyOf(service, log);
    OnceKept(first, between);
    OnceIsLedger(between);
    if r.Report? && Whole(job.slots, r.receipts) {
      WholeIsSettled(service.repo.working, job.request, job.server, job.slots, r.receipts);
    }
    replay := IssueManifest(service, log, later, batchLimit, names, requestFault);
    if r.Report? && Whole(job.slots, r.receipts) {
      WholeReportIsUnique(service.repo.working, job.request, job.slots, r.receipts, replay.receipts);
    }
  }

  lemma LedgerOfBook(working: Db, committed: Db)
    ensures Book(working, committed) ==> Ledger(working)
  {
  }

  /** A run of a manifest on the connection as it is, or a new connection, which forgets what was pending. */
  datatype Session =
    | Issue(job: Job, batchLimit: nat, names: Naming, fault: Fault)
    | Reopen

  predicate RunsOn(s: Session, service: Access.AccessService) {
    s.Issue? ==> s.job.maxDevices == service.maxDevices && s.job.hasApplier == service.hasApplier
  }

  lemma ReopeningKeeps(a: Tally, b: Tally)
    requires b == a.(working := a.committed, open := false)
    ensures Keeps(a, b) && KeepsSane(a, b)
  {
    hide Ledger, Leads, Sane;
    Unchanged(a.committed);
    StepLeads(a.InWorld(), b.InWorld(), a.maxDevices);
  }

  lemma {:induction false} CallsAreReceipts(calls: multiset<ReceiptKey>, keys: set<ReceiptKey>)
    requires forall key :: calls[key] <= 1 && (key in calls ==> key in keys)
    ensures |calls| <= |keys|
    decreases |calls|
  {
    if calls != multiset{} {
      var key :| key in calls;
      CallsAreReceipts(calls - multiset{key}, keys - {key});
    }
  }

  /** What the count of calls and the run of steps say in the end. */
  lemma TalliedSinceNothing(first: Tally, last: Tally)
    requires Once(first) && Keeps(first, last) && first.calls == multiset{}
    ensures forall key :: last.calls[key] <= 1
    ensures Ledger(last.committed)
    ensures RowsEver(last.working, last.committed)
            <= RowsEver(first.working, first.committed) + |last.committed.receipts|
    ensures |last.peers| <= |first.peers| + |last.committed.receipts|
    ensures Safe(first.InWorld()) ==>
      Safe(last.InWorld()) && (Ordered(first.InWorld(), first.maxDevices) ==> Ordered(last.InWorld(), first.maxDevices))
  {
    hide Ledger, ReceiptsKept, RowsEver, Leads, Safe, Ordered;
    CallsAreReceipts(last.calls, last.committed.receipts.Keys);
    assert |last.committed.receipts.Keys| == |last.committed.receipts|;
    if Safe(first.InWorld()) {
      LeadsSafely(first.InWorld(), last.InWorld(), first.maxDevices);
    }
  }

  lemma NothingAskedYet(a: Tally)
    requires a.working.receipts == map[] && a.committed.receipts == map[] && a.calls == multiset{}
    requires ReceiptsKept(a.committed, a.working)
    ensures Once(a)
  {
  }

  /** Any runs of any manifests, each on the same connection as the last or on a new one, from an empty ledger: no
      creation is asked for twice, and no more devices are inserted and peers added, pending, stranded and crashed
      creations included, than there are durable receipts. Safe states stay safe and sane ones sane. */
  method IssueAll(service: Access.AccessService, log: CallLog, sessions: seq<Session>)
    requires service.repo.Valid() && service.repo.depth == 0
    requires forall s :: s in sessions ==> RunsOn(s, service)
    requires service.repo.working.receipts == map[] && service.repo.committed.receipts == map[]
             && log.calls == multiset{}
    requires ReceiptsKept(service.repo.committed, service.repo.working)
    modifies service.repo, service.remote, log
    ensures service.repo.Valid() && service.repo.depth == 0
    ensures forall key :: log.calls[key] <= 1
    ensures Ledger(service.repo.committed)
    ensures RowsEver(service.repo.working, service.repo.committed)
            <= old(RowsEver(service.repo.working, service.repo.committed)) + |service.repo.committed.receipts|
    ensures |service.remote.peers| <= |old(service.remote.peers)| + |service.repo.committed.receipts|
    ensures old(Safe(WorldOf(service.repo, service.remote))) ==>
      && Safe(WorldOf(service.repo, service.remote))
      && (old(Ordered(WorldOf(service.repo, service.remote), service.maxDevices))
          ==> Ordered(WorldOf(service.repo, service.remote), service.maxDevices))
    ensures old(BothSane(service.repo.working, service.repo.committed))
            && (forall s :: s in sessions && s.Issue? ==> IsNumbered(s.job))
            ==> BothSane(service.repo.working, service.repo.committed)
  {
    hide Known, IsSettled, Reported, PeopleOk, ReceiptsKept, RowsEver, CourseOf, MustRefuse, NoQuotaError, Leads,
      BothSane, IsNumbered, Safe, Ordered, LeftIssuing, Disturbed, Keeps, Once, Ledger, Whole, AllCompleted, Settled;
    ghost var first := TallyOf(service, log);
    NothingAskedYet(first);
    KeepsItself(first);
    for i := 0 to |sessions|
      invariant service.repo.Valid() && service.repo.depth == 0
      invariant Once(first) && Keeps(first, TallyOf(service, log))
      invariant (forall s :: s in sessions && s.Issue? ==> IsNumbered(s.job))
                ==> KeepsSane(first, TallyOf(service, log))
    {
      ghost var mid := TallyOf(service, log);
      assert RunsOn(sessions[i], service);
      match sessions[i] {
        case Issue(job, batchLimit, names, fault) =>
          var _ := IssueManifest(service, log, job, batchLimit, names, fault);
        case Reopen =>
          service.repo.Restart();
          ReopeningKeeps(mid, TallyOf(service, log));
      }
      KeepsOn(first, mid, TallyOf(service, log));
    }
    TalliedSinceNothing(first, TallyOf(service, log));
  }

  // ----- A short report that is called completed -----

  function ExampleSlot(sequence: nat): Slot {
    Slot(0, 1, RecipientUnassigned, sequence, sequence + 1, 0, 0)
  }

  /** One known recipient and one server. */
  function ExampleDb(): Db {
    Access.ExampleDb().(labels := map[1 := 7])
  }

  /** Nothing fails but the commit of the receipt's completion. */
  function ExampleEnv(): SlotEnv {
    SlotEnv(Access.Env(1, 0, 0, (i: nat) => Some([]), p => false), NoFault, NoFault, NoCrash,
            false, false, false, false, true, NoFault)
  }

  function ExampleJob(): Job {
    Job(4, 3, [ExampleSlot(1), ExampleSlot(2)], 5, true, i => ExampleEnv())
  }

  function ExampleNaming(): Naming {
    Naming(x => "Ann", d => "Phone", s => s)
  }

  lemma ExampleHasNames()
    ensures !Collides(ExampleDb(), ExampleJob().slots, ExampleNaming(), 1)
  {
    hide ProposedName;
    NamedWhenUnpadded(ExampleNaming(), ExampleSlot(1));
    NamedWhenUnpadded(ExampleNaming(), ExampleSlot(2));
  }

  lemma ExampleIsAdmitted()
    ensures !MustRefuse(ExampleDb(), 4, 3, ExampleJob().slots, 5, ExampleNaming())
  {
    hide Collides;
    var slots := ExampleJob().slots;
    ExampleHasNames();
    assert slots[..1] == [ExampleSlot(1)] && slots[..1][..0] == [];
    assert ActiveDevices(ExampleDb(), 7) == {};
    assert CountOf([ExampleSlot(1)], 1) == 1;
    assert CountOf(slots, 1) == 2;
  }

  lemma ExampleCreationSucceeds(db: Db)
    requires db == StartedDb(Opened(ExampleDb(), ExampleJob()), ReceiptKey(4, 0), 3, ExampleSlot(1))
    ensures GetsToCompletion(db, 7, 3, ExampleSlot(1), 5, true, ExampleEnv())
  {
    hide Access.ChosenIp, LocalIps, ActiveDevices, Allocate;
    Access.ExampleIsEmpty(db);
    Access.ExampleIsAllocated(db, ExampleEnv().creation);
  }

  lemma ExampleStrands()
    ensures CourseOf(Opened(ExampleDb(), ExampleJob()), ExampleJob(), 0) == Course(1, EndsWith(true), {})
  {
    hide GetsToCompletion;
    ExampleCreationSucceeds(StartedDb(Opened(ExampleDb(), ExampleJob()), ReceiptKey(4, 0), 3, ExampleSlot(1)));
  }

  /** Two slots, one receipt, and the report calls the manifest completed. */
  method ShortReport() returns (r: IssueResult)
    ensures r.Report? && r.completed && |r.receipts| == 1 < |ExampleJob().slots|
  {
    hide MustRefuse, CourseOf, Opened, Keeps, Once, Ledger, Settled, Reported, AllCompleted, Whole, PeopleOk,
      NoQuotaError, Disturbed;
    ExampleIsAdmitted();
    ExampleStrands();
    var repo := new Repository(ExampleDb());
    var remote := new PeerServer();
    var service := new Access.AccessService(repo, remote, true, 5);
    var log := new CallLog();
    r := IssueManifest(service, log, ExampleJob(), 5, ExampleNaming(), NoFault);
  }
}
