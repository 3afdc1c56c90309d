# Proofs about an access controller for a VPN

The controller keeps two things in step: a local SQLite database of users, orders, devices, passports, tickets and receipts, and
a set of peers on remote VPN servers. The database can be rolled back, the remote side cannot. This project models the parts of
the controller in which that matters, as Dafny programs in the form of the source (classes whose methods change fields, loops
over rows and bytes, pure string functions), and proves what they keep.

`dafny verify dfyconfig.toml` checks everything.

## What is modelled

| module | what it covers |
|---|---|
| `Transactions` | `Repository.transaction()` and `_commit`: working state, durable state, nesting depth, faults of statements and commits |
| `Database` | the tables the other modules use, the two unique constraints on devices, and the updates of one revocation cascade |
| `RemoteFirst` | the remote peers, the invariant that ties them to the database, the steps that keep it, and whole runs |
| `Access` | approving an order and creating a device for an owner |
| `Revocation` | the revocation cascade, disabling and revoking one slot, resetting a user's devices |
| `Operations` | any sequence of those operations, of issued manifests, other writes and restarts, with a fault or the death of the process at any point |
| `Allocation` | the search for a free address |
| `Issuance`, `Manifest` | validating and expanding a manifest, admitting it as a batch, and issuing it slot by slot with receipts and replays |
| `Enrollment`, `Lifecycle` | single-use tickets with idempotent replay, and the ordered log of a device's stages |
| `Text`, `PeerConfig`, `InterfaceNetwork`, `DockerPeers` | the editor of a WireGuard-style configuration text, the address of its interface, and allocation against its peers |
| `Clock` | timestamps compared as text, in the query and in code |
| `Jpeg` | the marker scanner for uploaded images |
| `Identity`, `FileNames` | canonical file names, the check on attached file names, and which issued configs would share a file |
| `Drift` | the drift report and the simpler inventory comparison |

The central result is `Operations.ExecuteAll`. From a safe start, whatever operations are called, whatever fails and wherever
the process dies, no disabled or revoked device has a remote peer, every remote peer belongs to a live durable device or to a
creation that ended in a partial failure or died between adding the peer and the commit, no two devices of a server share a
reserved address, no user exceeds the quota, each order is approved at most once and stays fulfilled, and a revoked device stays
revoked. The peers set apart as unfinished are exactly those of the creations that ended so; only the partial failures are known
to a caller. That invariant is what makes it right to skip the remote removal for a device that is not live
(`RemoteFirst.SkippedRemovalIsNoOp`).

## What the proofs found

The code is modelled as it is. Where a promise does not hold for all inputs, the exact condition is proved.

- `transaction()` rolls back when its body raises, not when the final `COMMIT` raises (app/db/repositories.py:61-78). When an
  operator's creation fails at that commit, the audit row written afterwards publishes the whole creation, although a partial
  failure is reported (app/services/access.py:218-242). The report is right exactly when the audit row does not commit either, or
  something failed earlier: `Access.AccessService.CreateOperatorDevice`, with an example in `Access.StrandedCreation`. An
  approval writes no such row and its durable outcome is always reported rightly.
- For the same reason a manifest can be reported as completed with fewer receipts than slots: when the commit of a receipt's
  completion fails, recording the failure publishes the completion. It happens exactly when the slot's creation and completion
  work up to that commit, which fails, recording the failure works, and the slot is not the last (`Issuance.IssueManifest`, with
  the condition on one slot in `Issuance.IssueStarted`). `Issuance.ShortReport` runs such a manifest: two slots, one receipt,
  "completed".
- A new batch is refused when a file name proposed for a recipient is that of one of his completed receipts, that is exactly
  when what is left of the two names, cut to their length and trimmed, is the same (`FileNames.CollidesExactly`). For two
  unassigned slots that is when the same digits of their numbers are left (`FileNames.SlotsCollideExactly`), with a short
  recipient's part when the numbers are the same. While nothing is cut off, a device collides exactly when its label reads like
  the number of a completed unassigned slot, or like the label of a completed device followed by the suffix for its id
  (`FileNames.DeviceCollidesExactly`): after device 5 with the label "Phone" a new "Phone-d5" is refused
  (`FileNames.LabelLikeAnId`), but a second "Phone" is not found (`FileNames.RepeatedLabelIsNotFound`).
- An exception of an inner block that the enclosing block handles keeps the inner block's writes
  (`Transactions.HandledInnerFailureKeepsWrites`).
- An exception that is not an `Exception`, such as an interrupt, leaves a block without lowering the depth or rolling back. The depth
  fails to return exactly when it hits inside a block that was begun (`Transactions.InterruptedBlockExactly`); if the process goes
  on, every later block counts as an inner one and nothing is published again (`Transactions.StuckForEver`).
- In a configuration text, an `[Interface]` section written after a peer belongs to that peer's block, so removing the peer can
  remove it and later applies are refused; exactly when is `InterfaceNetwork.RemovalLosesExactly`, a text with
  which it happens `InterfaceNetwork.PeerBeforeInterface`. It can also change the address to that of a later section
  (`InterfaceNetwork.RemovalChangesExactly`). Before the first peer the section is safe from every edit
  (`DockerPeers.RunKeepsNetwork`).
- Tickets store their expiry with a final `Z` and compare it as text. Within the second of the expiry that differs from time order
  exactly when just one of the two times is a whole second (`Clock.ZuluFormIsRightExactly`, `Enrollment.ExpiryIsRightExactly`).
  API tokens are stored with `+00:00`, which is right for all times (`Clock.PlusFormOrder`).
- Allocation starts above the highest remote address, so it can fail although hosts below are free; exactly when is
  `Allocation.FailsDespiteRoomExactly`, a network with which it happens `Allocation.LowHostIsNeverTried`.
- The file names of the unassigned slots of one recipient are cut off after 91 characters. They are all different exactly when the
  recipient's part has at most 71 characters (`Identity.SlotNamesDifferExactly`); labels may have 120. With 72 only slots 10 and 100
  share a name, with 73 all with the same first digit, with more all of them (`Identity.VisibleIs`).
- In a manifest, a device labelled `recipient_unassigned` is refused as a duplicate beside an unassigned item of the same recipient.
  This is the only false refusal (`Manifest.FalseRefusalExactly`, with an example in `Manifest.ModeNameCollides`).

## Assumptions

- A remote call either raises with nothing changed or returns with the peer added or removed.
- A rollback does not fail; a failed `COMMIT` leaves the transaction open; `BEGIN` is refused while one is open.
- Operations are called outside any transaction block, at depth zero and one at a time; another writer shows itself only as a
  failing insert of a duplicate address.
- Hashes and fingerprints are injective, so a value stands for its hash. Keys, ids and tokens are arbitrary; nothing assumes them
  fresh.
- Labels stand for their canonical keys (case, width and spacing removed), one user and one spelling per label.
- Addresses are IPv4. How addresses and networks are written and read is a parameter of `DockerPeers`, how a label is brought to ASCII a
  parameter of `Identity` and `FileNames`.
- Times are microseconds since the start of year 1; the text of a time is that of a date up to the end of year 9999.
- A fault is a parameter: every place where the database, the remote side, a renderer or a file can raise has its own.

## Model

| member | source | states |
|---|---|---|
| `Transactions.Repository.Enter` | app/db/repositories.py:62-67 | entering a block changes the depth by one and nothing else; only the outermost begins, and it is refused while a transaction is open |
| `Transactions.Repository.Abort` | app/db/repositories.py:70-74 | an exception leaving the outermost block restores the durable state; leaving an inner block keeps its writes pending |
| `Transactions.Repository.Leave` | app/db/repositories.py:75-78 | a normal exit publishes only at the outermost block; a commit that fails leaves every write pending |
| `Transactions.Repository.Write` | app/db/repositories.py:3032-3034 | a write is durable at once exactly when it is outside every block and neither statement nor commit fails |
| `Transactions.Repository.Run` | app/db/repositories.py:61-78 | any nesting of blocks, writes, exceptions, interrupts and handlers, with failing statements, BEGINs and COMMITs anywhere, has the effect of its specification at any depth and publishes exactly its listed states |
| `Transactions.Repository.RunTasks` | app/db/repositories.py:61-78 | programs run one after another on one connection do what their specifications say one after another, and publish nothing once the depth is off |
| `Transactions.DepthReturns` | app/db/repositories.py:68-78 | unless an interrupt ends it, a program returns to the depth it started at |
| `Transactions.InterruptedBlockExactly` | app/db/repositories.py:69-78 | the depth stays raised exactly when an interrupt hits inside a block that was begun, and then all its writes stay pending |
| `Transactions.StuckForEver` | app/db/repositories.py:62-78 | from a raised depth on, no program ever makes anything durable or lowers the depth |
| `Transactions.NestingIsTransparent` | app/db/repositories.py:61-78 | erasing all inner blocks of a block changes neither its effect nor what it publishes; only an interrupt tells them apart, by the depth it leaves |
| `Transactions.PublishedIsTheEffect` | app/db/repositories.py:61-78 | the durable state at the end is the last one published, or the first one if nothing was published |
| `Transactions.HandledInnerFailureKeepsWrites` | app/db/repositories.py:70-74 | an inner block whose exception is handled outside keeps its writes, which the same block alone does not |
| `Transactions.FailedCommitIsPublishedLater` | app/db/repositories.py:75-78 | a block whose COMMIT fails raises, and the next write outside every block makes all of it durable |
| `Transactions.SoundLeavesNothingPending` | app/db/repositories.py:61-78 | without a failing COMMIT, a failing write outside every block or an interrupt inside one, nothing is left pending, whatever raises |
| `Database.CascadeCloses` | app/db/repositories.py:1172-1252 | after a cascade no ticket, passport, link or order of the device grants access and the device is revoked |
| `Database.CascadeOfClosed` | app/db/repositories.py:1172-1252 | a second cascade changes nothing, whatever its time: the first times stay |
| `Database.CascadeClosesOnly` | app/db/repositories.py:1172-1252 | every ticket, passport, link, order and device that does not belong to the device, and every other table, is as it was; what belongs to it changes only in its end, which is the old one or else the given time |
| `Database.ClosedOnlyNext` | app/bot/workflows.py:742-755 | cascades over several devices together close exactly what belongs to any of them |
| `RemoteFirst.SkippedRemovalIsNoOp` | app/services/device_revoke.py:106-119 | under the invariant, the skipped removal of a device that is not live would have removed nothing |
| `RemoteFirst.CreationKeepsSafe` | app/services/access.py:140-168 | insert, apply, then commit, roll back or stay pending keeps the invariant if the peer counts as unfinished when its row is not durable |
| `RemoteFirst.EndingKeepsSafe` | app/services/device_revoke.py:114-155 | removing the peer before changing the row keeps the invariant, whatever the transaction does |
| `RemoteFirst.PublishKeepsSafe` | app/services/access.py:170-194 | a later write that publishes what a failed commit left pending keeps the invariant |
| `RemoteFirst.StepKeepsSafe` | app/services/device_revoke.py:106-155 | every step of every operation keeps the invariant |
| `RemoteFirst.StepKeepsOrder` | app/db/schema.py:373-375 | every step keeps reserved addresses unique and active devices within the quota |
| `RemoteFirst.StepKeepsOrders` | app/db/repositories.py:1725-1741 | no step takes a durably fulfilled order back |
| `RemoteFirst.RunIsSafe` | app/services/device_revoke.py:106-155 | every state of every run from a safe start is safe, and ordered if the start was |
| `RemoteFirst.RunNeverReturns` | app/db/repositories.py:1657-1668 | along a run no durable row is lost or changes its peer or address, no revoked device leaves that status and no dead one comes back to life |
| `RemoteFirst.EmptyStart` | app/db/schema.py:373-375 | a database without devices and servers without peers are a safe and ordered start |
| `Access.AccessService.CreateDeviceWithAllocatedIp` | app/services/access.py:472-573 | it succeeds exactly when one of the attempts allocates an address that the insert accepts and the peer can be applied, and then inserts that one row with the address of the first such attempt and adds its peer; every failure leaves the remote side unchanged |
| `Access.ChosenExactly` | app/services/access.py:488-556 | the address inserted is that offered at the first of three attempts that does not lose it to another writer, if every attempt up to it has one to offer |
| `Access.ApprovalErrorIsRight` | app/services/access.py:396-440 | an approval breaks no rule exactly when order, plan, count and server allow it, and otherwise the reason given is true |
| `Access.CreationErrorIsRight` | app/services/access.py:262-300 | the same for an operator's creation |
| `Access.AccessService.ApproveInside` | app/services/access.py:396-470 | the first broken rule is the error raised, before anything remote happens; a fault after the peer was added is one of the order or audit write |
| `Access.AccessService.ApproveOrder` | app/services/access.py:140-168 | exactly when it succeeds, when it ends in a partial failure and when it raises; a success found an approvable order and left it fulfilled with one new active device at a fresh address, one audit row, and all else as it was; every refusal has its reason in the rows; a partial failure adds the peer, which then counts as unfinished, and leaves the durable database as it was, an exception leaves both sides |
| `Access.AccessService.ApproveUntilDeath` | app/services/access.py:396-470 | a process that dies before the commit of an approval leaves the durable database as it was, and the peer exactly if the approval got to adding it |
| `Access.ApproveTwice` | app/services/access.py:416-420 | two approvals of one order never both succeed |
| `Access.AccessService.CreateInside` | app/services/access.py:244-394 | the first broken rule is the error raised; once the peer was added it succeeds exactly when no later write, artifact or passport step fails |
| `Access.AccessService.CreateInTransaction` | app/services/access.py:196-242 | a failure up to the commit restores the database, a failed commit leaves the whole creation pending |
| `Access.AccessService.RecordOperatorPartialFailure` | app/services/access.py:170-194 | the audit row, when it commits, publishes everything that was pending |
| `Access.AccessService.CreateOperatorDevice` | app/services/access.py:196-242 | exactly when it succeeds and when it ends in a partial failure, whose peer counts as unfinished; a success found an owner who may have the device and left one new active device at a fresh address, one audit row and, but for an unassigned slot, its passport with a ready event, and all else as it was; every refusal has its reason in the rows; a partial failure leaves the durable database but for its own audit row exactly when the commit was not what failed or that row does not commit either, and otherwise the whole creation is durable |
| `Access.AccessService.CreateUntilDeath` | app/services/access.py:244-394 | the same for an operator's creation |
| `Access.StrandedCreation` | app/services/access.py:218-242 | the misreported case happens: a failed commit and a durable active device |
| `Access.CreationOnlyCreates` | app/services/access.py:308-379 | a creation adds one device row and touches only devices, passports, the log and audit rows |
| `Revocation.CascadeInTransaction` | app/services/device_revoke.py:121-141 | the cascade and its audit row are durable together or not at all |
| `Revocation.CascadeRevokePhysicalDevice` | app/services/device_revoke.py:89-171 | a live device loses its peer before its row: without a remover it is refused, a peer that cannot be removed leaves everything as it was, and after that the database alone decides between success, which closes exactly what belongs to the device, each thing at its first time, and a partial failure; a device that is not live needs no remote side |
| `Revocation.DisableInTransaction` | app/services/access_slot_lifecycle.py:84-102 | the row is disabled and audited exactly when the database does not fail and the status allows it |
| `Revocation.DisableAccessSlot` | app/services/access_slot_lifecycle.py:59-122 | the same discipline for disabling, with the exact outcome for live and for disabled devices: after success that row alone is disabled, with one audit row, and has no peer; a plain exception leaves the peers unchanged |
| `Revocation.RevokeAccessSlot` | app/services/access_slot_lifecycle.py:125-157 | the cascade with its own audit row: exactly when it succeeds, and then closes just what belongs to the device, exactly when it ends in a partial failure, what became of the peer in each case and what it reports |
| `Revocation.ListedAreActive` | app/db/repositories.py:929-949 | the listed devices are active and different, and they are all of them when there are at most twenty |
| `Revocation.ListedAreNewest` | app/db/repositories.py:929-949 | at most twenty are listed; none that is missing is newer, and if any is missing there are twenty |
| `Revocation.RemoveListedPeers` | app/bot/workflows.py:717-741 | the peers removed are those of the longest prefix of the list whose removals work |
| `Revocation.RevokeListed` | app/bot/workflows.py:742-755 | the rows revoked are those before the first device whose cascade fails, all of them exactly when none does; with the peers gone the invariant is kept |
| `Revocation.ResetUserDevices` | app/bot/workflows.py:704-755 | the first listed device whose peer cannot be removed and the first whose cascade fails determine the outcome, the peers that are gone and the rows that are revoked; exactly what belongs to those devices is closed |
| `Operations.Execute` | app/services/device_revoke.py:106-155 | each operation, also one whose process dies, leads from a safe state by steps that keep the invariant, and leaves unfinished exactly the peer that its ending tells |
| `Operations.ExecuteAll` | app/services/device_revoke.py:106-155 | any operations and manifests with any faults and deaths keep a safe state safe and an ordered one ordered, and never revive or rename a durable device; no order is approved twice and a fulfilled one stays so; the unfinished peers grow by exactly those of the creations that ended in a partial failure or died before their commit |
| `Allocation.AllocateVpnIp` | app/services/access.py:576-608 | the loops compute the specified search |
| `Allocation.HostsExactly` | app/services/access.py:601-608 | the hosts searched are all addresses of a network of one or two, otherwise all but the first and last |
| `Allocation.AllocationIsExact` | app/services/access.py:576-608 | an address is chosen exactly when it is the least unreserved host, other than the server's, from the start of the search on |
| `Allocation.FailureIsExact` | app/services/access.py:604-608 | it fails exactly when every host from the start of the search on is taken |
| `Allocation.FailsDespiteRoomExactly` | app/services/access.py:593-608 | with a free host it fails exactly when the highest remote address is a host and all free hosts are below it |
| `Allocation.LowHostIsNeverTried` | app/services/access.py:593-608 | a network in which it fails with a free host |
| `Allocation.RoomMeansSuccess` | app/services/access.py:584-608 | without a remote list, fewer reserved hosts than hosts means success |
| `Issuance.AdmitFullBatch` | app/services/admin_config_issuance.py:270-300 | a batch is admitted exactly when every recipient's active devices and requested slots together are at most the limit and no name proposed for a known recipient is missing or that of one of his completed receipts |
| `FileNames.CollidesExactly` | app/services/admin_config_issuance.py:280-300 | a proposed name is taken exactly when a completed receipt's name, cut and trimmed, is the same |
| `FileNames.BatchCollidesExactly` | app/services/admin_config_issuance.py:280-300 | a batch collides for a known recipient exactly when one of its slots for him has no name or a taken one |
| `FileNames.SlotsCollideExactly` | app/services/config_identity.py:118-149 | two unassigned slots have the same file exactly when the same digits of their numbers are left, however long the recipient's part is |
| `FileNames.SlotCollidesExactly` | app/services/admin_config_issuance.py:280-300 | an unassigned slot is taken exactly by a completed receipt with the same file; up to 71 characters for the recipient that is a completed slot of the same number |
| `FileNames.DeviceCollidesWith` | app/services/config_identity.py:118-136 | uncut, a device has a completed receipt's file exactly when its label reads like that slot's number, or like that device's label with the suffix for its id |
| `FileNames.DeviceCollidesExactly` | app/services/admin_config_issuance.py:280-300 | a device is taken exactly by a completed receipt with the same file; uncut, that is one of these two |
| `FileNames.RepeatedLabelIsNotFound` | app/services/admin_config_issuance.py:280-300 | uncut, a second device of the same label never has the file of the first |
| `FileNames.LabelLikeAnId` | app/services/admin_config_issuance.py:280-300 | after device 5 labelled "Phone" a batch with a device "Phone-d5" is refused |
| `Issuance.SaneLedgerIsComparable` | app/db/repositories.py:1849-1864 | the completed receipts stored for a recipient are his own, with numbered slots and known devices |
| `Issuance.StartReceipt` | app/services/admin_config_issuance.py:180-194 | the receipt is durable before anything is created for it, exactly when its writes do not fail; a recipient without a row gets one, active and no administrator |
| `Issuance.AskForDevice` | app/services/admin_config_issuance.py:197-217 | exactly when the creation succeeds, at most one row and one peer, exactly which peer is left unfinished, and the ledger stays sane |
| `Issuance.CompleteReceipt` | app/services/admin_config_issuance.py:222-246 | the audit row and the completion are published together; only a failed commit leaves them pending |
| `Issuance.AttemptSlot` | app/services/admin_config_issuance.py:198-246 | a success created one active device and completed the receipt; a quota error means the recipient had met the limit |
| `Issuance.CreationServes` | app/services/admin_config_issuance.py:198-246 | a completed receipt's device exists with its user, server and the slot's mode, no other completed receipt has it, and exactly for a dedicated slot a passport of that device, owner and platform exists and is logged as ready |
| `Issuance.FailReceipt` | app/services/admin_config_issuance.py:247-257 | a failure is recorded on a started receipt and never overwrites a completed one |
| `Issuance.IssueStarted` | app/services/admin_config_issuance.py:197-258 | exactly when a started slot finishes, breaks off, or is reported as completed after a failed commit; each call is logged and adds at most one device and one peer |
| `Issuance.IssueSlot` | app/services/admin_config_issuance.py:180-258 | one slot asks for at most one creation, without a logged call nothing is inserted or added, and with one at most one device and one peer; exactly how it ends, and the whole database after a success |
| `Issuance.VisitSlot` | app/services/admin_config_issuance.py:165-258 | an existing receipt is taken as it is and nothing changes; a missing one is issued for the next index |
| `Issuance.IssueSlots` | app/services/admin_config_issuance.py:164-268 | the loop ends where the course of the slots says, with a report of the stored receipts up to there |
| `Issuance.IssueManifest` | app/services/admin_config_issuance.py:143-268 | no creation is asked for twice, and every device inserted and peer added has a logged call of its own; it is a run of steps that keep the invariants of devices and peers, with exactly the listed peer left unfinished; ended receipts never change; a settled request is answered from its receipts without any change; an admitted batch never meets the quota; exactly when a manifest is refused, when it breaks off, how long the report is, when it says completed, and when it says so although slots are missing |
| `Issuance.ShortReport` | app/services/admin_config_issuance.py:247-268 | a run whose report says completed with one receipt for two slots |
| `Issuance.IssueTwice` | app/services/admin_config_issuance.py:167-178 | replaying a manifest that was reported in full changes nothing and returns the same report |
| `Issuance.IssueAll` | app/cli.py:885-930 | over any runs of any manifests, each on the connection as it is or on a new one, crashes included, each slot's creation is asked for at most once, no more devices are ever inserted and no more peers added than there are durable receipts, and safe and ordered states stay so, as does a ledger in which every completed receipt has been served |
| `Issuance.StartKeepsLedger` | app/db/repositories.py:1866-1907 | a new receipt after completed ones keeps the ledger |
| `Issuance.OutcomeKeepsLedger` | app/db/repositories.py:1909-1981 | ending a started receipt, either way, keeps the ledger and changes no ended one |
| `Issuance.StepOfBatch` | app/services/admin_config_issuance.py:275-279 | each slot of an admitted batch finds room, and a success counts one more for its recipient only |
| `Manifest.Validate` | app/services/admin_config_issuance.py:303-399 | a manifest is expanded exactly when it is acceptable |
| `Manifest.ExpansionSize` | app/services/admin_config_issuance.py:379-392 | the number of slots is the sum of the quantities |
| `Manifest.ExpandedFrom` | app/services/admin_config_issuance.py:379-390 | every slot comes from its item and number, and no two share both |
| `Manifest.SlotsAreDistinct` | app/services/admin_config_issuance.py:363-390 | no two slots of an accepted manifest name the same recipient, mode, device and number |
| `Manifest.AcceptedExactly` | app/services/admin_config_issuance.py:303-399 | a manifest is accepted exactly for 1 to 100 proper items with at most 100 slots, no two of which name the same target or clash by the mode's name |
| `Manifest.SlotsSay` | app/services/admin_config_issuance.py:379-392 | every slot has its item's recipient, mode, device, platform and expiry, and every item has all its slots |
| `Manifest.DuplicatesExactly` | app/services/admin_config_issuance.py:350-368 | two valid items have the same duplicate key exactly when they name the same target, or one is unassigned and the other the device with that mode's name |
| `Manifest.FalseRefusalExactly` | app/services/admin_config_issuance.py:350-368 | a manifest is accepted exactly when it is in order, without two items for the same target, and no two items clash by that name |
| `Manifest.ModeNameCollides` | app/services/admin_config_issuance.py:350-368 | a manifest in order that is refused for that clash |
| `Lifecycle.RecordDeviceLifecycleStage` | app/services/device_lifecycle.py:65-131 | the scan refuses, finds or inserts exactly as specified, and the returned event is in the log |
| `Lifecycle.RecordingKeepsLog` | app/services/device_lifecycle.py:65-131 | one call keeps completed stages unique and every completed event rooted |
| `Lifecycle.EveryLogIsOk` | app/services/device_lifecycle.py:65-131 | after any calls there is at most one completed event per ticket or passport and stage, each chaining back to an issue or to an operator's ready device |
| `Lifecycle.StagesInOrder` | app/services/device_lifecycle.py:14-40 | the five stages and which one each follows |
| `Lifecycle.StagesFollow` | app/services/device_lifecycle.py:99-113 | every completed stage has the named one before it, of the same ticket or passport |
| `Lifecycle.RecordedExactly` | app/services/device_lifecycle.py:65-131 | exactly when a recording is refused, found or inserted, and what is inserted |
| `Lifecycle.RecordingIsIdempotent` | app/services/device_lifecycle.py:95-98 | recording a stage again changes nothing |
| `Enrollment.ExpiryIsRightExactly` | app/db/repositories.py:1473-1549 | the comparison of the stored expiry is that of the two texts, and it agrees with time except within one second when just one side is a whole second |
| `Enrollment.ClaimableExactly` | app/db/repositories.py:1490-1500 | a ticket may be claimed exactly while it is neither revoked nor claimed and its stored expiry text comes after the current one |
| `Enrollment.StatusExactly` | app/services/device_enrollment.py:52-61 | a ticket is shown as revoked before claimed before expired before active |
| `Enrollment.ClaimRow` | app/db/repositories.py:1473-1549 | the claim update and its passport happen together, or the row this key claimed before is found, or nothing changes |
| `Enrollment.IssueDeviceEnrollmentTicket` | app/services/device_enrollment.py:141-193 | a ticket with the given terms, valid for at most a day, and the first event of its log appear together, and nothing else, or nothing does; it succeeds whenever the input is valid and nothing fails; whatever fails, what is left pending is one step of the claims |
| `Enrollment.ClaimInside` | app/services/device_enrollment.py:230-283 | inside its transaction an open ticket is granted with a fresh passport whenever nothing fails, and a claimed token answers only the key that claimed it |
| `Enrollment.GrantClaim` | app/services/device_enrollment.py:253-283 | a claim that is logged already changes nothing and is granted exactly within thirty days of the issue; a first one is logged with that time |
| `Enrollment.ClaimDeviceEnrollmentTicket` | app/services/device_enrollment.py:196-283 | an open ticket is granted whenever nothing fails; a first grant found a ticket that was neither revoked, claimed nor expired by its stored text and wrote just its claim, passport and event; a revoked or expired unclaimed ticket is refused; once claimed, the same key gets the same passport for thirty days from the issue whatever became of the ticket; any other key or token is refused without change; whatever fails, what is left pending is one step of the claims |
| `Enrollment.RevokeDeviceEnrollmentTicket` | app/services/device_enrollment.py:286-307 | a ticket ends at its first revocation, nothing else changes, and it is shown as revoked ever after; whatever fails, what is left pending is one step of the claims |
| `Enrollment.StepKeepsEnrollment` | app/services/device_enrollment.py:196-283 | every step keeps claim fields together, passports unshared and faithful to their ticket, and claims unchanged |
| `Enrollment.EnrollmentRun` | app/services/device_enrollment.py:141-307 | so does every run |
| `Enrollment.Execute` | app/services/device_enrollment.py:141-307 | each call, failed commits and restarts included, keeps durable and pending claims in order; a grant is durable, and a replay exactly if the claim was there before |
| `Enrollment.ExecuteAll` | app/services/device_enrollment.py:141-307 | over any calls with any faults and restarts every grant stays durable; one token is granted to one key and one passport only, one passport to one token only, every grant of a token but the first is a replay, and no ticket is granted for the first time after it was ended |
| `Enrollment.EmptyStart` | app/db/repositories.py:1254-1287 | empty tables are in order |
| `Enrollment.ClaimIsForever` | app/services/device_enrollment.py:357-366 | along a run a claim keeps its token, key, ticket and passport |
| `Text.SplitOfJoined` | app/server/peer_apply.py:459-474 | splitting into lines undoes joining with a final newline |
| `Text.EveryBreakSplits` | app/server/peer_apply.py:459-470 | every line boundary splits once, a carriage return with a line feed too |
| `PeerConfig.SplitConfigBlocks` | app/server/peer_apply.py:459-470 | the loop computes the specified blocks |
| `PeerConfig.DockerConfigPeerAllowedIps` | app/server/peer_apply.py:372-393 | the first addresses of all peers in order, or failure at an invalid one |
| `PeerConfig.HeaderIs` | app/server/peer_apply.py:477-478 | a block starts at a [Peer] line in any case and padding |
| `PeerConfig.LineValueIs` | app/server/peer_apply.py:481-489 | what a setting line gives, and that a comment gives nothing |
| `PeerConfig.FirstValueIsFirst` | app/server/peer_apply.py:481-489 | the first line that gives a setting decides |
| `PeerConfig.FirstOfAddresses` | app/server/peer_apply.py:372-393 | the first of several addresses counts |
| `PeerConfig.RemovePeerBlock` | app/server/peer_apply.py:447-456 | the loop computes the specified text and says whether a peer was there |
| `PeerConfig.UpsertPeerBlock` | app/server/peer_apply.py:433-444 | the appended text is the specified one |
| `PeerConfig.NormalFormIdempotent` | app/server/peer_apply.py:459-474 | joining after splitting is idempotent on every text |
| `PeerConfig.SplitOfJoin` | app/server/peer_apply.py:459-474 | splitting a joined text gives back the blocks without their trailing white space |
| `PeerConfig.RemovalsCommute` | app/server/peer_apply.py:447-456 | removing two keys gives the same text in either order |
| `PeerConfig.RemoveRefinesMap` | app/server/peer_apply.py:447-456 | removal leaves the other peers with their order, keys, addresses and texts, and the text before the first peer |
| `PeerConfig.UpsertRefinesMap` | app/server/peer_apply.py:433-444 | an upsert leaves the other peers as they were and puts the new one once and last |
| `PeerConfig.RemoveAfterUpsert` | app/server/peer_apply.py:433-456 | removing a key after upserting it gives the text that removing it from the original gives |
| `PeerConfig.UpsertOverwrites` | app/server/peer_apply.py:433-444 | the last upsert of a key wins, character for character; the same upsert twice changes nothing |
| `PeerConfig.PeerLinesSay` | app/server/peer_apply.py:438-444 | the written peer is read back with its key and address |
| `InterfaceNetwork.DockerConfigInterfaceAddress` | app/server/peer_apply.py:347-369 | the loop over lines and sections computes the specified address |
| `InterfaceNetwork.SectionLine` | app/server/peer_apply.py:347-369 | which section lines start and end the interface's section |
| `InterfaceNetwork.SettingLine` | app/server/peer_apply.py:347-369 | which setting lines give an address, and that it is the first one |
| `InterfaceNetwork.AddressByBlocks` | app/server/peer_apply.py:347-369 | read line by line, the address is that of the first block of the editor that gives one on its own |
| `InterfaceNetwork.JoinedAddress` | app/server/peer_apply.py:473-474 | joining blocks, with its trimming, keeps the address |
| `InterfaceNetwork.RemovalLosesExactly` | app/server/peer_apply.py:447-456 | removal leaves no address exactly when every block that gives one is a block of the removed peer |
| `InterfaceNetwork.PeerBeforeInterface` | app/server/peer_apply.py:447-456 | a text that has an address and loses it with the removal of a peer |
| `InterfaceNetwork.RemovalChangesExactly` | app/server/peer_apply.py:447-456 | the address after a removal, and exactly when it is another one: the first block that gives one is the peer's and the next kept one gives a different one or none |
| `InterfaceNetwork.RemovalKeepsInterface` | app/server/peer_apply.py:447-456 | an interface before the first peer keeps its address and its place |
| `InterfaceNetwork.UpsertKeepsInterface` | app/server/peer_apply.py:433-444 | and so it does under an upsert |
| `DockerPeers.ApplyEdit` | app/server/peer_apply.py:269-301 | reading the peers, allocating, checking the network and upserting, or removing, computes the specified edit; a failure leaves the text |
| `DockerPeers.ApplyExactly` | app/server/peer_apply.py:269-301 | an apply with an unreadable peer address or to another network changes nothing; a good one puts the peer last, in place of its key's, with a host that no peer and no local device has; and it succeeds while a host above the peers is left |
| `DockerPeers.EditKeepsDistinct` | app/services/access.py:491-501 | one edit keeps the peers' addresses different |
| `DockerPeers.RunKeepsDistinct` | app/services/access.py:491-501 | so does any run of allocations and removals |
| `DockerPeers.EditKeepsNetwork` | app/server/peer_apply.py:324-344 | one edit keeps the interface's address, if it stands before the first peer |
| `DockerPeers.RunKeepsNetwork` | app/server/peer_apply.py:324-344 | the check of the network then gives the same answer all along a run |
| `Clock.PlusFormOrder` | app/services/api_tokens.py:469-478 | the text order of the stored form is time order, for all times with microseconds |
| `Clock.FormsAreWritten` | app/services/api_tokens.py:469-478 | how times with and without a fraction are written |
| `Clock.ZuluFormIsRightExactly` | app/services/device_enrollment.py:406-407 | the order of the form with a final Z is wrong exactly within one second when just one side is a whole second |
| `Clock.ZuluFormGoesWrong` | app/services/device_enrollment.py:406-407 | two times that it orders wrongly |
| `Clock.InstantOrder` | app/services/device_enrollment.py:406-407 | through the calendar with its leap years, the order of the instants is that of the microseconds counted |
| `Clock.DateIs` | app/services/device_enrollment.py:406-407 | which day of the Gregorian calendar any count of days is |
| `Clock.StoredOrder` | app/services/device_enrollment.py:406-407 | the order of two stored texts in terms of the microseconds counted |
| `Clock.AuthenticateApiToken` | app/services/api_tokens.py:340-373 | the first token with the hash is accepted exactly when it is not revoked, not expired, of an active owner and with the scope; each rejection comes exactly when its rule is the first one broken |
| `Clock.SqlFilterAgreesWithCode` | app/db/repositories.py:2953-2964 | over a whole table with unique hashes the query selects at most one token, and one exactly when the code finds the token neither unknown, revoked nor expired at the same instant |
| `Jpeg.InspectJpeg` | app/services/bot_media.py:183-216 | the loop computes the specified scan, ends, and reads only inside the data |
| `Jpeg.MarkersExactly` | app/services/bot_media.py:183-216 | the thirteen markers the scanner stops at and the two it takes for bare ones |
| `Jpeg.UploadIsRead` | app/services/bot_media.py:195-215 | one upload byte by byte, with its width and height |
| `Jpeg.ScanIsExact` | app/services/bot_media.py:183-216 | a size is found exactly when the bytes are stray bytes, bare markers and whole segments followed by a frame header that fits, and it is that header's |
| `Jpeg.RoundTrip` | app/services/bot_media.py:195-215 | scanning printed segments and a printed frame header gives back its width and height, whatever follows |
| `Identity.BuiltNamesAreSafe` | app/bot/delivery.py:150-158 | every built name has at most 96 characters and passes the check on attachments, whatever the labels |
| `Identity.RunIsOneDash` | app/services/config_identity.py:159-172 | a run of other characters between two words becomes one dash |
| `Identity.ReservedIsPrefixed` | app/services/config_identity.py:159-172 | a reserved device name gets a prefix |
| `Identity.NothingUsable` | app/services/config_identity.py:159-172 | a label without usable characters becomes the fallback |
| `Identity.IsNamedExactly` | app/services/config_identity.py:97-136 | a name is built exactly for labels that are not blank and a positive id of at most 70 digits |
| `Identity.CollisionIdsSeparate` | app/services/config_identity.py:118-136 | names with different device ids differ, whatever the labels, in spite of cutting and stripping |
| `Identity.SlotNamesDifferExactly` | app/services/config_identity.py:139-149 | the slots of a recipient have different names exactly when the recipient's part has at most 71 characters |
| `Identity.SlotsNamedAlikeExactly` | app/services/config_identity.py:118-149 | for every recipient's part, two slots have the same name exactly when the same digits are left |
| `Identity.VisibleIs` | app/services/config_identity.py:124-127 | which numbers share their digits when three, two, one or none are left |
| `Identity.SlotsAndDevicesDiffer` | app/services/config_identity.py:97-149 | the name of an uncut slot is never that of a device with its id |
| `Identity.DeviceNamedLikeSlotExactly` | app/services/config_identity.py:97-149 | an uncut device without its id has the name of a slot exactly when its label reads like the slot's number |
| `Identity.UnnumberedNameExactly` | app/services/config_identity.py:97-136 | an uncut device without its id has the name of one with an id exactly when what is left of that name, with the suffix, reads like it; if both are uncut, exactly when its label is the other one with the suffix |
| `Drift.DiagnoseInventory` | app/services/drift_diagnostics.py:196-247 | the loops compute one snapshot per row and one per peer without a row |
| `Drift.ClassifiedExactly` | app/services/drift_diagnostics.py:250-304 | exactly when a snapshot gets each of its states |
| `Drift.ListedIsReadBack` | app/services/drift_diagnostics.py:339-342 | a printed list of addresses is read back, and the text for none as the empty list |
| `Drift.LastOfKeyCounts` | app/services/drift_diagnostics.py:196-210 | of several peers with one key the last one counts |
| `Drift.DiagnoseServer` | app/services/drift_diagnostics.py:134-179 | a failed collection marks every device as such and reports nothing else |
| `Drift.AlignedIsAgreement` | app/services/drift_diagnostics.py:196-304 | everything is aligned exactly when the desired addresses by key equal the observed ones, and the observation is fresh or there is no device |
| `Drift.ReportAgreesWithCompare` | app/services/peer_inventory.py:77-103 | with a fresh observation the missing devices and the unknown peers are those of the inventory comparison |
| `Drift.ComparePartitions` | app/services/peer_inventory.py:88-93 | every observed peer is known or unknown, none twice |

## Left out

- PeerConfig.UpsertRefinesMap: asks that key and address have no line break, comma or edge white space, since the source writes them as single lines without quoting.
- Database.CascadeOfClosed: the column `updated_at` of a passport, which every cascade rewrites, is not modelled.
- Revocation.CascadeRevokePhysicalDevice: the reported counts of closed tickets, links and orders are not modelled.
- Manifest.Validate: the root fields, the length limit of labels and the parsing of an expiry are not modelled; a label is missing, blank or a key.
- Lifecycle.RecordDeviceLifecycleStage: the checks on the texts of an evidence entry are not modelled.
- Drift.DiagnoseInventory: the order of the report, its evidence lists, its reasons and recommended actions and the limit of a thousand rows are not modelled; address lists are compared as multisets, which is what comparing sorted tuples decides.
- Identity.BuiltNamesAreSafe: the transliteration table and Unicode decomposition are a parameter, so the result holds for any.
- Enrollment.ClaimDeviceEnrollmentTicket: the update of all claimable rows of a token is modelled as one row, since token hashes are unique.
- Issuance.IssueManifest: the checks that a created device has or lacks a passport as its mode demands cannot fail in this model and are left out.
- Operations.ExecuteAll: imports, hard deletes and the flow that disables or enables all devices of a user are not among the operations; they bypass the rules proved here.
- RemoteFirst.StepKeepsOrder: creations in the owner-shared mode are outside the quota, as in the source.
- The bot's revocation of one device (app/bot/workflows.py:678-702): a check of ownership before the cascade that is modelled.
- SSH, docker, systemctl and the restart of a container after the text was written: one step that succeeds or raises.
- Telegram handlers, web routes, the command line, texts and keyboards.
- Cryptography, key generation, hashing and canonical JSON.
- Migrations, backups, file locks, email, QR codes and private artifact files.
- PNG and WebP headers, size limits and the decision which format an upload has.
- Creating, rotating and revoking API tokens, and the parser of the peer dump.
