# csi-sanlock-lvm: a Dafny model of its storage and locking core

The driver lets the nodes of a cluster share LVM volume groups. Four parts of it carry the
correctness argument, and this project models them and proves what they are there for.

* **Buddy allocator** (`pkg/diskrpc/allocator.go`). A node array holding a binary tree. The methods
  in `Allocator.dfy` work in place on an array; `Buddy.dfy` and `BuddyBlocks.dfy` relate the array to
  a tree shape and the shape to a set of disjoint aligned power-of-two blocks. `Represents(a, h, S)`
  says that array `a` is the tree of 2^h units whose allocated blocks are exactly `S`.
* **Disk mailbox** (`pkg/diskrpc/mailbox.go`). A data file of bytes: HEADER, three STATE copies, DATA.
  `Disk.dfy` has the writes and what an interruption may leave (arbitrary bytes where the cut write
  was going), `State.dfy` the STATE segment, `MailSpec.dfy` the relation `Holds` between the bytes of
  a disk and 2000 message lists, `MailOps.dfy` and `MailRecv.dfy` Send and Recv, `MailRuns.dfy`
  format, `MailHistory.dfy` whole runs, and `MailBox.dfy` the object itself, on a device whose reads
  and writes may fail. `MailWitness.dfy` has a codec, a device and a run that meet the assumptions of
  the theorems, and the inputs at which expected properties fail.
* **RPC over mailboxes** (`pkg/diskrpc/diskrpc.go`). `DiskRpc.dfy` is a cluster of nodes taking steps
  in any order with loss, restart and timeout; `RpcEndpoint.dfy` is the object on one node and the
  proof that its rounds are steps of that cluster; `RpcWitness.dfy` is a run that ends blocked.
* **Volume lock, tags, volume creation, listing** (`pkg/driverd`). `VolumeLock.dfy` is the cluster
  protocol over LVM, `VolumeLocker.dfy` the object on one node while other nodes interfere,
  `TagEncoder.dfy`, `Tags.dfy` and `OwnerTags.dfy` the tag codec and the owner tags,
  `CreateVolume.dfy` the rollback discipline, `Pagination.dfy` the paged listings.

`Arith.dfy`, `Bytes.dfy` and `Options.dfy` hold 32-bit integers, little-endian words and `Option`.
Integer widths are explicit: node values and addresses are `int32`, `WrapInt32` and `WrapUint32` are
the Go conversions, and every sum that could wrap is wrapped. An in-place method is proved equal to a
function of the old contents, and the theorems are about that function.

## Main results

1. **Crash atomicity.** Cut Send or Recv anywhere, and the disk shows exactly the old or exactly the
   new mailboxes, all 2000 of them (`SendAtomic`, `RecvAtomic`), provided STATE copies 1 and 2 agree
   at the start. That condition is exact: the next state write is atomic if and only if it holds
   (`AtomicIffRecoverable`).
2. **Mailbox refinement and conservation over whole runs.** In every interleaving of calls, some cut,
   each mailbox is what was sent to it since it was last drained, newest first, and each Recv returns
   exactly that; the allocated blocks are always the reservation plus one per undelivered message
   (`RunExplained`). Frames of any size may be sent; a mailbox is received only if its frames are ones
   that Recv reads back (`ReadBackIff`). The object's methods make only such steps (`SendIsStep`,
   `RecvIsStep`).
3. **The allocator refines a set of blocks**, lowest fit first, with a canonical array
   (`AllocRefines`, `FreeRefines`, `CanonicalNodes`, `FreeAllRestores`).
4. **Mutual exclusion of volume locks** over every run, with every LVM call able to fail
   (`LockSafety`); a locked volume stays active until its own node unlocks the last op or stops
   (`EmptiedIff`, `ActiveUntilReleased`); a released one is inactive there and carries no owner tag of that
   node until it is locked there again (`ReleasedIsInactive`, `ReleasedIsUntagged`).
5. **At-most-once RPC** over every run: each request is executed at most once, at the node it was sent
   to, and its response goes back to the issuer (`AtMostOnce`, `OwnResponse`, `RightlyRouted`); every
   round of the object is a part of such a run (`HandleIsRun`, `RoundOnce`).

## What the code does not do

Properties one would expect and that fail. Where the code meets them on some inputs, the condition
given is exact.

* Free on a tree of 2^30 units: `int32(len+1)` wraps to -2^31, the search turns the wrong way and a
  live block cannot be freed. Free is exact on all trees of 2^h units if and only if h <= 29
  (`FreeExactIff`). A data file stays below 2 GiB, hence below that limit (`FormatHolds`).
* A frame longer than one block is read back with its length still in front and, in general, not
  trimmed. It survives if and only if it fits one block, or fills whole blocks and repeats its own
  length bytes (`ReadBackIff`). `LongLetter` is a message of one block of payload that is sent, and
  makes every Recv of its mailbox fail.
* readState never repairs copies. From any clean disk two interruptions can install any bytes whatever
  as the state (`TwoInterruptions`), a drained list among them; from every disk whose copies 1 and 2
  differ some cut changes the state that is read (`UnsafeWrite`). The next state write is atomic if
  and only if those copies agree (`AtomicIffRecoverable`).
* Freeing a node that holds -2^31 succeeds and changes nothing (`FreeStuckOnLeast`). On arbitrary
  node values a successful Free reduces the allocated nodes if and only if the node it releases holds
  something else (`FreeProgressIff`); so Recv's loop ends on every disk without that value (`Drain`),
  and no tree reached through Alloc and Free holds it (`RepresentsNoLeast`).
* format writes the header before it knows whether the reservation fits. On a device that is too
  small it fails and leaves an accepted header over an uninitialised STATE (`FormatTooSmall`); eight
  platform blocks are (`SmallDevice`). It succeeds if and only if the reservation fits (`FormatRoom`),
  that is from sixteen blocks on (`FormatIff`).
* The two allocator constructors never agree (`ConstructorsDiffer`); the mailbox overwrites every
  node, so this does not show (`AllocatorFromState`).
* encodeTag pads bytes below 0x10 with a space. The round trip holds if and only if there is no such
  byte (`RoundTripIff`); for a key and value, if and only if the key also has no equals sign and does
  not start with a hyphen (`KVRoundTripIff`).
* An Invoke that times out while Handle is handing its response over leaves Handle blocked until the
  process restarts (`StuckUntilRestart`); `StuckIsReachable` is a run that gets there. A hand-over is
  blocked if and only if its Invoke has returned (`BlockedIffStuck`), and a node gets there if and only
  if an Invoke returns while its response is being offered (`StuckIffLateTimeout`).
* A Send that reports an error may have landed, and a Recv that reports an error may have emptied the
  box and dropped the messages: whenever Send finds room and whenever Recv can read its box there is
  such an outcome (`SendErrorMayLand`, `RecvErrorMayDrain`). After an error on a disk whose copies 1 and
  2 agreed, the new mailboxes hold if and only if the first two state copies hold the planned state,
  and otherwise the old ones hold (`SendErrorIff`, `RecvErrorIff`).
* CreateVolume puts a volume on its cleanup list only after lvcreate reported success. A volume that
  lvcreate made while reporting a failure stays; those, and the ones whose removal was refused, are all
  that can be left behind (`CreateVolume.Controller.Create`).

Where comments in the source and the code disagree the code is modelled: list heads are 2000 words at
byte 192 (not 2001 at byte 0), header bytes 26-30 hold four times the number of allocator nodes (not
the number), Recv returns at once when there is nothing to read (it does not block), and in `sync` an
open volume is adopted as locked.

## Model

| member | source | states |
|---|---|---|
| Buddy.AddressAt | pkg/diskrpc/allocator.go:88-97 | the closed-form address of a node is the offset obtained by halving from the root, within int32 for trees of up to 2^30 units; exactly the nodes of height 0 have no children |
| Buddy.InitStores | pkg/diskrpc/allocator.go:99-106 | initialising a subtree stores the wholly free shape there and touches no other node |
| Buddy.AllocStores | pkg/diskrpc/allocator.go:108-130 | alloc on the array stores the shape that first-fit splitting gives, returns its offset, and touches only its subtree |
| Buddy.FreeStores | pkg/diskrpc/allocator.go:132-165 | free on the array succeeds exactly when freeing on the shape does, stores the merged shape, and touches only its subtree |
| BuddyBlocks.RoundExpBounds | pkg/diskrpc/allocator.go:108-121 | a request is rounded up to a power of two less than twice its size |
| BuddyBlocks.AlignedMod | pkg/diskrpc/allocator.go:92-97 | alignment as used in the theorems is divisibility by the block size |
| BuddyBlocks.AllocAddsBlock | pkg/diskrpc/allocator.go:108-130 | on shapes, alloc adds one block, of the rounded size, in a run that was free |
| BuddyBlocks.RunShows | pkg/diskrpc/allocator.go:24-30 | a free aligned run of 2^k units makes every node above it hold at least 2^k |
| BuddyBlocks.AllocLowest | pkg/diskrpc/allocator.go:122-127 | on shapes, no free run of the rounded size lies below the chosen one |
| BuddyBlocks.FreeFindsBlock | pkg/diskrpc/allocator.go:132-154 | a successful free was given the start of an allocated block |
| BuddyBlocks.FreeRemovesBlock | pkg/diskrpc/allocator.go:132-165 | freeing the start of an allocated block succeeds and removes that block only |
| BuddyBlocks.BlocksInjective | pkg/diskrpc/allocator.go:155-163 | two canonical shapes with the same blocks are the same shape |
| Allocator.Initialize | pkg/diskrpc/allocator.go:99-106 | in place, equals InitAt of the old array |
| Allocator.NewBySize | pkg/diskrpc/allocator.go:35-46 | fails exactly on sizes that are no power of two; otherwise the array is the tree without allocated blocks |
| Allocator.NewByNodeCnt | pkg/diskrpc/allocator.go:48-56 | fails exactly on node counts it rejects; otherwise the array is initialised from the 32-bit shift |
| Allocator.ConstructorsDiffer | pkg/diskrpc/allocator.go:35-56 | for every tree size the two constructors produce different arrays |
| Allocator.AllocNodes | pkg/diskrpc/allocator.go:108-130 | in place, succeeds iff 0 < size <= node value and equals AllocAt; on failure returns -1 and changes nothing |
| Allocator.FreeNodes | pkg/diskrpc/allocator.go:132-165 | in place, equals FreeAt; on failure changes nothing |
| Allocator.AllocBlock | pkg/diskrpc/allocator.go:58-60 | Alloc on the whole tree, with the failure case |
| Allocator.FreeBlock | pkg/diskrpc/allocator.go:62-64 | Free on the whole tree, starting from the wrapped size, with the failure case |
| Allocator.FreshRepresents | pkg/diskrpc/allocator.go:99-106 | initialising any array of the right length gives the tree without allocated blocks |
| Allocator.LiveBlocks | pkg/diskrpc/allocator.go:24-30 | allocated blocks are aligned powers of two inside the tree, and disjoint |
| Allocator.AllocRefines | pkg/diskrpc/allocator.go:92-130 | Alloc succeeds iff the size is positive and some aligned run of the rounded size is free; it returns the lowest and adds exactly that block |
| Allocator.FreeRefines | pkg/diskrpc/allocator.go:132-165 | up to 2^29 units, for every int32 address: Free succeeds iff a block starts there and removes exactly that block |
| Allocator.FreeExactIff | pkg/diskrpc/allocator.go:62-64 | Free is exact on all trees of 2^h units iff h <= 29 |
| Allocator.FreeFailsAt30 | pkg/diskrpc/allocator.go:62-64 | on 2^30 units, freeing the only block, at address 0, fails |
| Allocator.CanonicalNodes | pkg/diskrpc/allocator.go:128-163 | two arrays with the same set of blocks are equal |
| Allocator.AllocThenFree | pkg/diskrpc/allocator.go:108-165 | freeing what was just allocated restores every node |
| Allocator.FreeAllRestores | pkg/diskrpc/allocator.go:132-165 | freeing all live blocks in any order gives the freshly initialised array |
| Allocator.FreeProgressIff | pkg/diskrpc/allocator.go:132-165 | on arbitrary node values, a successful Free strictly shrinks the set of negative nodes iff the node it releases is not -2^31, and leaves the set as it was otherwise |
| Allocator.FreeProgress | pkg/diskrpc/allocator.go:132-165 | on arbitrary node values above -2^31, a successful Free strictly shrinks the set of negative nodes |
| Allocator.FreeStuckOnLeast | pkg/diskrpc/allocator.go:137-141 | a node holding -2^31 is freed without changing |
| Allocator.RepresentsNoLeast | pkg/diskrpc/allocator.go:118-128 | reachable trees never hold -2^31 |
| Bytes.SetSlotReads | pkg/diskrpc/mailbox.go:489-493 | writing a word changes that word and nothing outside its four bytes |
| Disk.ToBlocksCover | pkg/diskrpc/mailbox.go:501-503 | the least number of blocks that covers the size |
| Disk.HeaderRoundTrip | pkg/diskrpc/mailbox.go:322-371 | reading the header that format wrote gives back block size, state size and node count |
| Disk.HeaderBytes | pkg/diskrpc/mailbox.go:428-440 | every byte of the header that format writes: the magic text, version 1, a zero, three words least significant byte first at bytes 18, 22 and 26, and zeros behind |
| Disk.AcceptedIff | pkg/diskrpc/mailbox.go:322-371 | readHeader accepts a device iff it has a whole block with that magic text, version and zero, a positive block size divisible by 4096 and an allocator size four below a power of two; the sizes it then returns |
| Disk.StateWritten | pkg/diskrpc/mailbox.go:390-404 | a completed state write makes all copies equal and is read back, whatever was there before |
| Disk.StateInterrupted | pkg/diskrpc/mailbox.go:390-404 | the three shapes that an interrupted state write can leave, with arbitrary bytes in the copy being written |
| Disk.StateAtomic | pkg/diskrpc/mailbox.go:374-404 | if copies 1 and 2 agree, an interrupted state write reads as the old or the new state |
| Disk.LandedIff | pkg/diskrpc/mailbox.go:374-404 | if copies 1 and 2 agree, an interrupted write of another state is read iff the first two copies hold it; otherwise the old state is read |
| Disk.UnsafeWrite | pkg/diskrpc/mailbox.go:374-387 | if they differ, rewriting the very state that is read can be cut so that another state appears |
| Disk.TwoInterruptions | pkg/diskrpc/mailbox.go:374-404 | from every clean disk two cuts, of writes of any two states, can make any given bytes the state that is read |
| Disk.AtomicIffRecoverable | pkg/diskrpc/mailbox.go:374-404 | the next state write is atomic for every state and every cut iff copies 1 and 2 agree |
| State.StoreNodesReads | pkg/diskrpc/mailbox.go:489-493 | every tree slot holds its node, all other bytes are untouched |
| State.RewriteReads | pkg/diskrpc/mailbox.go:209-212 | after rewriting tree and one head, every signed node and that head read back, other heads and padding are kept |
| State.StateDetermined | pkg/diskrpc/mailbox.go:96-107 | heads, nodes and padding determine the bytes of a STATE segment |
| State.Layout | pkg/diskrpc/mailbox.go:96-107 | 2000 head words fill bytes 192 to 8192, the tree words follow, and no two overlap |
| State.AllocatorToState | pkg/diskrpc/mailbox.go:489-493 | in place, equals storing the nodes one by one |
| State.AllocatorFromState | pkg/diskrpc/mailbox.go:495-499 | in place, the nodes depend on the state alone and not on what the constructor put there |
| MailSpec.FrameInBlock | pkg/diskrpc/mailbox.go:192-193 | a frame lies inside the block allocated for it |
| MailSpec.StateInReserved | pkg/diskrpc/mailbox.go:447-462 | HEADER and all STATE copies lie inside the reservation at address 0 |
| MailSpec.EntryBehindState | pkg/diskrpc/mailbox.go:109-115 | every undelivered message lies behind HEADER and STATE |
| MailSpec.FramesSurviveState | pkg/diskrpc/mailbox.go:390-404 | rewriting STATE, even partly, touches no message |
| MailSpec.SurvivesFreeWrite | pkg/diskrpc/mailbox.go:112-115 | any bytes written inside a block apart from all allocated ones leave all mailboxes, HEADER and STATE as they were |
| MailSpec.LivePush | pkg/diskrpc/mailbox.go:193-212 | a push adds exactly the block of the new message |
| MailSpec.LiveClear | pkg/diskrpc/mailbox.go:285-293 | clearing a box removes exactly the blocks of its messages |
| MailOps.PlanSendSpec | pkg/diskrpc/mailbox.go:179-212 | Send finds room iff an aligned free run is left for the frame; it takes the lowest and plans a state with the message first in the recipient's list |
| MailOps.PushState | pkg/diskrpc/mailbox.go:186-212 | the rewritten state describes the pushed mailboxes: heads, tree, chaining, distinct blocks |
| MailOps.DataWritten | pkg/diskrpc/mailbox.go:201-208 | during and after the data write the old mailboxes are intact; after it the frame is in place |
| MailOps.SendCompletes | pkg/diskrpc/mailbox.go:150-217 | a completed Send leaves the old mailboxes with the message pushed, and three equal copies |
| MailOps.SendAtomic | pkg/diskrpc/mailbox.go:150-217 | an interrupted Send leaves exactly the old or exactly the pushed mailboxes |
| MailOps.SendLandedIff | pkg/diskrpc/mailbox.go:197-216 | after a cut anywhere in Send the pushed mailboxes hold iff the first two state copies hold the planned state; otherwise the old ones hold |
| MailRecv.Drain | pkg/diskrpc/mailbox.go:259-289 | the loop ends on any disk contents, cyclic lists included, because each round frees one more node; it keeps the size of the tree |
| MailRecv.DrainIff | pkg/diskrpc/mailbox.go:259-289 | on any disk, tree and head the loop succeeds iff there is a walk: frames that unmarshal, each at the link of the one before, the last link negative, whose blocks can all be freed in turn; it then delivers that walk in order and leaves the tree after those frees |
| MailRecv.DrainFails | pkg/diskrpc/mailbox.go:261-289 | one frame on the way that is unreadable, does not unmarshal or whose block cannot be freed, and the loop ends with an error |
| MailRecv.RecvFails | pkg/diskrpc/mailbox.go:259-293 | such a frame in the local list leaves Recv without a plan, so without any state write |
| MailRecv.ReadBackIff | pkg/diskrpc/mailbox.go:262-274 | a frame on the disk is read back as it was written iff it fits one block, or fills whole blocks and repeats its length |
| MailRecv.DrainSpec | pkg/diskrpc/mailbox.go:261-289 | on a well-formed list of frames that are read back the loop delivers every message in order and frees exactly its blocks |
| MailRecv.ClearState | pkg/diskrpc/mailbox.go:290-293 | the rewritten state describes the mailboxes with that box empty |
| MailRecv.PlanRecvSpec | pkg/diskrpc/mailbox.go:243-293 | on a disk that holds mailboxes Recv succeeds, returns the whole local box newest first, and plans to clear it |
| MailRecv.RecvCompletes | pkg/diskrpc/mailbox.go:219-298 | a completed Recv leaves the mailboxes with the local one empty, and three equal copies |
| MailRecv.RecvAtomic | pkg/diskrpc/mailbox.go:219-298 | an interrupted Recv leaves exactly the old or exactly the cleared mailboxes |
| MailRecv.RecvLandedIff | pkg/diskrpc/mailbox.go:290-297 | after a cut anywhere in Recv the box is empty iff it was before or the first two state copies hold the planned state; otherwise the old mailboxes hold |
| MailRuns.HoldsUnique | pkg/diskrpc/mailbox.go:105-110 | the bytes of a disk determine its mailboxes, so "old or new" is unambiguous |
| MailRuns.FirstAlloc | pkg/diskrpc/mailbox.go:453-462 | the first allocation of a fresh tree succeeds iff it fits and is placed at address 0, so format never panics |
| MailRuns.FormatRoom | pkg/diskrpc/mailbox.go:447-470 | format gets a state iff the reservation fits; that state describes 2000 empty mailboxes |
| MailRuns.FormatIff | pkg/diskrpc/mailbox.go:407-457 | with platform blocks, format has a state to write iff the device is below 2 GiB and has a power of two of at least sixteen blocks |
| MailRuns.FormatHeader | pkg/diskrpc/mailbox.go:428-446 | after the header write readHeader returns the sizes format computed |
| MailRuns.FormatHolds | pkg/diskrpc/mailbox.go:407-475 | a formatted device holds 2000 empty mailboxes with three equal copies |
| MailRuns.FormatTooSmall | pkg/diskrpc/mailbox.go:441-457 | when the reservation does not fit, format fails but the header it left is accepted |
| MailRuns.EmptyStateUnique | pkg/diskrpc/mailbox.go:290-297 | two states without undelivered messages are the same bytes |
| MailRuns.DrainedIsFresh | pkg/diskrpc/mailbox.go:290-297 | draining every mailbox leaves STATE byte for byte as format wrote it |
| MailHistory.StepFollows | pkg/diskrpc/mailbox.go:150-298 | every call, completed, refused, skipped or cut, changes the mailboxes as a push, a drain or nothing, and spoils no other mailbox |
| MailHistory.RunExplained | pkg/diskrpc/mailbox.go:96-298 | over every run from an empty disk, with frames of any size: blocks are exactly the reservation and the undelivered messages, each box is what was sent to it since it was drained, each Recv returned exactly that |
| MailBoxes.Device.WriteState | pkg/diskrpc/mailbox.go:390-404 | all three copies on success, an interrupted state write on failure |
| MailBoxes.MailBox.Format | pkg/diskrpc/mailbox.go:407-475 | what the device holds after format, for success and for each way to fail; when the device has no fault it succeeds iff the sizes are accepted and the reservation fits |
| MailBoxes.MailBox.ReadHeader | pkg/diskrpc/mailbox.go:322-371 | a blank device is formatted, any other is left alone; the sizes are those on the device; when the device has no fault it fails only on a header that is rejected or a blank device that cannot be formatted |
| MailBoxes.MailBox.Load | pkg/diskrpc/mailbox.go:374-387 | the selected state copy and the tree it stores; fails only on a device fault or when the copies lie past the end |
| MailBoxes.MailBox.Send | pkg/diskrpc/mailbox.go:150-217 | on every disk that holds mailboxes: on success the message, with its sender, size and link, is in front of box `recipient`, or of the own box for 0, and every other box is as it was; a failure from agreeing STATE copies 1 and 2 leaves the old mailboxes or those; without a device fault it succeeds iff an aligned free run is left. On any disk: exactly the planned writes, an interrupted part of them, or nothing; a blank device is formatted first |
| MailBoxes.MailBox.Commit | pkg/diskrpc/mailbox.go:197-216 | data first, then the state with the new tree and head; interrupted on failure |
| MailBoxes.MailBox.ReadFrame | pkg/diskrpc/mailbox.go:262-274 | when the reads succeed, exactly the bytes that the two-branch read yields |
| MailBoxes.MailBox.DrainList | pkg/diskrpc/mailbox.go:259-289 | on success the messages and the remaining tree are those of Drain; on failure there was a device fault or Drain fails |
| MailBoxes.MailBox.Recv | pkg/diskrpc/mailbox.go:219-298 | on every disk that holds mailboxes whose local frames are read back: on success exactly the local box newest first, that box then empty and all others unchanged; without a device fault it succeeds. On any disk: the planned messages and state write, or an error without messages; without a device fault it succeeds iff there is a plan; a pre-read without message does nothing |
| MailBoxes.SentAnyway | pkg/diskrpc/mailbox.go:150-217 | from what Send did to the bytes, on whatever disk, follows what became of the mailboxes: the message in front of the recipient's box, 0 being the sender's own, and no other box changed |
| MailBoxes.EmptiedAnyway | pkg/diskrpc/mailbox.go:219-298 | from what Recv did to the bytes follows that it returned the local box in order, with sender and payload, and emptied that box alone |
| MailBoxes.SendErrorMayLand | pkg/diskrpc/mailbox.go:206-216 | whenever Send finds room there is an outcome that reports an error while the message has arrived |
| MailBoxes.SendErrorIff | pkg/diskrpc/mailbox.go:206-216 | after a Send that reported an error the message is there iff there was a plan whose state the first two copies hold; otherwise nothing changed |
| MailBoxes.RecvErrorMayDrain | pkg/diskrpc/mailbox.go:290-297 | whenever Recv can read its box there is an outcome that reports an error and returns nothing while the box was emptied |
| MailBoxes.RecvErrorIff | pkg/diskrpc/mailbox.go:290-297 | after a Recv that reported an error the box is empty iff it was before or the first two copies hold the planned state; otherwise nothing changed |
| MailBoxes.SendIsStep | pkg/diskrpc/mailbox.go:150-217 | whatever Send does to the device, on any disk it completes or refuses on and any recoverable disk it is cut on, is a step of the run model whose event names box `recipient`, or the sender's own for 0 |
| MailBoxes.RecvIsStep | pkg/diskrpc/mailbox.go:219-298 | whatever Recv does to the device, under the same conditions, is a step of the run model |
| MailWitness.OneMessage | pkg/diskrpc/mailbox.go:150-298 | the assumptions of the run theorem can be met: a codec, a formatted device and a run in which a message is sent and received |
| MailWitness.LongLetter | pkg/diskrpc/mailbox.go:266-279 | a message with one block of payload, sent over a formatted device, is on the disk, is not read back, and Recv of its mailbox fails without a write |
| MailWitness.SmallDevice | pkg/diskrpc/mailbox.go:441-457 | on a blank device of eight platform blocks format fails and the header it wrote is accepted |
| VolumeLock.NodeStepKeeps | pkg/driverd/volumelock.go:74-254 | every step of a node keeps its invariant and at most one owner per volume, and leaves alone what is active on other nodes |
| VolumeLock.RelyKeeps | pkg/driverd/volumelock.go:74-254 | steps of other nodes keep a node's invariant |
| VolumeLock.RunInv | pkg/driverd/volumelock.go:74-254 | the invariant holds in every state of every run, any number of nodes, any failures, any restarts |
| VolumeLock.LockSafety | pkg/driverd/volumelock.go:74-254 | no two nodes have ops on a volume; a node with ops has it active and, unless sync adopted it, is its only owner |
| VolumeLock.EmptiedIff | pkg/driverd/volumelock.go:116-148 | a step empties the op set of a locked volume iff its own node unlocks the last op or stops; otherwise the volume stays adopted or not |
| VolumeLock.ActiveUntilReleased | pkg/driverd/volumelock.go:74-148 | over every run, as long as the node neither unlocks the last op nor stops, the volume keeps its ops, stays active there, and keeps its owner unless adopted |
| VolumeLock.ReleasedIsUntagged | pkg/driverd/volumelock.go:116-148 | over every run, after a node released a volume, no owner tag names the node until it tags the volume again |
| VolumeLock.ReleasedIsInactive | pkg/driverd/volumelock.go:116-148 | over every run, after a node released a volume it is not active there until the node activates it again |
| VolumeLocker.Locker.LockVolume | pkg/driverd/volumelock.go:74-114 | on success one more op and an active volume, and a fresh lock leaves this node as the only owner; on failure no op, and the exact calls made: an activated volume that could not be tagged is deactivated again, and is then inactive unless that call failed too; other volumes untouched; the cluster invariant is kept under interference |
| VolumeLocker.Locker.UnlockVolume | pkg/driverd/volumelock.go:116-148 | the op is gone whether or not LVM fails; the last successful release leaves the volume forgotten, inactive here and without an owner tag of this node; it fails iff a call failed, tags before deactivation; any other release calls nothing |
| VolumeLocker.Locker.Acquire | pkg/driverd/volumelock.go:89-107 | active and solely owned on success; otherwise which call failed, and that a granted activation was given back |
| VolumeLocker.Locker.GiveUp | pkg/driverd/volumelock.go:236-250 | a volume found active but not open ends inactive and without this node's tag, unless a call about it failed |
| VolumeLocker.Locker.TakeOwnership | pkg/driverd/volumelock.go:177-215 | on success the node is the only owner of its active volume |
| VolumeLocker.Locker.DropOwnership | pkg/driverd/volumelock.go:177-215 | on success no tag names this node, and an active volume has no owner; a failure is a call that failed |
| VolumeLocker.Locker.Sync | pkg/driverd/volumelock.go:217-254 | the volumes listed are those active on this host; exactly the open ones are locked, under the default op, and marked adopted; the others are inactive and untagged unless a call about them failed; the invariant is kept |
| DiskRpc.NextInv | pkg/diskrpc/diskrpc.go:85-310 | every step of every node keeps the invariant: one copy per message, genuine contents, rightly addressed, bounded queues |
| DiskRpc.RunInv | pkg/diskrpc/diskrpc.go:85-310 | the invariant holds in every state of every run |
| DiskRpc.AtMostOnce | pkg/diskrpc/diskrpc.go:118-310 | each request id is executed at most once, as it was issued, at the node that its Invoke named, 0 being the issuer |
| DiskRpc.OwnResponse | pkg/diskrpc/diskrpc.go:218-238 | each Invoke receives at most one response, computed from its own request by the node it asked |
| DiskRpc.RightlyRouted | pkg/diskrpc/diskrpc.go:118-310 | in every state of every run each queued message is addressed to the node it is for and each received one names its sender: a request goes from its issuer to the node asked, a response back to the issuer |
| DiskRpc.BoundedQueues | pkg/diskrpc/diskrpc.go:118-142 | pending ids belong to waiting Invokes; the queue never exceeds 257 messages |
| DiskRpc.BlockedIffStuck | pkg/diskrpc/diskrpc.go:218-238 | in every state of every run in which a response is offered, the hand-over can happen iff its Invoke has not returned |
| DiskRpc.StuckIffLateTimeout | pkg/diskrpc/diskrpc.go:138-160 | a step, of whichever node, leaves Handle stuck iff the Invoke returned while its response was being offered |
| DiskRpc.StuckUntilRestart | pkg/diskrpc/diskrpc.go:223-237 | from then on Handle stays stuck through every run until the node restarts |
| RpcWitness.StuckIsReachable | pkg/diskrpc/diskrpc.go:138-238 | a run of one node, from the start, that ends with Handle stuck |
| RpcEndpoint.Endpoint.Enqueue | pkg/diskrpc/diskrpc.go:118-137 | refuses iff more than 64 messages are queued; otherwise the id is pending and the request to its recipient is last in the queue, which is the scheduling step of the cluster model |
| RpcEndpoint.Endpoint.HandleRequest | pkg/diskrpc/diskrpc.go:240-310 | executes iff a handler accepts, then makes the reply step of the cluster model |
| RpcEndpoint.Endpoint.Handle | pkg/diskrpc/diskrpc.go:176-216 | one round over the received messages up to the first that does not unmarshal: executions, answers, pending ids, and the batch to send or the queue that stays on an error |
| RpcEndpoint.HandleIsRun | pkg/diskrpc/diskrpc.go:176-310 | in every cluster that meets the invariant a round is a sequence of steps of its node; tables, Invokes, executions and receipts change by exactly what the round reports, and no hand-over blocks |
| RpcEndpoint.ExecutionsConcat | pkg/diskrpc/diskrpc.go:186-200 | a round executes every accepted request, in the order received, once per message, and nothing else |
| RpcEndpoint.PendingLeft | pkg/diskrpc/diskrpc.go:218-238 | after a round exactly the ids without a response are still pending |
| RpcEndpoint.FirstAnswers | pkg/diskrpc/diskrpc.go:218-238 | the first response to a pending id is handed to its Invoke |
| RpcEndpoint.RepliesAre | pkg/diskrpc/diskrpc.go:298-308 | the queue gets the responses, each to the sender of its request, in order, until it holds 257 messages |
| RpcEndpoint.RoundOnce | pkg/diskrpc/diskrpc.go:176-310 | a round executes only issued requests that were never executed, each once, and answers its Invokes with results of their own requests |
| RpcEndpoint.AnsweredOnce | pkg/diskrpc/diskrpc.go:218-238 | whatever a round receives, duplicates included, each pending id is answered at most once and is then gone |
| RpcEndpoint.RepliesBounded | pkg/diskrpc/diskrpc.go:298-308 | a round keeps the queued messages and stays within 257 |
| TagEncoder.EncodeTag | pkg/driverd/tagencoder.go:23-33 | the loop computes Encode |
| TagEncoder.DecodeTag | pkg/driverd/tagencoder.go:35-71 | the loop with its quote state computes Decode, errors included |
| TagEncoder.EncodeFixedIff | pkg/driverd/tagencoder.go:23-86 | a value is its own encoding iff all its bytes are LVM tag characters other than the ampersand and it does not start with a hyphen |
| TagEncoder.QuotedForm | pkg/driverd/tagencoder.go:23-33 | every other byte becomes an ampersand and its two lower-case hexadecimal digits, a space for the first below 0x10 |
| TagEncoder.DecodeIs | pkg/driverd/tagencoder.go:35-99 | decoding fails iff the tag is not a sequence of plain characters and complete hexadecimal quotes, and otherwise replaces each quote by its byte |
| TagEncoder.DecodeFixedIff | pkg/driverd/tagencoder.go:35-86 | a tag decodes to itself iff all its bytes are LVM tag characters other than the ampersand and it does not start with a hyphen |
| TagEncoder.RoundTripIff | pkg/driverd/tagencoder.go:23-71 | decoding gives back the value iff no byte is below 0x10, and is an error otherwise |
| TagEncoder.EncodeInjective | pkg/driverd/tagencoder.go:23-33 | encodings of such values are distinct |
| TagEncoder.EncodeAlphabet | pkg/driverd/tagencoder.go:23-86 | the output uses only the characters LVM allows in tags (letters, digits, _ + . - / = ! : & #) iff no byte is below 0x10; it never has a comma |
| TagEncoder.NoLeadingHyphen | pkg/driverd/tagencoder.go:73-86 | no encoding starts with a hyphen |
| Tags.KVRoundTripIff | pkg/driverd/tags.go:51-68 | a pair decodes to itself iff its key has no equals sign and no leading hyphen and no byte is below 0x10 |
| Tags.KVInjective | pkg/driverd/tags.go:66-68 | such pairs have distinct tags |
| Tags.DecodeKVIs | pkg/driverd/tags.go:51-64 | foreign iff the driver's prefix is missing, an error iff the rest does not decode or has no equals sign, otherwise split at the first one |
| Tags.PlainTag | pkg/driverd/tags.go:27-68 | a key and value that need no quoting are tagged as they read: csi-sanlock-lvm.vleo.net/, the key, an equals sign, the value |
| Tags.DecodeTags | pkg/driverd/tags.go:89-105 | the loop computes DecodeAll: foreign tags skipped, bad tags and repeated keys are errors |
| Tags.DecodeAllIs | pkg/driverd/tags.go:89-105 | succeeds iff no tag of the driver is bad and no key comes twice; the map then has exactly the pairs of the driver's tags |
| Tags.DecodeListed | pkg/driverd/tags.go:89-105 | any listing of a map's tags, in any order and among any foreign tags, decodes to the map |
| Tags.LessIff | pkg/driverd/tags.go:75-79 | the order of the keys: a proper prefix first, otherwise the smaller byte at the first difference |
| Tags.SortedUnique | pkg/driverd/tags.go:75-79 | a set of keys has one sorted listing |
| Tags.EncodeTags | pkg/driverd/tags.go:74-87 | for every iteration order of the map the result is that of the one sorted listing |
| Tags.MapRoundTrip | pkg/driverd/tags.go:74-105 | decodeTags after encodeTags is the identity |
| OwnerTags.FieldRoundTripIff | pkg/lvmctrld/lvmctrldserver.go:326-331 | a tag list survives LVM's comma-separated field iff no tag has a comma and it is not one empty tag |
| OwnerTags.FieldDecodes | pkg/lvmctrld/lvmctrldserver.go:326-331 | a map's tags among comma-free foreign ones decode to the map after the field, also where the field loses an empty tag |
| OwnerTags.SetOwner | pkg/driverd/volumelock.go:177-215 | fails iff the tags do not decode; otherwise deletes the stale and adds the wanted owner tags |
| OwnerTags.OwnerTagText | pkg/driverd/tags.go:27-33 | the owner tags letter by letter, with the keys ownerId and ownerNode |
| OwnerTags.OwnerUpdate | pkg/driverd/volumelock.go:177-215 | after the change the tags carry the requested owner and every other pair once, foreign tags untouched; the two lists are disjoint, so their order is irrelevant |
| OwnerTags.CarriedDecodes | pkg/driverd/volumelock.go:150-171 | any listing of such a volume's tags decodes to the carried map, which GetOwner reads |
| CreateVolume.Controller.PrepareSource | pkg/driverd/controllerserver.go:275-321 | the locks to release and the snapshot to remove are exactly what was acquired and created, except a snapshot that lvcreate made while reporting a failure; whenever a snapshot is taken or a source is used, its lock is held and it is active here; it stops only if a call failed |
| CreateVolume.Controller.CreateTarget | pkg/driverd/controllerserver.go:331-420 | the volume is added only when it was absent; a failure afterwards puts it on the cleanup list; one made while lvcreate reports a failure is not on it; a fresh volume is locked and active here; the exact answer when no call fails |
| CreateVolume.Controller.Body | pkg/driverd/controllerserver.go:261-430 | op sets grow by the held locks, the volume group by the cleanup list, by what lvcreate made while failing and, on fresh creation, by the new volume; a fresh volume was filled under its own lock and that of its source; the exact answer when no call fails |
| CreateVolume.Controller.ReleaseAll | pkg/driverd/controllerserver.go:910-914 | every held op is released even if LVM fails |
| CreateVolume.Controller.CleanUp | pkg/driverd/controllerserver.go:261-273 | the listed volumes are gone except exactly those whose removal was refused |
| CreateVolume.Controller.Create | pkg/driverd/controllerserver.go:261-430 | op sets end as they began; the group gains the new volume iff creation is fresh, plus exactly what could not be removed and what lvcreate made while failing; no existing volume is lost; when no call fails the answer is the one that the request and the group determine |
| Pagination.TokenRoundTrip | pkg/driverd/volumeref.go:65-85 | a valid volume's token parses back to it and is not empty |
| Pagination.IdSpelled | pkg/driverd/volumeref.go:83-85 | a token spells the volume's name, an at sign and the group's name, in this order |
| Pagination.TokenIff | pkg/driverd/controllerserver.go:616-623 | a token is accepted as a volume iff both names are valid and it is that volume's id |
| Pagination.NameIsTag | pkg/driverd/controllerserver.go:52 | a name is valid iff it is not empty, is its own tag encoding, and has none of / = ! : # |
| Pagination.GeneratedOk | pkg/driverd/volumeref.go:25-63 | every name the driver generates, base64 with / replaced, is valid |
| Pagination.GeneratedInjective | pkg/driverd/volumeref.go:49-63 | different digests give different names, so the replacement loses nothing |
| Pagination.List | pkg/driverd/controllerserver.go:614-655 | one call returns the page from the start or from the token's first occurrence; errors exactly for tokens that name no listed volume |
| Pagination.Fetch | pkg/driverd/controllerserver.go:858-899 | the token of a listed volume gives the page that starts with it |
| Pagination.FollowTokens | pkg/driverd/controllerserver.go:614-655 | following the tokens yields the whole list in order, without repeats or gaps, in ceil(n/k) pages, one for an empty list |

## Left out

- Direct I/O, seeks, opening and sizing the device: the device is a byte sequence whose reads and writes may fail.
- Protobuf wire format: marshal and unmarshal are an abstract pair of which only the round trip is known; a marshalled message is below 2 GiB.
- MailHistory.RunExplained: a mailbox to which a frame was sent that Recv misreads is not received again; what unmarshalling misread bytes yields depends on the codec, and with the one of `LongLetter` Recv fails.
- MailRecv.DrainSpec: for the same reason, and likewise PlanRecvSpec, RecvCompletes and RecvAtomic, about boxes whose frames are read back.
- MailHistory.RunExplained: a cut call starts from agreeing STATE copies 1 and 2, which `AtomicIffRecoverable` shows to be necessary; format is one step, taken before the run.
- Allocator.FreeProgressIff: fewer than 2^31 - 1 nodes; with as many the size that Free starts from wraps and Free is broken anyway (`FreeExactIff`). An accepted header promises fewer than 2^30.
- Allocator.FreeProgress: fewer than 2^31 - 1 nodes, for the same reason.
- MailBoxes.MailBox.Send: what it does to mailboxes is stated for payloads whose message marshals below 2 GiB; recipients are 0 to 2000, as the source demands without checking; a panic on a tree without nodes is an error that writes nothing.
- MailBoxes.MailBox.Recv: the unlocked pre-read is a parameter with an arbitrary value; that it may itself format a blank device without the lock is not modelled. No tree node is -2^31, because the loop does not end there.
- MailBoxes.MailBox.DrainList: no tree node is -2^31, as for Recv.
- MailBoxes.MailBox.Format: uses the platform block size, the only one the source passes.
- Buddy.AddressAt: the level of a node is the exact integer logarithm; the source computes it in floating point, whose rounding is not modelled.
- VolumeLock.LockSafety: LVM is trusted to activate a volume on one host at a time and to refuse tag changes by others; hosts, volumes and ops are numbers, and one owner stands for the ownerId and ownerNode tags together.
- VolumeLocker.Locker.LockVolume: mutex and goroutines inside a node are not modelled; the methods run one at a time.
- DiskRpc.AtMostOnce: nodes are numbered from 1; identifiers are fresh (UUIDs), channel 0 only, handlers are arbitrary; timestamps, error texts and reflection are not modelled.
- DiskRpc.AtMostOnce: the mailboxes are ones that never bring back a drained message. That is `RunExplained`, as long as a completed state write lies between two interruptions; after two interruptions in a row an old state can come back (`TwoInterruptions`), and a request in it would be executed again.
- DiskRpc.StuckUntilRestart: only safety; the deadline that Invoke picks and any claim that an Invoke gets its answer are not modelled.
- RpcEndpoint.HandleIsRun: no Invoke starts or returns during the round, and handlers are functions of the request; the cluster model has those interleavings, and a late return is `StuckIffLateTimeout`.
- CreateVolume.Controller.Create: other nodes creating or removing volumes at the same time, activation by lvcreate itself, an lvremove that reports a failure after it took effect, and the delegated call are not modelled; whether the arguments are valid, a present volume is large enough, and the content can be filled in are answers given with the request.
- Tags.EncodeTags: sorting is an insertion sort, standing for the library's.
- Pagination.FollowTokens: the list does not change between calls and has distinct valid names.
- Pagination.List: MaxEntries is an unbounded integer.
- Volume data copying, mkfs, mount, staging and publishing: system calls.
- The lvmctrld server's command lines, JSON reports and error classification: thin wrappers over the LVM tools.
- Capacity rounding, snapshot sizes, capability checks, host-id derivation, gRPC set-up, main programs, manifests: they would only add easy members.
