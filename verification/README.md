# fuse4x: a verified model of its kernel side

This project models the hardest parts of fuse4x, the macOS kernel extension that carries file-system requests to a
user-space daemon, and proves what its data structures and protocols promise. `dafny verify dfyconfig.toml` checks
all of it.

* **Trees** (`Elements`, `TreeShape`, `RbColour`, `RbOrder`, `RbRemoval`, `RbTree`, `SplayShape`, `SplayTree`): the
  red-black and the top-down splay tree of `compat/tree.h`, as methods that write the link and colour fields of node
  objects and the root. A ghost tree with a hole (`TreeShape.Ctx`) says what every field must hold; each write is
  proved against it.
* **Tickets** (`Lists`, `Threads`, `TicketProtocol`, `TicketSafety`, `TicketTheorems`, `TicketReplies`, `TicketEarly`,
  `TicketProgress`, `TicketEffects`, `TicketService`): requesters, device readers and device writers sharing tickets,
  as a step relation for any number of threads. The steps are those of the live session; a signal and the retaking of
  the lock after it are two steps. A reply carries a number and finds its ticket by it. `Honest` says that the daemon
  answers a request only once it has been read (or lost); `TicketEarly` proves that this condition is exact.
  `TicketEffects` and `TicketService` say what the steps bring about: a request served from the fetch to the drop, an
  INTERRUPT sent, a request given up.
* **Ticket pool and INIT** (`TicketPool`, `TicketPoolSafety`, `TicketSession`, `TicketSleepers`, `TicketGate`): the
  recycled tickets, their counters, and the gate in front of the INIT answer, dead sessions included.
  `TicketSession.Session` holds the fields of `struct fuse_data` and runs the mutex sections on them.
* **Devices** (`DeviceLifecycle`, `DeviceSafety`, `DeviceTheorems`, `DeviceOutcomes`): open, close, mount, failed
  mount, unmount, stop and the two kinds of mutex they nest, for any number of threads and devices; what each brings
  about, and which opens make a session.
* **Node locks** (`Merge`, `NodeOrder`, `NodeLocking`): the order of file nodes, the merge of `fusefs_lockfour` over
  arrays with sentinels, taking all locks or none, and releasing them.
* **I/O loops** (`Bytes`, `Messages`, `Answers`, `Strategy`, `StrategyContent`, `Dirents`, `Readdir`, `DirentCodec`):
  chunked read and write on one ticket that is refreshed and filled in again for each request, down to the bytes that
  are copied out to the daemon; and the repacking of directory records from the daemon's bytes, with an encoder of
  them.
* **Ledgers** (`Counts`, `LookupLedger`, `VnodeTable`, `HandleLedger`, `FileHandles`): lookups granted, held and
  forgotten, over the red-black index of vnodes; open handles, OPEN and RELEASE. The classes are proved against
  functions on ledgers, whose runs are what the theorems are about.

Concurrent code is modelled as steps: a step is what a thread does in one mutex section, or outside them on what
nobody else can reach. A daemon is a parameter: a function from what it has read to its reply.

Results that qualify what the code or its comments say:

* A reply can be followed by a run that drops its ticket while the message is still queued or being read if and only
  if it comes before the message has been read or lost, and is not the one that a FORGET waits for
  (`TicketEarly.HonestyIsExact`).
* `fuse_ticket_fetch` does not look at `dead`. While another thread is idle, a sleeper in it can be woken by something
  else than a signal or an answer to INIT still to come if and only if the session is not `Silent`: dead without that
  answer, with all wake-ups sent (`TicketSleepers.WakeableIffNotSilent`). A run leads there
  (`TicketSleepers.SleeperReached`).
* The comment of `fusefs_lockfour` promises one lock per node. Of two nodes, some arguments make it list one twice if
  and only if they are each other's parents (`NodeOrder.TwiceIffMutualParents`), and of four nodes only if two of them
  are (`NodeOrder.TwiceNeedsMutual`); otherwise the promise holds although the order is not transitive
  (`NodeOrder.NotTransitive`), which matters only for deadlock.
* A stream of replies ends every write if and only if one of them is an error or accepts too much, or it never stops
  accepting something (`Answers.EndsEveryWrite`); a read always ends.
* The caller's count of directory entries is set only from a reply that ends in a cut-off record, and overwritten by
  each such reply; `Readdir.CountIsRight` says exactly when it is the number of records moved, and
  `Readdir.CountIsWrong` gives a daemon for which it is not.
* `fuse_vnop_create` overwrites the read-write slot unseen; the handle ledger stays right if and only if it was free
  (`FileHandles.Handles.Stash`).
* A handle that the daemon opens for an interrupted OPEN or CREATE, or for a CREATE whose entry fails the check, is
  never released. When a live session has no valid slot, a handle is still open if and only if some operation of the
  run has lost it in this way (`HandleLedger.ReleasedIffNeverLost`); such runs exist (`HandleLedger.HandlesLeak`).
* A LINK answer that names another node breaks the lookup ledger, unless it fails the check or the daemon had granted
  the linked node one lookup more than is accounted for, to an interrupted request for example
  (`LookupLedger.LinkFair`, an if and only if).

## Model

| member | source | states |
|---|---|---|
| Elements.WithoutUnique | compat/tree.h:593-622 | adding a node and taking it out again gives back the elements there were |
| Elements.Without | compat/tree.h:527-591 | what "the old elements but this one, still in key order" means |
| TreeShape.PlugInorder | compat/tree.h:341-379 | the key order of a tree is what lies before the hole, the filling, and what lies after it |
| TreeShape.RotKeeps | compat/tree.h:341-379 | a rotation keeps the key order, and turning back undoes it |
| TreeShape.RotLTurns | compat/tree.h:341-359 | a left rotation anywhere changes the fields of exactly four nodes, in this way, and the root only at the top |
| TreeShape.RotRTurns | compat/tree.h:361-379 | a right rotation is a left rotation turned back |
| TreeShape.LiftCells | compat/tree.h:575-586 | lifting an only child changes only its parent link and one link of the parent |
| TreeShape.ReplaceCells | compat/tree.h:555-566 | putting another node in a node's place changes only the links of its neighbours |
| TreeShape.PaintCell | compat/tree.h:332-335 | recolouring a node changes nothing else |
| RbColour.PlugRedBlack | compat/tree.h:52-57 | colours that suit the hole make the whole a red-black tree, and back |
| RbColour.GrandParentBlack | compat/tree.h:409-411 | under a red parent the fix-up of insertion finds a grandparent, and it is black |
| RbColour.UncleRedColours | compat/tree.h:414-419 | with a red uncle, recolouring moves the fault two levels up and keeps the rest |
| RbColour.InnerTurned | compat/tree.h:420-425 | an inner child is turned outward without losing the fix-up's invariant |
| RbColour.OuterTurned | compat/tree.h:426-427 | recolouring and one rotation of an outer child remove the fault |
| RbOrder.PathDown | compat/tree.h:601-610 | each step of the search keeps the key's place inside the subtree |
| RbOrder.PathEnd | compat/tree.h:638-639 | where the search ends, no element has the key |
| RbOrder.PathFits | compat/tree.h:611-619 | where the search ends, the new node fits into the key order |
| RbOrder.HeightAndSize | compat/tree.h:59-60 | black height bounds the height from above and the number of elements from below |
| RbOrder.HeightBound | compat/tree.h:59-60 | a red-black tree of n elements has height at most 2 lg(n + 1) |
| RbRemoval.SiblingExists | compat/tree.h:455-457 | the sibling that the fix-up of removal dereferences is never NULL |
| RbRemoval.SiblingRedColours | compat/tree.h:457-461 | a red sibling is turned above the parent, leaving a black one |
| RbRemoval.SiblingBlackColours | compat/tree.h:462-468 | with black nephews, a red sibling moves the shortage one level up |
| RbRemoval.NearRedColours | compat/tree.h:470-479 | a red inner nephew is turned outward |
| RbRemoval.FarRedColours | compat/tree.h:480-486 | with a red outer nephew one rotation makes up for the shortage |
| RbRemoval.SuccessorInorder | compat/tree.h:536-566 | moving the successor into the node's place takes exactly the node out of the key order |
| RbRemoval.LiftInorder | compat/tree.h:575-586 | lifting the only child takes exactly the node out of the key order |
| RbTree.Head.constructor | compat/tree.h:305-307 | a new tree is empty and valid |
| RbTree.Head.OneNode | fuse_node.c:21-32 | a key has at most one node |
| RbTree.Head.HeightOf | compat/tree.h:59-60 | the height bound holds of every valid tree |
| RbTree.Head.RotateLeft | compat/tree.h:341-359 | the fields written, node by node |
| RbTree.Head.RotateRight | compat/tree.h:361-379 | the fields written, node by node |
| RbTree.Head.TurnUp | compat/tree.h:341-379 | in the heap, a rotation at the hole's parent makes the rotated tree and keeps the key order |
| RbTree.Head.Find | compat/tree.h:624-640 | finds a node with the key, and returns NULL if and only if no element has it |
| RbTree.Head.MinMax | compat/tree.h:707-720 | returns the first or last element in key order, NULL for the empty tree |
| RbTree.Head.Step | compat/tree.h:663-705 | returns the next or previous element in key order, NULL at the end |
| RbTree.Head.ForEach | compat/tree.h:734-747 | visits every element once, in ascending or descending key order |
| RbTree.Head.InsertColor | compat/tree.h:406-448 | the fix-up ends, and turns one red-red pair into a red-black tree with the same key order |
| RbTree.Head.Attach | compat/tree.h:611-619 | the new node hangs red at the hole, everything else as before |
| RbTree.Head.Insert | compat/tree.h:593-622 | an existing key returns its node and changes nothing; otherwise the elements are the old ones and the node, and the tree is valid |
| RbTree.Head.RemoveColor | compat/tree.h:450-524 | the fix-up ends, and makes a tree one black node short into a red-black tree with the same key order |
| RbTree.Head.Splice | compat/tree.h:575-586 | in the heap, the node's only child takes its place |
| RbTree.Head.Replace | compat/tree.h:555-566 | in the heap, the successor takes over the fields and neighbours of the removed node |
| RbTree.Head.Remove | compat/tree.h:526-591 | the elements are exactly the old ones without the node, and the tree is valid |
| SplayShape.TurnLinks | compat/tree.h:87-97 | a splay rotation writes two links and no others |
| SplayShape.PushLinks | compat/tree.h:99-109 | linking the root to a spine writes one link and leaves all others |
| SplayShape.FillLinks | compat/tree.h:111-116 | closing a spine writes one link and leaves all others |
| SplayShape.CloseLeft | compat/tree.h:217-227 | passing the root to the right spine keeps all its keys above the sought one |
| SplayShape.CloseRight | compat/tree.h:228-238 | passing the root to the left spine keeps all its keys below the sought one |
| SplayShape.AssembledDivides | compat/tree.h:240-241 | the assembled tree has the old key order, and its root divides it at the sought key |
| SplayShape.AtRoot | compat/tree.h:209-241 | after a splay the sought key is at the root or nowhere |
| SplayShape.NothingRight | compat/tree.h:198-201 | a left part splayed for a greater key has no right child at its root |
| SplayTree.SplayHead.Rotate | compat/tree.h:87-97 | in the heap, the child is turned up to the root |
| SplayTree.SplayHead.LinkLeft | compat/tree.h:99-103 | in the heap, the root with its right part goes to the end of the right spine |
| SplayTree.SplayHead.LinkRight | compat/tree.h:105-109 | in the heap, the root with its left part goes to the end of the left spine |
| SplayTree.SplayHead.Assemble | compat/tree.h:111-116 | in the heap, both spines are closed and hung from the root |
| SplayTree.SplayHead.Splay | compat/tree.h:208-241 | ends, keeps the elements in order, and brings the sought key to the root if it is there |
| SplayTree.SplayHead.Find | compat/tree.h:126-136 | finds the element with the key, and returns NULL if and only if none has it |
| SplayTree.SplayHead.Insert | compat/tree.h:163-185 | an existing key returns its node and keeps the elements; otherwise the new node is added and is the root |
| SplayTree.SplayHead.Remove | compat/tree.h:187-206 | takes out exactly the element with the key, and returns NULL if and only if there is none |
| SplayTree.SplayHead.CutRoot | compat/tree.h:195-202 | joining the parts takes exactly the old root out of the key order |
| TicketProtocol.Do | fuse_ipc.c:233-297 | the steps of requesters, readers and writers on tickets, lists and locks; the rows of TicketEffects and TicketService say what they bring about |
| TicketSafety.Preserved | fuse_ipc.c:963-1015 | every step of every thread keeps the ownership invariant of all tickets |
| TicketSafety.StepTestAndSet | fuse_ipc.c:974-984 | an interrupted requester keeps the ticket if it was answered and else leaves it to the callback |
| TicketSafety.StepCall | fuse_ipc.c:852-877 | the callback wakes the requester, or takes the ticket over from one that has given up |
| TicketSafety.StepInterrupt | fuse_internal.c:1368-1381 | sending an INTERRUPT keeps the invariant; TicketEffects.SendsInterrupt says what is sent |
| TicketSafety.StepCatch | fuse_ipc.c:258-286 | a sleeper woken by a signal takes the lock again, whether or not it has been answered meanwhile |
| TicketSafety.StepWriteFind | fuse_device.c:375-388 | a reply takes the ticket with its number off the list of awaited ones |
| TicketTheorems.RunsKeep | fuse_ipc.c:963-1015 | the invariant holds in every run of any number of threads |
| TicketTheorems.DropsAreSafe | fuse_ipc.c:559-578 | who is about to drop a ticket has it alone: it is on no list, and no other thread names it |
| TicketTheorems.FetchesAndDrops | fuse_ipc.c:559-578 | a ticket is dropped at most once for each fetch, and is in the pool exactly when they are equal |
| TicketTheorems.OwnerStays | fuse_ipc.c:963-1015 | no run of other threads touches a ticket that one party is left with |
| TicketTheorems.OwnerDrops | fuse_ipc.c:871-874 | that party's drop is the one drop of this fetch |
| TicketTheorems.ReplyLeavesOneOwner | fuse_ipc.c:852-877 | a reply leaves exactly one party to drop the ticket: the callback if the requester has given up, else the requester |
| TicketTheorems.AnsweredRequesterIsDone | fuse_ipc.c:971-1015 | each step of a requester whose ticket is answered brings it nearer to its drop |
| TicketTheorems.NoPanic | fuse_ipc.c:614-622 | the panic on a ticket reused without refresh cannot happen, and no requester wakes unanswered |
| TicketTheorems.ReadInOrder | fuse_device.c:254-267 | messages are read in the order of sending, each at most once, over any run |
| TicketReplies.ReplyFindsItsTicket | fuse_device.c:375-388 | a reply finds the one ticket that issued its number, whose message the daemon has read with this number; it finds none only if no awaited ticket has it |
| TicketEarly.HonestyIsExact | fuse_device.c:375-394 | a reply can lead to a drop while the message is queued or being read, if and only if it comes before the message is read or lost and is not the reply to a RELEASE that a FORGET waits for |
| TicketEarly.AnswerBeforeReading | fuse_device.c:375-394 | a run in which such a reply is possible |
| TicketProgress.PartyCan | fuse_ipc.c:963-1015 | once the reply is taken up, the requester or the writer can always take a step |
| TicketProgress.AtMostEight | fuse_ipc.c:963-1015 | whatever other threads do, those two take at most eight steps before the ticket is dropped or reused |
| TicketProgress.EndsInOneDrop | fuse_ipc.c:963-1015 | by their steps alone the ticket gets dropped, once for this fetch |
| TicketProgress.OneDropIsDue | fuse_ipc.c:852-877 | from the daemon's reply on, in every run: at most eight steps, another one possible, and one drop due |
| TicketEffects.SendsInterrupt | fuse_internal.c:1368-1381 | a requester woken by a signal sends one message more, last, on another ticket that is fetched once more for it, wants no reply, and names the number of the interrupted request; the request's own ticket stays as it is |
| TicketEffects.MessagesMove | fuse_ipc.c:614-633 | just which steps send a message, behind all others, and which one takes the first |
| TicketEffects.FreeMoves | fuse_ipc.c:517-578 | a fetch takes the first free ticket, or makes one if there is none; a drop that keeps the ticket puts it last |
| TicketEffects.AwaitedMove | fuse_ipc.c:598-612 | a ticket is awaited, with the callback it was given, from fuse_insert_callback until a reply with its number |
| TicketService.Asks | fuse_ipc.c:963-972 | a request is sent last and awaited, and its requester sleeps |
| TicketService.ReadsAll | fuse_device.c:226-322 | a reader reads all that was sent, in this order; the daemon is told the numbers, and each ticket that wants no reply is dropped once |
| TicketService.Answers | fuse_device.c:375-394 | the reply to a request that has been read wakes its sleeping requester and ends the wait for it |
| TicketService.Served | fuse_ipc.c:963-1015 | from any state that a session can be in, two idle threads can serve a request: sent last, all messages read, its number told, answered, its ticket dropped once and kept last in the free list or destroyed, and both threads idle |
| TicketService.GivesUp | fuse_ipc.c:258-286 | a signal to a sleeping requester has an INTERRUPT sent that names its request, and it returns, leaving its ticket to whoever takes up the reply |
| TicketService.DropsGivenUp | fuse_ipc.c:852-877 | who takes up the reply to a request given up drops its ticket, once |
| TicketService.ForgetFollows | fuse_internal.c:1328-1340 | the reply that a FORGET waits for leaves its ticket alone, out of all lists |
| TicketService.AsksAgain | fuse_ipc.c:879-901 | a ticket used for the next request keeps its number, and nothing else of the last one |
| TicketPool.Do | fuse_ipc.c:517-578 | the steps of fetch, drop, kill and the INIT callback on pool and flags; the rows of TicketSession.Session and TicketGate say what they bring about |
| TicketPoolSafety.Preserved | fuse_ipc.c:461-578 | every step of every thread keeps places, counters and gate |
| TicketPoolSafety.StepAllocList | fuse_ipc.c:529-549 | a new ticket is listed once, and its fetcher sleeps before INIT |
| TicketPoolSafety.DropBegins | fuse_ipc.c:559-571 | a drop destroys the ticket or takes it to be refreshed, and the counters follow |
| TicketPoolSafety.WakeKeeps | fuse_ipc.c:439-459 | waking all sleepers is right once INIT is done or the session is dead |
| TicketSession.CountersAgree | fuse_ipc.c:461-509 | the counters equal the lists in every run, and a fetch never meets a count mismatch |
| TicketSession.FreeListBound | fuse_ipc.c:559-578 | with N threads and cap M the free list never exceeds M - 1 + N |
| TicketSession.InitComesFirst | fuse_internal.c:1385-1473 | before the INIT answer no other ticket's message is sent unless the session is dead, and a woken sleeper finds one of the two |
| TicketSession.KillAlone | fuse_ipc.c:439-459 | a kill that finds the session alive makes it dead and wakes every sleeper; another one changes nothing |
| TicketSleepers.SleepsOn | fuse_ipc.c:539-541 | in a session that died before the INIT answer, a sleeper sleeps on in every run without a signal to it |
| TicketSleepers.WakeableIffNotSilent | fuse_ipc.c:439-459 | exactly when something else than a signal or a coming INIT answer can wake a sleeper |
| TicketSleepers.SleeperReached | fuse_ipc.c:517-549 | a run to a sleeper that nothing wakes |
| TicketGate.QueueAlone | fuse_ipc.c:614-633 | a message is queued last if and only if the session is alive when looked at |
| TicketGate.InitAlone | fuse_internal.c:1385-1452 | after the INIT callback the session is initialized, all sleepers are awake, the ticket is in the pool or destroyed, and an error has killed the session |
| TicketGate.SignalAlone | fuse_ipc.c:539-556 | a signal to a sleeper kills the session, wakes the others, and lets it return with its ticket |
| TicketSession.Session.TakeFree | fuse_ipc.c:517-549 | the first free ticket is taken; it sleeps if and only if the session is not initialized and this is not the first ticket, and else kills the session if and only if there are too many; both panics are unreachable |
| TicketSession.Session.TakeNumber | fuse_ipc.c:180-182 | the next number is given out, and no ticket has it |
| TicketSession.Session.PushAll | fuse_ipc.c:529-549 | the new ticket is listed last; whether it sleeps or kills the session, exactly |
| TicketSession.Session.BeginDrop | fuse_ipc.c:559-571 | the ticket is to be destroyed if and only if it is killed or the free list is full; only then it leaves the list and is counted as dead |
| TicketSession.Session.PushFree | fuse_ipc.c:572-577 | a ticket not yet free becomes the last free one, and is counted |
| TicketSession.Session.FinishInit | fuse_internal.c:1446-1449 | the session is initialized and every sleeper awake |
| DeviceLifecycle.Do | fuse_device.c:96-222 | the steps of open, close, mount, unmount and stop between blocking locks; the rows of DeviceOutcomes say what they bring about |
| DeviceSafety.Preserved | fuse_device.c:96-222 | every step of every thread keeps the invariant of devices, sessions and locks |
| DeviceSafety.StepCloseDo | fuse_device.c:196-209 | close ends the opened flag and destroys the session only if it is not mounted |
| DeviceSafety.StepFailDo | fuse_vfsops.c:488-508 | a failed mount takes its mount back and destroys the session only if it is not opened |
| DeviceSafety.StepUnmountDo | fuse_vfsops.c:661-680 | unmount ends the mounted flag and destroys the session only if it is not opened |
| DeviceTheorems.UseCounts | fuse_device.c:123-167 | usecount is 0 or 1, and a published session is opened or mounted |
| DeviceTheorems.FreedOnce | fuse_device.c:41-48 | a session is destroyed exactly once, by whoever clears the last of its two flags, and until then its device has it |
| DeviceTheorems.NoPanic | fuse_device.c:189-192 | the panic of close on a device without data is unreachable |
| DeviceTheorems.MountCount | fuse_vfsops.c:388-390 | fuse_mount_count is the number of mounted sessions |
| DeviceTheorems.StopFindsNothing | fuse_device.c:456-517 | devices_stop succeeds only when no device is in use and every session has been destroyed |
| DeviceTheorems.ChainEnds | fuse_device.c:123-157 | a chain of threads waiting for each other's mutexes ends after three |
| DeviceTheorems.NoWaitCycle | fuse_device.c:123-157 | threads never wait for each other in a circle, though open nests the mutexes both ways |
| DeviceTheorems.SomeoneMoves | fuse_device.c:96-222 | while any operation is under way, some thread under way can take a step |
| DeviceOutcomes.OpenAlone | fuse_device.c:96-168 | an open that finds the locks free makes a new session, open, alive and not mounted, on its device with usecount 1, if and only if the device was not in use and had no session; otherwise nothing changes |
| DeviceOutcomes.OpensSettled | fuse_device.c:125-168 | over every run of any number of threads each open is settled once: it makes a session, or is refused because the device was in use when the table was locked or had a session when the device was locked |
| DeviceOutcomes.MadeIs | fuse_device.c:139-168 | the session made is the device's, open, alive and not mounted |
| DeviceOutcomes.CloseAlone | fuse_device.c:170-222 | a close ends the use; the session is dead, and lingers if it is mounted, or else is destroyed |
| DeviceOutcomes.MountAlone | fuse_vfsops.c:373-508 | a mount succeeds, and is counted, if and only if the device has a session that is alive and not mounted, the mount is allowed and the daemon sees it through; otherwise nothing changes |
| DeviceOutcomes.UnmountAlone | fuse_vfsops.c:655-682 | an unmount ends the mount and its count; the session is dead, and is destroyed unless it is still opened |
| DeviceOutcomes.StopAlone | fuse_device.c:456-517 | a stop succeeds if and only if no device is in use or has a session; otherwise devices can be opened again |
| Merge.FourTaken | fuse_locking.c:186-190 | the merge of two ordered pairs takes each of the four, equal ones in a row |
| Merge.FourOnce | fuse_locking.c:144-150 | skipping repeats of the last one, each of the four is listed once, for any order of two at a time |
| Merge.FourSorted | fuse_locking.c:186-190 | under a transitive order the list is sorted |
| Merge.SortedListsNoCycle | fuse_locking.c:144-150 | lockers of sorted lists, any number of them, never wait in a circle |
| NodeOrder.Ordered | fuse_locking.c:119-142 | the order of two nodes, NULL and the sentinel |
| NodeOrder.OneFirst | fuse_locking.c:119-142 | of two different nodes that are not each other's parents just one may go first |
| NodeOrder.LockListOnce | fuse_locking.c:154-190 | the list of locks has each of the four nodes exactly once |
| NodeOrder.LockListSorted | fuse_locking.c:154-190 | the list of locks is sorted where the order is transitive |
| NodeOrder.ParentsFirst | fuse_locking.c:134-150 | where the order is transitive, no node is locked before its parent, and of unrelated nodes the one with the lower address first |
| NodeOrder.CallersNoCycle | fuse_locking.c:144-206 | where the order is transitive, any number of callers never wait in a circle |
| NodeOrder.TwiceIffMutualParents | fuse_locking.c:134-190 | of two nodes one can be listed twice if and only if they are each other's parents |
| NodeOrder.TwiceNeedsMutual | fuse_locking.c:154-190 | of any four nodes one is listed twice only if two of them are each other's parents |
| NodeOrder.NotTransitive | fuse_locking.c:134-141 | parent before child and lower address first can go round in a circle |
| NodeLocking.Lock | fuse_locking.c:47-71 | a deleted node is not locked, unless by force |
| NodeLocking.BuildList | fuse_locking.c:163-190 | the arrays with sentinels stay in bounds and hold the list of locks |
| NodeLocking.LockFour | fuse_locking.c:154-206 | the locks are taken in the order of the list, one a node, with this owner, or none is; it fails if and only if a node is deleted and force is not used, and then at the last node tried |
| NodeLocking.UnlockFour | fuse_locking.c:256-299 | each node that lockfour locked is unlocked once |
| Messages.Fiov.Adjust | fuse_ipc.c:112-132 | the buffer has the length asked for; it is new memory, with the credit renewed, if and only if the old one was too small, or much too large and the credit used up |
| Messages.Ticket.Refresh | fuse_ipc.c:197-221 | nothing of the last request or its answer is left |
| Messages.Ticket.Make | fuse_ipc.c:879-901 | the header says the length, the operation, the ticket's number and the node |
| Messages.Ticket.MakeRead | fuse_internal.c:1024-1046 | the bytes to be sent make this request, and len counts them; the answer goes to this place in the buffer |
| Messages.Ticket.MakeWrite | fuse_internal.c:1096-1114 | the bytes to be sent make this request and carry this part of the buffer, and len counts both |
| Messages.Ticket.CopyOut | fuse_device.c:278-308 | device read copies the message out whole, or finds its buffer too small and kills the session |
| Messages.Ticket.Pull | fuse_ipc.c:299-337 | the reply's bytes are put into the buffer in place or become the answer; an empty one leaves the size alone |
| Messages.Ticket.WaitAnswer | fuse_ipc.c:963-1015 | the daemon reads the message and its audited reply decides the error, the answer and the buffer |
| Answers.AcceptedOnce | fuse_internal.c:1121-1134 | the accepted ranges tile what is accepted: each byte is accepted just once |
| Answers.ZerosChangeNothing | fuse_internal.c:1094-1134 | answers that accept nothing neither end a write nor bring it nearer to its end |
| Answers.ProgressEnds | fuse_internal.c:1094-1134 | as many answers that accept something as there are bytes end the write |
| Answers.EndsEveryWrite | fuse_internal.c:1094-1134 | exactly which streams of answers end every write |
| Strategy.Ask | fuse_internal.c:1024-1053 | the message asks for this, and its audited reply goes into the buffer in place or is the error |
| Strategy.ReadOne | fuse_internal.c:1020-1057 | the reply goes behind the ones before it; one without a body counts as 0 bytes |
| Strategy.StrategyRead | fuse_internal.c:984-1073 | the messages sent, the daemon's audited replies, the error, and a buffer that holds the replies and then zeros; it ends for every daemon |
| Strategy.ReadInPlace | fuse_internal.c:1020-1057 | each request starts where the last reply ended and asks for what is left, and its reply is at that place in the buffer |
| StrategyContent.ReadFields | fuse_internal.c:1024-1045 | by their places in the message: its length, operation 15 or 28, number, node, handle; the offset behind the bytes that have come; the smaller of what is left and iosize |
| StrategyContent.ReadContent | fuse_internal.c:1020-1057 | from a daemon that answers with the content at the offset asked for, what comes is the content from the first offset on, without an error |
| StrategyContent.ReadsContent | fuse_internal.c:1020-1073 | then the buffer holds the content from the offset on, as far as it goes, and zeros behind it |
| Strategy.StrategyWrite | fuse_internal.c:1076-1159 | the messages sent, what the daemon answers to each, the error, and what is left; each message starts where the accepted bytes end |
| Strategy.WriteEnds | fuse_internal.c:1094-1134 | a daemon that never answers with zero bytes ends the write in as many turns as there are bytes |
| Strategy.AcceptedInPlace | fuse_internal.c:1101-1134 | the message from which a byte is accepted has it at its place in the file |
| StrategyContent.WriteFields | fuse_internal.c:1096-1114 | by their places in the message: its length, operation 16, number, node, handle; the offset of the first byte not accepted, the smaller of what is left and iosize, and so many bytes from there |
| StrategyContent.WriteSucceeds | fuse_internal.c:1094-1134 | a daemon that accepts some bytes of each message accepts the whole buffer, in at most as many turns as there are bytes |
| StrategyContent.Audits | fuse_ipc.c:635-840 | a WRITE is answered with 8 bytes, READ and READDIR with no more than they asked for, or the error is 5; more accepted than sent is error 22 |
| Strategy.LenIsCopied | fuse_internal.c:1098-1114 | of every message of a write, on a ticket used again, len is the number of bytes copied out, as Messages.Ticket.MakeWrite builds each of them |
| Dirents.CutParses | fuse_kernel.h:639-642 | a run of records cut off anywhere parses to some of its first entries |
| Dirents.WholeParses | fuse_kernel.h:639-642 | a whole run of records parses back to its entries |
| Dirents.StopsAtLongest | fuse_internal.c:650-692 | stopping at the first invalid or unfitting record gives the longest run |
| Readdir.ProcessData | fuse_internal.c:626-733 | moves exactly the longest run of records that are complete, valid and fit, leaves the offset at the last one's cookie, and which error says why it stopped |
| Readdir.Readdir | fuse_internal.c:570-624 | ends for every daemon, when nothing more is wanted or with the first batch that has an error; the records moved, the offset, the error and the count follow from the daemon's audited replies |
| Readdir.NoneSkipped | fuse_internal.c:570-624 | of a daemon that honours its cookies the next entries are moved, none left out, none twice |
| Readdir.Resumed | fuse_internal.c:570-624 | a second call goes on where the first one stopped |
| Readdir.CutsHonour | fuse_kernel.h:639-642 | a daemon that sends the records from the cookie's entry on, cut off anywhere, honours its cookies |
| Readdir.WholeListed | fuse_internal.c:570-624 | with room for all that is left and a daemon that sends it at once, all is moved |
| Readdir.CountIsRight | fuse_internal.c:728-730 | exactly when the caller's count is the number of records moved by the call |
| Readdir.CountIsWrong | fuse_internal.c:728-730 | a daemon for which one record is moved and the count stays 0 |
| DirentCodec.EncodeIsRecord | fuse_kernel.h:631-642 | the bytes of ino, off, namelen, type and name, padded to a multiple of eight, are the record of this entry |
| DirentCodec.DecodesBack | fuse_kernel.h:631-642 | an encoded directory is parsed back to its entries |
| DirentCodec.EncodedHonours | fuse_kernel.h:631-642 | a daemon that sends the encoded directory from the cookie's entry on, cut off anywhere, honours its cookies |
| DirentCodec.CookedAt | fuse_internal.c:684-716 | each record moved shows its entry: name, length, inode number and type, or a whiteout for a hidden name, in a record just long enough |
| DirentCodec.CallerGets | fuse_internal.c:570-733 | of an encoded directory, with room for all that is left, the caller gets the entries in their order and the offset of the last one |
| LookupLedger.StepBalance | fuse_node.c:258-272 | each operation, an interrupted one too, changes the balance of each nodeid by just the lookups that nothing accounts for |
| LookupLedger.StepsBalance | fuse_node.c:258-272 | conservation over every run: granted is forgotten, pending, held or unaccounted for |
| LookupLedger.StepsFair | fuse_node.c:258-272 | over every run whose LINK answers name the linked node, forgotten, pending and held never exceed granted |
| LookupLedger.LinkFair | fuse_vnops.c:1018-1020 | a LINK keeps the ledger if and only if the answer names the linked node or fails the check, or there was a lookup to spare |
| LookupLedger.LookupMoves | fuse_vnops.c:1387-1407 | the lookup granted is held if the entry is usable and given back if not; that of the root is neither; nothing else moves |
| LookupLedger.NewEntryMoves | fuse_internal.c:1262-1296 | likewise for a new entry, but that of an entry that fails the check is not given back |
| LookupLedger.CreateMoves | fuse_vnops.c:409-443 | the lookup of a file created is not held; without a vnode it is given back or awaits the RELEASE |
| LookupLedger.GivesBack | fuse_vnops.c:2330-2350 | a reclaim gives back all that the vnode holds, a callback one lookup, while the session lives |
| LookupLedger.LinkMoves | fuse_vnops.c:1005-1023 | a LINK that names its node has the vnode hold the lookup, if the entry passes the check |
| VnodeTable.Table.GetOrCreate | fuse_node.c:46-242 | the index has the nodeid afterwards; error 22 for a bad type, 5 or 70 if the type or else the generation has changed, that of vnode_create if there is no vnode, else 0 |
| VnodeTable.Table.Vget | fuse_node.c:244-273 | the vnode holds one more lookup, and nothing else changes |
| VnodeTable.Table.Lookup | fuse_vnops.c:1195-1428 | the vnode found holds one more lookup, otherwise what was granted is given back, but for the root's; and the error in each case |
| VnodeTable.Table.NewEntry | fuse_internal.c:1262-1296 | the new vnode holds the lookup; otherwise it is given back, but for an entry that fails the check; and the error in each case |
| VnodeTable.Table.Create | fuse_vnops.c:409-443 | the vnode holds no more than before; without one a FORGET is sent or awaits the RELEASE; and the error in each case |
| VnodeTable.Table.ForgetCallback | fuse_internal.c:1328-1340 | a pending FORGET is sent once |
| VnodeTable.Table.Link | fuse_vnops.c:969-1023 | the linked vnode takes the lookup, whatever the answer names, unless it fails the check |
| VnodeTable.Table.Reclaim | fuse_vnops.c:2290-2372 | the vnode gives back all it holds and leaves the index, and no other vnode changes |
| VnodeTable.Table.Run | fuse_node.c:258-272 | any run leaves the table where its operations lead the ledger, which stays fair |
| HandleLedger.GetSound | fuse_file.c:42-102 | getting a handle keeps the ledger if and only if the slot was free |
| HandleLedger.GiveUpSound | fuse_file.c:116-156 | a RELEASE names a handle that is open, taken up and not yet released, and the ledger stays right, also on a dead session |
| HandleLedger.StepsSound | fuse_file.c:23-156 | over every run fuse_fh_current is the number of valid slots, no count is negative, each RELEASE is proper, and while the daemon lives it has open exactly what the slots hold and what it has opened for nobody |
| HandleLedger.ReleasedIffNeverLost | fuse_file.c:73-102 | when no slot is valid in a live session, a handle is still open if and only if an interrupted OPEN or CREATE, or a CREATE whose entry failed the check, has lost it |
| HandleLedger.HandlesLeak | fuse_vnops.c:426-429 | a run that loses a handle in each of two ways |
| FileHandles.Handles.Get | fuse_file.c:23-114 | the slot is opened with the daemon's handle, or an error leaves it as it was; the panic is unreachable |
| FileHandles.Handles.Put | fuse_file.c:116-156 | a RELEASE goes to a live daemon, for a handle that is open, and the count follows in any case |
| FileHandles.Handles.Open | fuse_vnops.c:1716-1762 | a valid slot has one use more; another one is opened, counted and has one use; or the error, and no slot changes |
| FileHandles.Handles.Close | fuse_vnops.c:224-320 | a use ends, the last one with the count and a RELEASE, unless the session dies during the FLUSH; on a dead session, from vclean or for a slot that is not valid nothing happens |
| FileHandles.Handles.Readdir | fuse_vnops.c:2152-2220 | a directory read leaves the valid slots and their number as they were, even if the session dies meanwhile; of a directory that is not open the handle is opened for the call and released after it |
| FileHandles.Handles.Create | fuse_vnops.c:394-466 | each way a CREATE ends: a handle stashed, released at once, or lost; the ledger stays right unless a valid slot is overwritten |
| FileHandles.Handles.Stash | fuse_vnops.c:445-465 | stashing the handle keeps the ledger if and only if the read-write slot was free |
| FileHandles.Handles.Strategy | fuse_internal.c:898-971 | the I/O goes through a valid handle that allows it, the file's own one first, or through one got for it; the panic of a second get is unreachable |
| FileHandles.Handles.Inactive | fuse_vnops.c:930-958 | all handles of the vnode are given up, also on a dead session or one that dies meanwhile, and no other vnode's |
| FileHandles.Handles.Run | fuse_file.c:23-156 | any run of operations, a create only where the slot is free, leaves the handles where they lead the ledger, which stays right |

## Left out

- The dead session in the ticket protocol: a timeout, a close or a short read kills the session and lets a ticket be dropped while it is awaited; TicketProtocol has only the steps of the live session.
- TicketProtocol.Do: the fetch of a ticket and its drop are single steps there; TicketPool has their sections. newentry_core and forget_callback leave a ticket undropped because the dispatcher is set up anew; the model keeps such a ticket out of the pool, as the code does.
- TicketPool.Do: whoever uses a ticket between fetch and drop is only `Held` there.
- DeviceLifecycle.Do: an open that passed the check of fuse_interface_available before stop goes on after it in the code; here nothing happens after a successful stop. An unmount that returns early changes nothing and is no step. Opens of a unit that does not exist are not modelled. biglock, and its order with fdev->mtx in mount and unmount.
- NodeOrder.TwiceIffMutualParents: whether two live nodes can come to be each other's parents. The code sets a node's parent when it makes the vnode and leaves it alone at a rename; when vnodes are reclaimed is the kernel's business.
- NodeLocking.LockFour: waiting for a lock that another thread has; the flags that unlock clears and its vnode work afterwards. fusefs_lockpair, whose order differs.
- RbTree.Head.Step: RB_NEXT tests for a left child first; the model's loop is then not entered.
- SPLAY_NEXT, SPLAY_MIN and SPLAY_MAX; RB_NFIND, and RB_AUGMENT, which is empty here.
- Messages.Ticket.MakeRead: the fields of a request that the code leaves as the memory has them, and uid, gid and pid; a daemon may depend on them.
- Messages.Ticket.WaitAnswer: an interrupt, a timeout and a dead session, which TicketProtocol and TicketPool have; and a buffer of the daemon's that is too small, which CopyOut has.
- Readdir.Readdir: a failing uiomove, and the byte that is written behind the cooked record at index `bytesavail`. The request is its offset and size here, without a message. Inode numbers have 32 bits, as without _DARWIN_FEATURE_64_BIT_INODE.
- Strategy.StrategyRead: finding the vnode's blocks, B_INVAL and B_ERROR, and mapping failures. The daemon's buffer takes the largest message, and the session stays alive during the call.
- Strategy.StrategyWrite: gives up after a number of turns and then says that it is not done, because a daemon that accepts nothing keeps the code going. Sizes have 64 bits; with a 32-bit size_t the check for a reply that accepts too much could not see it.
- VnodeTable.Table.GetOrCreate: the race around vnode_create between two calls for one nodeid; finding or creating is one step.
- VnodeTable.Table.Lookup: lookups of dot and dot-dot, which ask for attributes and grant nothing, and the name cache.
- FileHandles.Handles.Get: what the daemon opens for an interrupted request is logged at once, though it may come later.
- FileHandles.Handles.Create: a session that dies between the CREATE and the RELEASE for a vnode that cannot be made.
- FileHandles.Handles.Strategy: mmap, and reclaim on a dead file system with a valid handle, which bypasses the ledger.
- Attribute copying, capability tables, path configuration, sysctl and permission checks, and rounding to powers of two, which would add only easy members; the recursive lock; fuse_exchange.
