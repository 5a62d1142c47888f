# EDSM in Dafny

A model of EDSM, a distributed shared memory for C programs: processes join a group, share
objects, take a distributed mutex, wait at barriers, and share memory regions whose changes
travel as diffs. The modules follow the C files; where the C changes something in place, a
class does. The methods of the mutex, the reply waiter, the barrier and the shared object are
proved to compute the steps of the state machines about which the protocol theorems are
proved; those of regions, buffers, lists and tables, functions of their contents.

| module | models |
|---|---|
| `MutexNode`, `MutexHandler`, `MutexNetwork` | one node of `src/dobj/mutex.c` as values and what it answers; nodes joined by FIFO channels |
| `MutexSafety`, `MutexProgress`, `MutexFairness`, `MutexAddressing` | mutual exclusion, no deadlock, the order of entering, who receives a reply |
| `MutexObjects`, `ReplyWaiters`, `Barriers` | the mutex, reply waiter and barrier objects with their linked lists |
| `Diffs`, `DiffCodec`, `DiffLayout`, `Regions`, `Merging` | diffs of pages, their message format, the region with its twins, the three-way merge |
| `Publishing`, `Unlocking`, `Sessions` | `edsm_memory_tx_end` over all regions, the unlock that begins with it, the stores between two publications |
| `SharedMemory`, `StreamHistory`, `BarrierRounds` | copies of a region on many nodes; what a stream tells of the steps taken; one round of a barrier |
| `Handover`, `HandoverLimits` | bytes that change hands between nodes |
| `Release`, `ReleaseConsistency`, `ReleaseLimits` | the mutex and the memory together |
| `JoinNode`, `JoinNetwork`, `JoinSymmetry`, `JoinProgress`, `JoinObjects` | how a node joins a shared object |
| `Group` | how a process joins the group |
| `Messages`, `NestedMessages`, `Frames`, `PeerLists` | the growable message buffer and what is sent on the wire |
| `Sorting`, `LinkedLists` | `uthash/utlist.h` |
| `HashArithmetic`, `HashTables` | `uthash/uthash.h` |
| `Kmp` | the searches of `uthash/utstring.h` |

What the theorems assume:

- Every handler runs under its lock and is one atomic step, except where the code works
  outside it: the lookup of a GET is a step apart from its answer, and the GETs of a join are
  written one at a time. Channels between two nodes are FIFO. One task thread a node.
- Membership of the group is fixed while objects are joined and the mutex is used; a mutex
  is joined by all its nodes before it is first locked.
- A received diff is written in one step. `edsm_memory_handle_message` takes `region_lock`
  once for each page, so in the code a store or a diff of this node can fall between two
  pages; the machines do not have that.
- Clocks and counters are unbounded.
- **Who receives a reply** is a parameter, `Addressing`. `edsm_mutex_send_reply` is given the
  id of the peer it answers and logs it, but hands the reply to `edsm_dobj_send`, which sends
  to every peer. `Addressed` delivers it to that peer, `AsWritten` to all. With two nodes the
  two are the same, so the two-node theorems are about the code as it is; with three or more,
  two nodes can hold the lock at once as written, and `ExclusionAsWritten` says so for every
  membership.
- `Rights` says which node may store to which byte. Diffs of different nodes are not put in
  order on arrival, although they carry a timestamp, so lock-protected memory is one memory
  for a byte exactly if no node hears of that byte from two others
  (`OneMemoryExactlyWhenNarrow`); with two nodes that is every byte.
- Without the lock, a byte is stored by one node at a time. It may pass to another node
  exactly when its old owner has published it and every other node has handled that
  (`HandoverExactlyWhenDrained`). Passing a barrier tells a node that its own copy is up to
  date, and nothing about those of third nodes. Notices that were handled before a barrier
  was armed are forgotten and do not count for its wait (`PassesExactly`).

## Model

| member | source | states |
|---|---|---|
| `MutexSafety.MutualExclusionHolds` | src/dobj/mutex.c:27-124 | for any number of nodes, in every run with addressed replies, no two nodes are past the wait in lock and not through unlock |
| `MutexSafety.StepKeepsInv` | src/dobj/mutex.c:27-124 | every lock, receive, enter and unlock keeps the invariant: per ordered pair, request in channel + deferred entry + reply in channel equals what is awaited, a deferred request is the later one, a granted one precedes |
| `MutexSafety.InsidePrecedes` | src/dobj/mutex.c:40-62 | the request of a node that is inside comes before every other pending request: it has the lower time, or the lower id at equal times |
| `MutexAddressing.TwoNodesExclude` | src/dobj/mutex.c:15-25 | for at most two nodes the code as written, whose replies go to all peers, excludes in every run |
| `MutexAddressing.TwoNodesSameRun` | src/dobj/dobj.c:164-187 | with at most two nodes a run is step by step the same whether a reply goes to its addressee or to all peers |
| `MutexAddressing.ThreeNodesCollide` | src/dobj/mutex.c:15-25 | from three nodes on, a run of the code as written in which two nodes are inside at once |
| `MutexAddressing.ExclusionAsWritten` | src/dobj/mutex.c:15-124 | the code as written excludes in every run if and only if the mutex has at most two nodes |
| `MutexProgress.Conservation` | src/dobj/mutex.c:40-62 | in every reachable state, for a waiter and a peer it waits for, exactly one of request in the channel, deferred entry and reply in the channel exists; for others none |
| `MutexProgress.DeferredQueue` | src/dobj/mutex.c:8-55 | in every reachable state the deferred queue ascends strictly by time and then by id, and has at most one entry of a peer |
| `MutexProgress.FirstCanEnter` | src/dobj/mutex.c:81-124 | with empty channels and nobody inside, the node whose request comes first by time and then by id awaits nobody |
| `MutexProgress.NoDeadlock` | src/dobj/mutex.c:81-124 | a reachable state with a pending request has an enabled step other than a new lock |
| `MutexProgress.RunsWithoutLocksEnd` | src/dobj/mutex.c:81-124 | a run with no new lock has at most as many steps as the work measure of its first state |
| `MutexProgress.StuckMeansServed` | src/dobj/mutex.c:81-124 | where no step but a new lock is enabled, no request is pending and no message is on its way |
| `MutexProgress.NothingIsRefused` | src/dobj/mutex.c:27-124 | in every reachable state a node without a request can lock, one that awaits nobody can enter, one that is inside can unlock, and any message can be received |
| `MutexFairness.OvertakenOnce` | src/dobj/mutex.c:8-62 | in every run, once a node has handled i's request it enters at most once before i does, and only if it was then waiting with an earlier request |
| `MutexFairness.ServedInOrder` | src/dobj/mutex.c:40-106 | once all have handled i's request, no more entries happen before i's than nodes were then waiting with an earlier request |
| `MutexHandler.AnswersOrDefers` | src/dobj/mutex.c:8-57 | a request made at u by p, at a node whose own was made at t, is answered at once if and only if u < t or u = t and p is the lower id, with the exact clock and reply time; otherwise nothing is sent and it is in the ascending queue |
| `MutexHandler.AnswersWhenIdle` | src/dobj/mutex.c:37-52 | without an own request every request is answered at once, two ticks past the later of the two clocks |
| `MutexHandler.CountsReplies` | src/dobj/mutex.c:37-66 | a reply is taken off what is awaited, another message is not, neither is answered, and the clock passes both |
| `MutexHandler.UnlockAnswers` | src/dobj/mutex.c:108-124 | the k-th reply goes to the k-th deferred peer with the clock k + 1 ticks on; then there is no queue and no request |
| `MutexHandler.AsksLater` | src/dobj/mutex.c:81-100 | a request carries the next tick of the clock, which is past every time in a message seen before |
| `MutexObjects.Mutex.HandleMessage` | src/dobj/mutex.c:27-69 | the object with its linked queue and waiter does what the node function does to state and output, for any message type |
| `MutexObjects.Mutex.RequestLock` | src/dobj/mutex.c:81-102 | the same for lock up to its wait |
| `MutexObjects.Mutex.TryEnter` | src/dobj/mutex.c:104-106 | the wait returns exactly when nothing is awaited |
| `MutexObjects.Mutex.Release` | src/dobj/mutex.c:113-124 | the same for unlock behind its edsm_memory_tx_end: replies to the whole queue in its order, then no queue and no request |
| `Unlocking.Unlock` | src/dobj/mutex.c:108-124 | the whole of unlock: the diffs of all regions with changes are handed on before any reply, and no region has changes left |
| `MutexObjects.AppendAndSort` | src/dobj/mutex.c:54-55 | the queue becomes the stable sort of itself with the new request at the end |
| `ReplyWaiters.ReplyWaiter.SetWaitOn` | src/dobj/reply_waiter.c:16-21 | exactly these ids are awaited, each as often as listed |
| `ReplyWaiters.ReplyWaiter.AddReply` | src/dobj/reply_waiter.c:23-41 | one occurrence of the id is taken off, none if it is not awaited |
| `ReplyWaiters.ReplyWaiter.IsDone` | src/dobj/reply_waiter.c:43-52 | the wait may return exactly when the multiset is empty |
| `Sorting.StableSortSorts` | uthash/utlist.h:108-165 | the result of the sort is sorted for any total preorder |
| `Sorting.StableSortPermutes` | uthash/utlist.h:108-165 | and a permutation |
| `Sorting.StableSortIsStable` | uthash/utlist.h:108-165 | and keeps the order of elements that compare equal |
| `LinkedLists.PassDoublesBlocks` | uthash/utlist.h:118-163 | one pass of the bottom-up merge over sorted blocks of w leaves the sorted blocks of 2w |
| `LinkedLists.SortChain` | uthash/utlist.h:108-165 | the loops relink the same nodes, acyclic and none lost, into exactly their stable sort; the outer loop ends |
| `LinkedLists.MergeRuns` | uthash/utlist.h:132-154 | the inner loop merges two runs behind the tail and leaves the rest of the chain as it was |
| `LinkedLists.LinkedList.Sort` | uthash/utlist.h:105-165 | the list's nodes and values become their stable sort |
| `LinkedLists.LinkedList.Append` | uthash/utlist.h:336-347 | the value goes to the end, in a new node behind the nodes there are |
| `LinkedLists.LinkedList.Delete` | uthash/utlist.h:352-366 | exactly the given node leaves the list; a node that is not in it changes nothing |
| `LinkedLists.LinkedList.RemoveFirst` | src/dobj/reply_waiter.c:27-34 | the first node with the value leaves the list, if there is one |
| `Diffs.RunsHoldChanges` | src/memory/memory_dobj.c:186-210 | every section holds the page's bytes at its place and all of them differ from the twin's |
| `Diffs.RunsShape` | src/memory/memory_dobj.c:186-210 | sections are non-empty, in order and apart by a byte that is equal, and few enough for their count |
| `Diffs.RunsMaximal` | src/memory/memory_dobj.c:186-210 | no section can be extended on either side |
| `Diffs.WriteIsOverlay` | src/memory/memory_dobj.c:79-113 | writing the sections of a diff over any page changes exactly the bytes in which the sender's page differed from its twin |
| `Diffs.RoundTrip` | src/memory/memory_dobj.c:162-225 | a page that equals the sender's twin becomes the sender's page |
| `Merging.RunsCover` | src/memory/memory_dobj.c:190-209 | the sections of a diff cover exactly the bytes that differ from the twin |
| `Merging.MergeKeepsPending` | src/memory/memory_dobj.c:98-113 | any received diff leaves the pending local diff of every page without the bytes it covers and otherwise as it was: no other local change is lost, no received byte is sent again |
| `Merging.DisjointDiffsCommute` | src/memory/memory_dobj.c:45-119 | two diffs that cover no byte in common give the same region in either order |
| `DiffCodec.ParseEncode` | src/memory/memory_dobj.c:20-32 | any diff whose counts fit their fields parses back to itself and nothing after it is touched |
| `DiffLayout.OneByteDiff` | src/memory/memory_dobj.c:150-161 | the message of a diff in which one byte of one page has changed, byte by byte |
| `Regions.DiffPagesFit` | src/memory/memory_dobj.c:175-217 | with pages below 65536 bytes every offset, length and count of a region's diff fits its field, and a receiver accepts it |
| `Regions.DiffArrives` | src/memory/memory_dobj.c:33-225 | the message of a region's diff parses to it, and handling it on a copy that has what was published gives the sender's region |
| `Regions.DiffIsDelta` | src/memory/memory_dobj.c:33-225 | on any copy a diff overlays exactly the bytes in which the region differs from what was published |
| `Regions.WriteRuns` | src/memory/memory_dobj.c:186-210 | the byte loop with its back-patched counts appends the encoding of the runs of the page, through any growth of the buffer |
| `Regions.WriteDiff` | src/memory/memory_dobj.c:166-220 | the message gets the encoding of the diff of all twinned pages, back-patched counts included |
| `Regions.Region.TxBegin` | src/memory/memory.c:89-131 | exactly this page becomes writable; unless it was, its twin goes to the front of the twins, which otherwise stay, and what has been published is unchanged |
| `Regions.Region.Store` | src/memory/memory.c:36-45 | one byte of the flat memory of the node machines changes, what has been published does not; the page becomes writable and twinned with what it was before if it was not writable, and no other page is twinned or unprotected |
| `Regions.Region.DiffRegion` | src/memory/memory_dobj.c:162-225 | the diff is appended, all twins go, all pages are protected, and the published contents are the pages |
| `Regions.Region.HandleMessage` | src/memory/memory_dobj.c:33-122 | a received diff is written to the pages and to the published contents alike, by shadow copy or through the twin, and no twin is gained or lost |
| `Publishing.TxEnd` | src/memory/memory_dobj.c:124-137 | each region with twins hands on the encoding of its next diff, in the order of the list, the others nothing; afterwards every region's published contents are its pages |
| `Sessions.NamesWritable` | src/memory/memory_dobj.c:162-220 | the diff of a region has one entry for each page that may be written and no other, whatever has happened to the region |
| `Sessions.Session` | src/memory/memory.c:89-112 | after any sequence of stores to a published region every byte is as the last store to it left it, and its diff has one entry for each page stored to and no other |
| `SharedMemory.StepKeepsInv` | src/memory/memory_dobj.c:33-148 | stores, publications, barrier calls and deliveries keep: replaying a stream gives the published bytes of its sender, its handled part the copy of its receiver |
| `SharedMemory.CopyIsReplay` | src/memory/memory_dobj.c:33-122 | with one storing node for each byte, a copy of another's byte is what replaying that node's stream so far gives |
| `SharedMemory.Convergence` | src/memory/memory_dobj.c:124-148 | when all that was sent has been handled and no twins are left, every copy has at every byte what the last store of the run put there |
| `SharedMemory.NothingIsRefused` | src/memory/memory.c:36-112 | in every reachable state an owner can store any value, and publishing, arming, notifying and receiving what has been sent are never refused |
| `StreamHistory.StreamsTell` | src/memory/memory_dobj.c:124-148 | in every run each beginning of a stream gives its receiver the sender's bytes as they all were after some of the steps, with no more notices than had been made by then; and a stream has exactly one notice for each notify |
| `BarrierRounds.PassesExactly` | src/dobj/barrier.c:24-42 | from any reachable state in which a node arms its barrier, over any steps in which it does not arm it again: its wait may return if and only if it has since then handled as many notices of each id as it armed with, its own included |
| `BarrierRounds.BarrierMerges` | src/dobj/barrier.c:24-42 | when it may return, the waiter's copy of the bytes of every other node it armed with is what the stores up to some moment of the run had made of them, and by that moment that node had notified as often as the waiter had heard of before arming and the awaited number of times more |
| `BarrierRounds.PassesInTheEnd` | src/dobj/barrier.c:24-42 | when each id has notified since arming as often as it was armed with and all that was sent has been handled, the wait may return |
| `Handover.HandoversConverge` | src/memory/memory_dobj.c:33-148 | over any number of phases from the start, where a byte changes its storing node only once drained, every copy has what the last store of all phases put there when everything has been handled |
| `HandoverLimits.HandoverExactlyWhenDrained` | src/memory/memory_dobj.c:33-148 | for every reachable state: if another node takes over a byte there, all copies of it are equal at the end of every run that comes to rest if and only if its old owner has no change of it pending and no diff with it is on its way |
| `Barriers.Barrier.Arm` | src/dobj/barrier.c:24-28 | does what the machine's arm does to its node: the ids are awaited afresh and what was counted is forgotten |
| `Barriers.Barrier.HandleMessage` | src/dobj/barrier.c:5-9 | does what the machine's node does with a notice |
| `Barriers.Barrier.Notify` | src/dobj/barrier.c:30-36 | does what the machine's notify does to its node, and hands on for each region what the machine sends, in its order: the encoded diff if there is one, then the notice; the own notice is counted |
| `Barriers.Barrier.CanPass` | src/dobj/barrier.c:38-42 | the wait returns exactly when the ids armed with are among those counted, with multiplicity |
| `Release.Projects` | src/dobj/mutex.c:108-118 | in the composed machine every act is a step of the mutex or leaves it alone |
| `ReleaseConsistency.ActKeepsBase` | src/dobj/mutex.c:46-118 | every act keeps: on a channel no diff comes after a reply, none is left once the answer is counted, only the holder has pending changes |
| `ReleaseConsistency.PublicationBeforeGrant` | src/dobj/mutex.c:46-118 | for any number of nodes, in every run, a node that is inside has handled every diff any node ever sent it |
| `ReleaseConsistency.PublicationReaches` | src/memory/memory_dobj.c:124-148 | at tx_end and unlock nothing stays pending, and on each channel a receiver will end with what the publisher had stored |
| `ReleaseConsistency.HolderReadsLastStore` | src/dobj/mutex.c:108-118 | in every run, for a byte of which no node hears from two others, the holder's copy has what the last store in the list of acts put there, whoever made it |
| `ReleaseConsistency.HolderMayStore` | src/memory/memory.c:36-112 | in every run a node that is inside may store any value in any byte it has the right to |
| `ReleaseConsistency.TwoNodesSequentiallyConsistent` | src/memory/memory_dobj.c:124-148 | two nodes and the code as written: in every run the holder's whole copy has at every byte what the last store in the list of acts put there |
| `ReleaseLimits.WrongOrder` | src/memory/memory_dobj.c:36-38 | if two others may store to a byte, a run in which a node enters and its copy has not what the last store of the run put there |
| `ReleaseLimits.OneMemoryExactlyWhenNarrow` | src/memory/memory_dobj.c:33-148 | in all runs all holders read what the last store of the run put at a byte if and only if no node hears of that byte from two others |
| `JoinSymmetry.JoinIsSymmetric` | src/dobj/dobj.c:107-157 | in every run two nodes whose edsm_dobj_get has returned list each other exactly once; no node lists itself, and who is listed has the object |
| `JoinSymmetry.OneReplyPerGet` | src/dobj/dobj.c:79-124 | what a node awaits of another is, in exactly one place, its GET unsent or on its way, the lookup, or the reply on its way |
| `JoinSymmetry.AskingProceeds` | src/dobj/dobj.c:126-157 | while a node's join is under way some step other than the start of a new join is enabled |
| `JoinProgress.RunsWithoutAddsEnd` | src/dobj/dobj.c:79-157 | a run in which nobody starts to join has at most as many steps as the work measure of its first state |
| `JoinProgress.StuckMeansJoined` | src/dobj/dobj.c:79-157 | where no step but the start of a new join is enabled, every edsm_dobj_get has returned, nothing is awaited, no lookup is unanswered and no message is on its way |
| `JoinProgress.NothingIsRefused` | src/dobj/dobj.c:79-157 | which steps of a join a node can take in each of its phases, and that a message waits only for the answer in hand |
| `JoinSymmetry.StepKeepsInv` | src/dobj/dobj.c:57-157 | every step, with the lookup apart from the answer, keeps the invariant; of two nodes that looked each other up at most one can have missed |
| `JoinObjects.SharedObject.AddPeerReference` | src/dobj/dobj.c:57-66 | the peer is appended unless it is listed |
| `JoinObjects.SharedObject.HandleGetReply` | src/dobj/dobj.c:79-95 | the object with its lists does what the node function does to a reply |
| `JoinObjects.SharedObject.LookUp` | src/dobj/dobj.c:107-110 | the lookup finds the object exactly if the node has it, and is kept for the answer |
| `JoinObjects.SharedObject.AnswerGet` | src/dobj/dobj.c:107-124 | the object answers as the node function does, by what the lookup had found |
| `Group.Process.NextPeerId` | src/protocol_handshake.c:14-24 | the id is above all ids known here and one more than one of them |
| `Group.Process.HandleNewConnection` | src/protocol_handshake.c:29-76 | the response names the responder, and for a newcomer a new id and the peers without the responder and the newcomer; the newcomer is then in the table |
| `Group.Process.HandleInitResponse` | src/protocol_handshake.c:80-120 | a newcomer takes its id and has the responder connected and its peers unconnected in the table; others' tables are unchanged |
| `Group.PeerConnect` | src/protocol_handshake.c:166-220 | the mutual recursion ends, with every entry connected and every member knowing the newcomer as it knows them |
| `Group.ConnectToNewPeers` | src/protocol_handshake.c:222-232 | the same for the loop; unconnected entries are the measure |
| `Group.GroupJoin` | src/protocol.c:187-211 | a full symmetric mesh with distinct ids becomes one with the newcomer, whose id is one more than the highest; no id changes |
| `Group.GrowGroup` | src/protocol.c:187-211 | from a founder on, whoever joins in whatever order and through whichever member: the tables are a full symmetric mesh, the ids are 1, 2, 3 and so on in the order of joining, and an id once given does not change |
| `Group.FirstJoins` | src/protocol_handshake.c:101-113 | after the first handshake the newcomer's table names exactly the members, by their addresses |
| `Messages.Message.Write` | src/message.c:124-132 | the bytes go to the end; the buffer stays if they fit the tail, and otherwise gets a tail of twice its length, or twice theirs |
| `Messages.Message.Read` | src/message.c:133-142 | the bytes are taken from the front, or none if they are not all there |
| `Messages.Message.Resize` | src/message.c:34-56 | head and tail get their new sizes and the contents stay, for all sizes for which the copy stays inside both buffers |
| `Bytes.LittleEndian` | src/message.c:124-142 | the integers in messages have their least significant byte first |
| `NestedMessages.NestedRoundTrip` | src/message.c:144-171 | a nested message is read back as it was written, an empty one as NULL |
| `NestedMessages.StringRoundTrip` | src/message.c:173-191 | a string is read back as it was written |
| `NestedMessages.WriteMessage` | src/message.c:144-157 | appends the encoding of a message or of NULL |
| `NestedMessages.ReadMessage` | src/message.c:158-171 | decodes a message, or fails with only the size taken if that was there |
| `NestedMessages.WriteString` | src/message.c:173-179 | appends the encoding of a string |
| `NestedMessages.ReadString` | src/message.c:180-191 | decodes a string, or fails with only the size taken if that was there |
| `Frames.Socket.ReadFully` | src/socket.c:163-176 | exactly the bytes asked for, however the stream is cut into reads; fails only at the end of the stream |
| `Frames.Socket.SendMessage` | src/protocol_util.c:22-48 | the frame goes out whole, and success is reported exactly if the body is not empty |
| `Frames.Socket.ReceiveMessage` | src/protocol_util.c:6-20 | the next size and as many bytes, or NULL if the stream ends before them |
| `Frames.Socket.Listen` | src/protocol.c:69-115 | any sequence of frames is recovered in order under every segmentation of the stream |
| `Frames.FramesAreUnambiguous` | src/protocol_util.c:22-48 | no two sequences of frames make the same stream |
| `PeerLists.PeersReadBack` | src/protocol_util.c:84-115 | a peer list is read back whole and exactly its bytes are taken if and only if all its ids are new to the table and to the list |
| `PeerLists.AppendPeerList` | src/protocol_util.c:84-94 | appends the encoding of the list |
| `PeerLists.ReadPeerList` | src/protocol_util.c:97-115 | reads a list as the decoder does, which does not take the address of an id it knows |
| `HashArithmetic.AndMask` | uthash/uthash.h:207-210 | masking with a power of two less one is the remainder |
| `HashArithmetic.ExpansionMoves` | uthash/uthash.h:697-697 | when the buckets double an item stays in its bucket k or goes to k plus the old number |
| `HashArithmetic.IdealIsCeiling` | uthash/uthash.h:688-690 | ideal_chain_maxlen is the ceiling of items over the doubled number of buckets, and not zero if there are items |
| `HashTables.HashTable.Find` | uthash/uthash.h:103-114 | finds the item with the key, and NULL exactly if no item has it |
| `HashTables.HashTable.Add` | uthash/uthash.h:182-205 | the item goes to the end of the list and into the chain of its hash; the table expands if and only if the item's bucket has come to (expand_mult + 1) * 10 items and noexpand is not set, and otherwise its buckets and counters stay; the first item makes a table of 32 buckets |
| `HashTables.HashTable.Delete` | uthash/uthash.h:224-257 | exactly the item leaves the list and its chain; links and counts stay consistent, and the table's shape stays |
| `HashTables.HashTable.ExpandBuckets` | uthash/uthash.h:677-723 | every item is in the bucket of its hash among twice as many; nonideal_items is the sum of what exceeds the ideal length, expand_mult, ineff_expands and noexpand accordingly |
| `HashTables.Redistribute` | uthash/uthash.h:692-711 | the loops move every item once into well-linked new chains and tally them |
| `HashTables.PushFront` | uthash/uthash.h:622-628 | an item becomes the head of its bucket's doubly linked chain; other chains are untouched |
| `Kmp.BuildTable` | uthash/utstring.h:157-193 | entry i is the longest border of the first i characters after which the needle goes on differently, or -1; the last is the longest border |
| `Kmp.BuildTableR` | uthash/utstring.h:197-233 | the same of the reversed needle |
| `Kmp.FindWithTable` | uthash/utstring.h:237-266 | the leftmost occurrence, or -1 if and only if there is none |
| `Kmp.FindWithTableR` | uthash/utstring.h:270-300 | the rightmost occurrence, or -1 if and only if there is none |
| `Kmp.Find` | uthash/utstring.h:304-346 | the leftmost occurrence at or after the start, -1 exactly when there is none or the needle is empty |
| `Kmp.FindR` | uthash/utstring.h:350-388 | the rightmost occurrence that ends at or before the start, -1 exactly when there is none or the needle is empty; with a start past the string, also in the terminator and the allocated bytes behind it |
| `Kmp.FallBackInSearch` | uthash/utstring.h:249-254 | falling back along the table skips no occurrence |

## Left out

- Sockets, select, timeouts, address formatting, threads, `mprotect`, `mmap` and signals: a
  connection is a byte stream or a FIFO queue, a page's permission is a flag, and a store
  that faults is one step.
- Allocation failure, partial `write`, crashed and disconnected peers: calls succeed.
- The wrap-around of the 32-bit clocks, timestamps and counters, and of `int` sizes in
  `LL_SORT2`, `edsm_message_resize` and `edsm_socket_read`.
- A send to all peers of an object is one step; the joins' GETs are sent one by one.
- A node that joins a mutex or a region while it is in use, and repeated `edsm_dobj_get` calls
  by several threads of a node.
- `edsm_dobj_create`: it reads its result after the unlock and overwrites the counter, so
  nothing establishes that its ids are unique.
- `edsm_memory_tx_end` of one region sends a diff even if it has no pages; the node machines
  publish only if there are twins.
- Regions.Region.HandleMessage: messages that parse and name bytes of the region; on others the
  code goes on with what its variables happened to hold, or fails an assertion.
- PeerLists.ReadPeerList: messages with as many entries as their count says; on shorter ones
  the code goes on with what its variables happened to hold.
- Region objects: page contents and twins are sequence values in an array and in
  a list field, so aliasing between a page's buffers is not captured; the shadow page is a value.
- Messages.Message.Resize: a head that grows while the tail shrinks, or the other way round;
  the copy then leaves one of the two buffers.
- Group.GroupJoin: the peers table is a finite map, so the order in which `HASH_ITER` visits it
  is arbitrary, and the exchange of init messages with the responder is one step.
- SharedMemory.Convergence: one storing node for each byte at a time; two nodes that store to
  one byte without the lock need not converge.
- `find_region_for_addr`, the rounding of addresses to pages and region creation: easy members.
- `HASH_SRT`, the same merge sort as `LL_SORT2` with back pointers, which nothing calls;
  `HASH_SELECT`, the Bloom filter, key emission, fsck output and the mixing functions: a hash
  is an arbitrary function of the key.
- Byte order is that of a little-endian machine on both ends.
- `utarray.h`, the DL and CDL list macros, tasks, timing and debug output.
