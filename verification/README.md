# Verified models of a storage-server support library

This project models, in Dafny, the parts of a C support library (GlusterFS
style) whose correctness rests on invariants that no single function shows, and
proves those invariants and what follows from them over all inputs, all
reachable states and all runs.

| source | modules | what is modelled |
|---|---|---|
| `src/rb.c` | `RbShape`, `RbMoves`, `RbOrder`, `RbBalance`, `RbDelete`, `RbRepair`, `RbTable`, `RbHeight`, `RbTraverse`, `RbCourse`, `RbCopyState`, `RbCopyFail`, `RbCopy`, `RbDestroy` | red-black trees: insertion, deletion by relinking, generation-checked traversers, copying with an explicit stack, its failures included, destruction by rotation |
| `src/socket.c`, `src/byte-order.h` | `ByteOrder`, `Iovec`, `Framing`, `SocketParts`, `SocketMachine`, `SocketSender`, `SocketLink`, `SocketRun` | framed transport: queue of partly written entries, six-state receiver, whole connections and their runs |
| `src/iobuf.c` | `Lists`, `Iobuf`, `Iobref` | arena pool, one step per critical section; collections of references |
| `src/dict.c` | `DictEntries`, `DictStore`, `Dict`, `DictRun`, `DictWire`, `DictTrip` | dictionaries: hash chains and member list over the same pairs, shared counted values, binary serializer and parser |
| `src/rbthash.c`, `src/mem-pool.c` | `RbtHash`, `MemPool` | hash table with tree buckets and entries from a slab; slab allocator |
| `src/md5.c` | `Md5Core`, `Md5`, `Md5Suite` | the streaming digest against RFC 1321, and digests of its test suite |
| `src/event.c` | `EventPool` | the epoll registry and the kernel's copy of it |

Conventions:

- C memory is a map from addresses to records (`Store`, `Cells`); `malloc` is a
  parameter that gives the address, or failure, and every address it gives is
  required to be unused. Freeing removes the address from the map, so a use
  after free would not verify.
- System calls are scripts of outcomes chosen by the caller (bytes moved,
  `EAGAIN`, `EINTR`, error); every theorem holds for all scripts.
- Each critical section is one atomic method. `Valid()` of a class is the
  invariant that all its methods keep; a `Run` method takes an arbitrary
  sequence of calls, and its contract is the statement about whole runs.
- The stack arrays `pa`, `da` and `stack` are sequences of the source's fixed
  length, so that every index is checked against it.
- In `src/rb.c` each case of insertion, deletion and traversal is written twice,
  mirrored. The model has each once, with the direction as a parameter.
- `Options` holds the one option type and `Errno` the error numbers that all
  modules share.
- Hash functions and comparison functions are arbitrary; a comparison function
  is only required to be a total order.

## Main results

- **Red-black trees.** Insertion and deletion keep search order, a black root, no
  red child of a red node and equal black heights; deletion frees exactly the
  node that held the item, and every other node keeps its item. A tree of n
  nodes is at most 2 log2(n + 1) high, so for up to 2^24 - 2 items no index
  reaches `RB_MAX_HEIGHT`, the slot that deletion pushes included. `rb_t_next`
  finds the successor in the current tree after any insertions and deletions of
  other nodes, and `rb_t_prev` undoes it. What becomes of
  `rb_copy` is a function of the tree, the copying function and the allocator
  (`RbCourse.Course`): which copies are made where, and which of them wait on the
  stack for their left subtrees when something fails. It succeeds exactly if no
  allocation and no copying of an item fails. If one does, every node that was
  allocated is freed, once, but the documented clean failure does not hold: the
  destructor is handed uninitialised memory exactly if a copy waits then whose
  memory is not null. `UninitialisedHappens` is a tree of two nodes on which it
  does.
- **Transport.** In every interleaving of submissions, partial writes, partial
  reads and receives, what is delivered is a prefix of what was accepted, byte
  for byte; once everything is drained it is all of it exactly if every message
  respects the receiver's limits. Nothing gets stuck: for every endless sequence
  of polls and receives, in any order and with any amount of interruptions and
  empty-handed calls, in which what the connection waits for is served by at least
  a byte again and again, everything accepted is delivered. A wake-up is lost if
  and only if a submission to an empty queue runs into a write error and POLLOUT
  is not handled after it; whether a script runs into its error is decided by
  the script and the length of the frame alone. What a poll of the receiver answers
  (complete, partial, broken, refused, no buffer), how far it reads and where it
  stops is a function of the bytes read so far, the bytes on the wire and the
  outcomes of its system calls. The layout of a frame is stated byte by byte, and
  the receiver accepts exactly such headers.
- **iobuf pool.** In every interleaving of the critical sections each arena is on
  exactly one list, the right one, with the right counts; each reference count is
  the number of holders, and no arena with a buffer that somebody holds, or is
  about to put back, is destroyed. `iobuf_get` fails exactly if every buffer is in
  use and there is no memory for an arena, an arena becomes spare exactly when its
  last buffer in use is put back, and pruning destroys exactly the spare ones, if
  there is another to take buffers from. Run one at a time, with at least two buffers to an arena, at most one
  spare arena is kept, and none while there are others to take buffers from. With
  a single buffer to an arena that fails: `Untidy` ends with two.
- **Dictionaries.** Any run over any number of dictionaries is a run of an abstract
  machine of entry lists, outside holders and live values: chains, member lists and
  counts agree, which calls take effect and what every key means afterwards follows
  from the calls, each reference count is the number of pairs plus outside holders,
  and a value goes exactly when its last holder lets go. `dict_set` leaves a
  dictionary in order if and only if the key was there or the hash satisfies
  `Agreeing`. A dictionary serialized and read into another gives the same map in
  opposite order, twice gives the same list and the same bytes, and every proper
  prefix is refused.
- **Hash table, slab, digest, registry** refine a map whose entries occupy disjoint
  blocks of the slab, a set of disjoint blocks, RFC 1321 (with three digests of its
  test suite computed from the definition), and a map from descriptors to
  registrations.

## Model

| member | source | states |
|---|---|---|
| RbTable.Table.Find | src/rb.c:63-82 | returns a node whose item compares equal, or NULL exactly when no item of the tree does |
| RbTable.Table.Search | src/rb.c:91-111 | the stack `pa`/`da` is exactly the path from the pseudo-root to the equal item, or to the empty link that separates smaller from larger items |
| RbTable.Table.Probe | src/rb.c:88-199 | an equal item: nothing changes and its node is returned; no memory: nothing changes; otherwise exactly the new node joins at its place in the order, and all red-black and ordering invariants hold again |
| RbTable.Table.FixInsert | src/rb.c:124-199 | from a red node under any path, the loop ends in a red-black tree with the same in-order sequence and the same nodes |
| RbTable.Table.InsertRotate | src/rb.c:135-158 | the black-uncle case, one rotation or two, gives a black root, restores balance and keeps the in-order sequence |
| RbTable.Table.Delete | src/rb.c:232-428 | absent: nothing changes; present: exactly the item at its position disappears, exactly its node is freed, all other nodes keep their items, count and generation move, and the invariants hold |
| RbTable.Table.SearchDelete | src/rb.c:244-258 | the descent from the pseudo-node finds the node with its full ancestor stack, or no item is equal |
| RbTable.Table.Unlink | src/rb.c:260-305 | the node is out of the tree, the in-order sequence lacks exactly its item, and the stack again leads to the place of the missing black node |
| RbTable.Table.FindSuccessor | src/rb.c:279-291 | the loop finds the leftmost node of the right subtree and its parent, and fills the stack except for the slot kept for the successor |
| RbTable.Table.Repair | src/rb.c:307-422 | the loop restores equal black heights and ends, keeping nodes and order |
| RbTable.Table.RepairStep | src/rb.c:320-419 | one turn either finishes, or moves the shortage up by one, or leaves it under a red node |
| RbTable.Table.RedSibling | src/rb.c:324-339 | the rotation that gives the place a black sibling and pushes one more stack entry, which is the exact path again |
| RbTable.Table.BlackSibling | src/rb.c:341-367 | with a black sibling the shortage moves up by one, under a node that is red exactly if the parent was, or a red nephew settles it |
| RbTable.Table.RedNephew | src/rb.c:346-367 | with a red nephew, one or two rotations settle the shortage: black heights equal, order and nodes kept |
| RbHeight.HeightBound | src/rb.h:53-55 | a red-black tree with n items satisfies 2^((height+1)/2) <= n + 1, that is height <= 2 log2(n + 1) |
| RbHeight.StackSuffices | src/rb.h:53-55 | with at most 2^24 - 2 items the height is below RB_MAX_HEIGHT |
| RbTraverse.Traverser.Refresh | src/rb.c:432-456 | after any changes that kept the current node, the rebuilt stack is the exact ancestor path in the current tree |
| RbTraverse.FindNode | src/rb.c:439-455 | the search by comparison reaches the very node, not just an equal item, and pushes its ancestors |
| RbTraverse.Traverser.Start | src/rb.c:472-521 | rb_t_first and rb_t_last select the first item in their direction, or none in an empty tree |
| RbTraverse.Traverser.Insert | src/rb.c:567-589 | a new item joins the table at its place and the traverser stands on its node; an equal item is selected and nothing changes; without memory nothing changes and nothing is selected |
| RbTraverse.Traverser.Advance | src/rb.c:616-717 | the item next to the current one in the tree as it is now is selected; from the null item, the first; past the end, none |
| RbTraverse.Traverser.ThereAndBack | src/rb.c:616-717 | rb_t_prev undoes rb_t_next and the other way round, also across the end |
| RbTraverse.Traverser.Walk | src/rb.c:472-521 | from rb_t_first by rb_t_next every item is returned once, in ascending order; descending the other way |
| RbTraverse.MoveAfterChanges | src/rb.c:616-717 | after any sequence of insertions and of deletions of other items, the next move selects the neighbour in the current tree |
| RbCopy.Copy | src/rb.c:742-856 | succeeds exactly if every allocation and every copying succeeds; then same shape and colours, copied items at the addresses of the course, red-black, valid if copying keeps the order; on failure exactly the addresses the allocator gave are freed, each once, and the destructor gets exactly what the course leaves that is not null, in order, uninitialised memory among it exactly if a copy was waiting whose memory was not null; the original is unchanged |
| RbCopy.CopyNodes | src/rb.c:785-854 | the two nested loops copy every node once, within a stack of 2 * (RB_MAX_HEIGHT + 1), or stop where the course breaks, with the copies it says, the waiting ones being those on the stack |
| RbCopy.FillUp | src/rb.c:815-854 | on the way up pending nodes get colour, item and right link, each once, until one has a right subtree, none is left, or the course breaks there |
| RbCopy.FillNode | src/rb.c:817-847 | one node gets its colour, its item and its right link, or is the one at which copying or allocating fails |
| RbCopy.DescendLeft | src/rb.c:789-813 | each node on the left spine gets a copy and waits on the stack with it; a failed allocation leaves the copy at hand without item and links |
| RbCopy.ErrorRecovery | src/rb.c:745-754 | exactly the right links of the pending copies are cleared |
| RbCopyFail.Recover | src/rb.c:745-754 | after recovery every copy links to the copies of its children, so the copies made are a tree; the finished ones hold their items, the pending ones what their memory held |
| RbCopyFail.RootedChild | src/rb.c:789-854 | a node has a copy only if all nodes above it have one |
| RbCopy.PrunedRemains | src/rb.c:745-754 | the tree that recovery hands to rb_destroy is, in order, what the course says remains |
| RbCopy.AllFreed | src/rb.c:753-753 | every address that was allocated is freed, once |
| RbCourse.ResumeLeft | src/rb.c:789-813 | going left with one more node waiting does not change what becomes of the whole |
| RbCourse.ResumeBroken | src/rb.c:745-856 | a failure leaves exactly the nodes on the stack waiting |
| RbCopy.Uninitialised | src/rb.c:742-856 | the destructor is called with uninitialised memory if and only if the course breaks while a copy waits whose memory is not null |
| RbCopy.UninitialisedHappens | src/rb.c:742-856 | a tree of two nodes and a copying function for which it is |
| RbCopy.Holds | src/rb.c:765-856 | once every node's copy is finished, the new store holds the image of the whole tree |
| RbCopy.ShapeBalance | src/rb.c:817-817 | copying colours node by node copies the black height |
| RbDestroy.Destroy | src/rb.c:860-883 | passes every item that is not null to the destructor once, in ascending order, and frees every node, in the same order |
| RbDestroy.DestroyNodes | src/rb.c:867-880 | the loop ends on every tree in memory, also an unbalanced one, frees its nodes in order and touches no freed node |
| RbDestroy.NodesOnce | src/rb.c:867-880 | the addresses freed are those of the nodes, each once |
| RbDestroy.RotateRight | src/rb.c:875-880 | the rotation keeps the in-order sequence and shortens the left spine |
| ByteOrder.SwapInvolution | src/byte-order.h:26-42 | swapping four bytes twice is the identity |
| ByteOrder.NetworkOrder | src/byte-order.h:17-42 | a value in network order has the same bytes in memory on hosts of either byte order, and reads back |
| ByteOrder.PlaceValues | src/byte-order.h:17-42 | the value of the bytes in network order, of the bytes in memory on a little-endian host, and of a swapped word, place by place |
| Iovec.Consume | src/socket.c:83-99 | after the kernel moved n bytes the vector covers exactly the remaining addresses, in order, and does not start with an empty element |
| Iovec.Transfer | src/socket.c:28-109 | over any sequence of partial, interrupted and failed calls: how many bytes move, which vector remains, and that -1 is returned exactly if the calls run into an error before all bytes are moved |
| Iovec.ErrsOnly | src/socket.c:45-82 | a transfer errs only on a script with a failure, and then with bytes left |
| Iovec.ObligingMeans | src/socket.c:45-82 | a script moves something where anything can be moved exactly if, after interruptions at most, one of its calls does |
| Framing.HeaderRoundTrip | src/socket.c:443-493 | the receiver accepts exactly the headers whose lengths are within its limits, and reads back the lengths written, for all pairs of byte orders |
| Framing.HeaderLayout | src/socket.c:282-287 | on a host of either byte order the header is `:O` with a null byte, the length of the message header, that of the payload, each with the most significant byte first, and 42 |
| Framing.AcceptsOnly | src/socket.c:443-493 | a header is accepted if and only if it is that of lengths up to 1048576, the first not 0, and 131072 |
| Framing.FrameLayout | src/socket.c:266-315 | a frame byte by byte: header, message header, payload |
| Framing.FlatJoin | src/socket.c:297-300 | the payload is the contents of its vectors one after the other |
| Framing.NextHeader | src/socket.c:266-315 | twelve bytes beyond d whole frames are the header of message d |
| Framing.WholeFrame | src/socket.c:266-315 | as many bytes as frame d has, beyond d whole frames, are frame d |
| SocketParts.NewEntryOk | src/socket.c:266-315 | a new queue entry covers the frame of its message: header, message header, payload vectors |
| SocketParts.PartDetermines | src/socket.c:496-673 | between two polls the receiver's state and contents are a function of the bytes read, however they were chunked, up to whether the first read is prepared and whether a complete header is accepted yet |
| SocketMachine.ReadHeader | src/socket.c:537-563 | reads no further than the header, keeps what was read, and changes state exactly when it is complete |
| SocketMachine.AcceptHeader | src/socket.c:565-620 | -1 exactly if the header is refused, -ENOMEM exactly if there is a payload and no iobuf; else sets up buffers for exactly the announced sizes |
| SocketMachine.ReadData | src/socket.c:622-649 | reads no further than the current frame and changes state exactly when it is complete |
| SocketMachine.Turn | src/socket.c:516-669 | one turn of the switch either stops as `Polled` says or leaves a record that is answered the same from there on |
| SocketMachine.Machine | src/socket.c:496-673 | answer, bytes read and state in which it stops are those of `Polled`: 0 exactly at COMPLETE, positive exactly on a partial read, -1 on a read error or a refused header, -ENOMEM without a buffer; the bytes consumed extend what was read of the frame; the state only moves forward, so that "state did not change" is not reached; entered in COMPLETE it returns -1; with something to read it reads something |
| SocketMachine.CompleteIsMessage | src/socket.c:651-665 | at COMPLETE the buffers hold exactly header and payload of the next message, which respects the limits |
| SocketMachine.NothingLeft | src/socket.c:496-673 | when all bytes are read and no frame waits to be fetched, all messages within the limits have been delivered |
| SocketMachine.Blocked | src/socket.c:443-493 | a message beyond the limits stops the stream at its header |
| SocketLink.WriteEntry | src/socket.c:348-365 | what was written and what is pending add up to what was pending; how much is written and whether it ends in -1 follow from the script and the bytes left |
| SocketLink.Link.Submit | src/socket.c:1271-1327 | not connected: refused; else accepted, and delivered bytes, bytes in flight and bytes queued still add up to the frames in order; on an empty queue the wake-up is lost if and only if the script runs into its error |
| SocketLink.Link.Churn | src/socket.c:367-393 | the same sum is kept, entries leave in order, what is left of each follows from the scripts, POLLOUT is deselected on an empty queue, and a willing socket takes at least a byte |
| SocketLink.Link.WriteFirst | src/socket.c:376-384 | only the first entry is written to; it leaves exactly when nothing of it is left |
| SocketLink.Link.PollOut | src/socket.c:417-440 | keeps the sum and the rule that, while connected, POLLOUT is selected exactly if something can be written; 0 exactly if the queue is empty then, -1 exactly if a write error ends the connection, or there was none |
| SocketLink.Link.PollIn | src/socket.c:496-709 | the sum is kept, and the answer is that of `Polled`: 0 complete, positive partial, negative error; without failing calls positive exactly if header or data are still coming; a complete message waits until it is fetched |
| SocketLink.Link.Receive | src/socket.c:1228-1267 | hands out a complete message exactly once and resets the receiver; without one, or not connected, it refuses and changes nothing |
| SocketLink.Link.HangUp | src/socket.c:138-156 | the receiver is no longer connected; nothing else changes |
| SocketSender.LostExactly | src/socket.c:1298-1321 | a queue is left without wake-up if and only if at some point a submission to an empty queue ran into a write error and POLLOUT was not handled after it |
| SocketRun.Run | src/socket.c:28-1327 | any interleaving: delivered is a prefix of accepted, byte for byte; once drained it is all exactly if all messages respect the limits; which messages are accepted, what is left in the queue and whether its wake-up is lost are as the lengths and scripts say |
| SocketRun.Turn | src/socket.c:417-709 | each event on a healthy connection delivers something, or brings bytes closer, or leaves what is waited for unchanged, the last only if it does not serve it |
| SocketRun.Drain | src/socket.c:28-1327 | for every endless fair sequence of polls and receives, however little each moves, everything accepted is delivered |
| SocketRun.Session | src/socket.c:28-1327 | any run without errors followed by any fair sequence of polls delivers every message submitted |
| SocketRun.LostWakeup | src/socket.c:1303-1321 | one submission on a fresh connection: success is reported whatever happens, and the entry is queued without POLLOUT if and only if the script runs into its error |
| Iobuf.Pool.SelectArena | src/iobuf.c:266-285 | an arena with a free buffer: the first in use, else the first spare one, else a new one; none only without memory |
| Iobuf.Pool.Get | src/iobuf.c:307-354 | a buffer nobody holds, now with one reference; its arena moves to `filled` exactly if that was the last one; fails exactly without memory and with every arena full |
| Iobuf.Pool.Unref | src/iobuf.c:411-427 | the one who drops the last reference, and nobody else, is left with a put to do |
| Iobuf.Pool.Put | src/iobuf.c:358-382 | the buffer becomes passive; its arena leaves `filled` exactly if it was full and goes to `purge` exactly if it is idle |
| Iobuf.Pool.Prune | src/iobuf.c:230-263 | idle arenas are destroyed unless nothing else has buffers; no buffer that is referenced or about to be put loses its arena |
| Iobuf.Pool.Release | src/iobuf.c:383-427 | a whole iobuf_unref drops exactly one reference; if others are left nothing moves; the last one makes the buffer passive, moves its arena between the lists and prunes; at most one spare arena is left and none beside usable ones, given at least two buffers to an arena |
| Iobuf.IdleArena | src/iobuf.c:51-76 | in an arena without active buffers every reference count is zero, so the assertion in its destruction holds |
| Iobuf.Pool.Turn | src/iobuf.c:51-427 | each critical section does to the holders, the puts under way and the arenas what `Leads` says |
| Iobuf.Pool.TurnRelease | src/iobuf.c:383-427 | a release is the drop, the put of the last holder and the prune, on holders and arenas |
| Iobuf.AllFilled | src/iobuf.c:266-285 | without an arena on the first list or a spare one, every buffer is held or about to be put back |
| Iobuf.SomeOpen | src/iobuf.c:236-239 | `arenas` is not empty exactly if an arena that is not spare has a buffer not in use |
| Iobuf.AloneIs | src/iobuf.c:358-382 | the active count is one exactly if no other buffer of the arena is held or about to be put back |
| Iobuf.Pool.Run | src/iobuf.c:51-427 | in every interleaving: each arena on exactly one list, `filled` iff nothing is passive, `purge` only if nothing is active, counts right; every step moves the holders, the puts under way, the arenas and the spare ones as `Leads` says, each reference count is the number of holders, and every buffer held or about to be put back is active in an arena that is there |
| Iobuf.Pool.RunAlone | src/iobuf.c:230-427 | operations one at a time with at least two buffers to an arena keep at most one spare arena, and none while `arenas` is not empty; each moves holders and arenas exactly as `LeadsAlone` says |
| Iobuf.Untidy | src/iobuf.c:358-407 | with one buffer to an arena, two releases leave two spare arenas |
| Iobref.Iobref.Add | src/iobuf.c:519-555 | the buffer goes to the first free slot with one more reference, or -ENOMEM and nothing changes; occupied slots form a prefix |
| Iobref.Merge | src/iobuf.c:558-582 | all of `from` is added with one reference each, or exactly as many as fit and -ENOMEM |
| DictEntries.PutMap | src/dict.c:190-249 | putting into an association list with unique keys is the map update |
| DictEntries.RemoveMap | src/dict.c:298-344 | removing from it is removal from the map |
| DictEntries.PutAllMap | src/dict.c:1147-1196 | copying with every allocation succeeding is the union of the maps, the source's values winning |
| DictEntries.PutAllReversed | src/dict.c:1147-1196 | a copy into an empty dictionary lists the entries in opposite order |
| DictEntries.PutSomeAll | src/dict.c:1147-1196 | copying in which no allocation fails leaves nothing out |
| DictEntries.PutSomeValue | src/dict.c:1147-1196 | a copy for which memory runs short takes over exactly the keys that were there and those it had room for |
| DictStore.LinkedMembers | src/dict.c:239-243 | a new pair at the front keeps all `next` and `prev` links of the member list |
| DictStore.UnlinkedMembers | src/dict.c:323-329 | taking a pair out anywhere keeps all `next` and `prev` links |
| DictStore.UnlinkedChain | src/dict.c:316-319 | taking a pair out of its chain keeps the `hash_next` links of the chain |
| DictStore.UnlinkedOther | src/dict.c:316-329 | the other chains are untouched by it |
| Dict.SlotsAgree | src/dict.c:174-207 | the signed remainder of `_dict_set` and the unsigned one of lookup and deletion agree if and only if the hash is below 2^31, or the table size divides both the hash and 2^32 minus the hash |
| Dict.SlotsDiffer | src/dict.c:174-207 | a hash and a table size for which a pair is stored in one slot and searched in another |
| Dict.SettledAgain | src/dict.c:210-217 | replacing a value changes counts by exactly the change in uses, also when the key is set to the value it already holds |
| Dict.Dictionary.Lookup | src/dict.c:165-185 | finds the pair of a key exactly if there is one |
| Dict.Dictionary.Get | src/dict.c:274-296 | is lookup in the map |
| Dict.Dictionary.Set | src/dict.c:187-272 | an existing key gets the value in place, a new one goes to the front of chain and list; failures change nothing; counts change as uses do; the dictionary stays in order if and only if the key was there, nothing was stored, or storing and searching agree on the slot |
| Dict.Dictionary.Attach | src/dict.c:236-244 | a new pair is linked into chain and member list; it is found again if and only if the slots agree |
| Dict.LinkedElsewhere | src/dict.c:206-237 | a pair stored in another slot than the one searched is not on the chain that is searched |
| Dict.Dictionary.Del | src/dict.c:298-344 | the key's pair leaves chain and list, its value loses one reference and is destroyed at the last one; chains, list and count agree |
| Dict.Dictionary.CopyFrom | src/dict.c:1147-1196 | every pair of the source is set in order, except new keys whose allocation fails; source and target may be the same, which changes nothing; counts stay exact |
| DictRun.LedgerAfter | src/dict.c:419-457 | an operation that accounts for its own dictionary keeps every count equal to all pairs plus outside holders, and exactly the values that lost their last holder are gone |
| DictRun.NextMeans | src/dict.c:165-1196 | what each key of each dictionary means after a call: the value set, nothing once deleted, the source's value after a copy that had room for it, and unchanged otherwise |
| DictRun.Process.Outsider | src/dict.c:419-457 | creating, referencing and releasing a value from outside: done exactly if allowed, with the machine's next state |
| DictRun.Process.Step | src/dict.c:165-1196 | one call is done exactly if `Can` says so, and the next state is the machine's |
| DictRun.Process.Run | src/dict.c:165-1196 | any run over any number of dictionaries: structure consistent; entry lists, outside holders and live values are those of the abstract machine after the calls; every count is the number of pairs plus outside holders |
| DictWire.SerializedLength | src/dict.c:2090-2160 | the sum of the parts, or -EINVAL exactly on a bad count or a negative length |
| DictWire.RoomIsLength | src/dict.c:2090-2160 | for flat values that sum is the number of bytes of the encoding |
| DictWire.VectoredRoom | src/dict.c:2131-2151 | a vectored value counts with the sum of its lengths, one without data with its length field |
| DictWire.EncodedLayout | src/dict.c:2174-2249 | the encoding byte by byte: count, and for each pair the two lengths, the key, a null byte, the value |
| DictWire.ReadEntry | src/dict.c:2388-2433 | the checks one after the other find a pair exactly if both lengths and what they announce end inside the buffer |
| DictWire.Serialize | src/dict.c:2174-2249 | succeeds exactly on flat values; then the buffer starts with the encoding and is otherwise untouched, on hosts of either byte order |
| DictWire.Unserialize | src/dict.c:2328-2441 | sets the parsed entries in order; the count afterwards, also after a short buffer, is the number of new keys once the header is read, and so right exactly if the dictionary was empty or the header was refused |
| DictWire.Unpacked | src/dict.c:2174-2441 | parsing an encoding gives back exactly its entries |
| DictWire.RoundTrip | src/dict.c:2174-2441 | on lists of entries: reading an encoding into nothing gives the same map in opposite order, and a second round trip the list and the bytes |
| DictWire.Truncated | src/dict.c:2368-2430 | every proper prefix of an encoding is refused |
| DictTrip.Write | src/dict.c:2455-2502 | -EINVAL exactly on a negative length, else -ENOMEM without memory for the buffer, else -1 on a value that is not flat, and otherwise the encoding of the member list |
| DictTrip.Read | src/dict.c:2328-2441 | into an empty dictionary: chains, list and counts in order, and exactly the parsed entries; 0 exactly if all are there |
| DictTrip.Trip | src/dict.c:2090-2441 | from one dictionary into another: the same map, listed in opposite order |
| DictTrip.TwoTrips | src/dict.c:2090-2441 | a second trip gives back the list, and writing it the same bytes |
| RbtHash.KeyCmpOrder | src/rbthash.c:16-38 | length first, then bytes, is a total order in which only equal keys compare equal |
| RbtHash.KeyCmpDirection | src/rbthash.c:16-38 | the shorter key comes first, and of equally long ones the one with the smaller byte where they first differ |
| RbtHash.ComparatorOrder | src/rbthash.c:16-38 | the comparator satisfies what the tree demands of its comparison function |
| RbtHash.HashTable.Get | src/rbthash.c:284-330 | lookup in the map, for every hash function and bucket count |
| RbtHash.HashTable.Insert | src/rbthash.c:156-281 | insert if absent; an existing key keeps its data, the call succeeds, and the new entry stays taken from the pool; if only the tree node cannot be had, the entry goes back but the caller's data is destroyed |
| RbtHash.HashTable.Remove | src/rbthash.c:333-367 | removal from the map, returning the data, and the entry goes back to the pool, which does not abort |
| RbtHash.HashTable.InsertEntry | src/rbthash.c:227-255 | the entry joins its bucket unless its key is there or there is no memory; the other buckets are not concerned |
| RbtHash.HashTable.DeleteEntry | src/rbthash.c:352-360 | exactly the entry of the key leaves its bucket |
| RbtHash.HashTable.EntriesApart | src/rbthash.c:156-281 | an entry overlaps nothing else that is taken from the pool |
| RbtHash.Create | src/rbthash.c:41-152 | an empty map over the asked number of buckets, with a pool of its own for entries of the given size, of which nothing is taken |
| MemPool.IsMemberExact | src/mem-pool.c:122-138 | `__is_member` is 1 exactly for the address after a chunk header, 0 exactly outside the slab and -1 otherwise, for addresses not in the first header |
| MemPool.Judged | src/mem-pool.c:122-138 | 1 for every slab pointer handed out, 0 for every address outside the slab |
| MemPool.Pool.Get | src/mem-pool.c:61-119 | a pointer that was not live becomes the only new live one, from the slab while it has chunks; fails only when slab and heap are exhausted |
| MemPool.Pool.Put | src/mem-pool.c:141-188 | exactly the pointer given back stops being live, and the aborting branch is not taken |
| MemPool.Pool.LiveApart | src/mem-pool.c:15-119 | two live pointers never overlap, wherever they come from |
| MemPool.Pool.FreeIsTheRest | src/mem-pool.c:15-188 | the free list is exactly the chunks not handed out |
| MemPool.Pool.Run | src/mem-pool.c:15-188 | any run of matched calls: nothing aborts, the client holds exactly the pointers its calls leave it with, which are the live ones; an allocation returns a pointer not held and fails only with as many held as there are chunks; hot plus cold is the initial count |
| Md5Core.SameF | src/md5.c:52-112 | the rewritten F and G, and H and I, are those of section 3.4 of RFC 1321 |
| Md5Core.SameBlock | src/md5.c:22-137 | the 64 macro calls are the block operation of section 3.4 of RFC 1321, written as a loop over rounds, word order, shifts and table |
| Md5Core.PlusModulo | src/md5.c:50-50 | addition of words is addition modulo 2^32 |
| Md5.SivalLowFirst | src/md5.h:28-30 | a word is written with its low-order byte first |
| Md5.IvalLowFirst | src/md5.h:26-27 | a word is read with its low-order byte first |
| Md5.InitialRegisters | src/md5.c:12-20 | the initial registers are the bytes that section 3.3 of RFC 1321 lists |
| Md5.Context.Update | src/md5.c:139-171 | the context represents the message so far followed by the input, however it was cut |
| Md5.Context.Tally | src/md5.c:149-153 | the two counters together hold the length modulo 2^64 |
| Md5.Context.Result | src/md5.c:175-198 | the digest is padding, length and block folding over the whole message as in sections 3.1 to 3.5 of RFC 1321 |
| Md5.Hash | src/md5.c:12-198 | for every way of splitting a message into calls the digest is that of the message |
| Md5Suite.EmptyDigest | src/md5.c:12-198 | the digest of the empty message, as in appendix A.5 of RFC 1321 |
| Md5Suite.AbcDigest | src/md5.c:12-198 | the digest of `abc` |
| Md5Suite.MessageDigest | src/md5.c:12-198 | the digest of `message digest` |
| EventPool.Pool.GetIndex | src/event.c:47-71 | finds the index of a descriptor exactly if it is registered, whatever the hint |
| EventPool.Pool.Register | src/event.c:497-590 | succeeds exactly for a valid descriptor that is not registered, and exactly then the registry stays consistent with the kernel; it then wants input and output exactly as the two arguments are 1; a refusal leaves its slot behind |
| EventPool.Pool.SelectOn | src/event.c:668-746 | changes the events of exactly that descriptor, in registry and kernel: 1 sets, 0 clears, anything else keeps; -1 exactly if it is not registered |
| EventPool.Pool.Unregister | src/event.c:594-664 | exactly that descriptor goes; the last registration moves into its place and the kernel is told, so that it still maps every descriptor to its events and index |
| EventPool.Pool.Dispatch | src/event.c:748-788 | an event runs the handler and data registered under its own descriptor now, or nothing, whatever its index was when it was fetched |
| EventPool.AfterMeans | src/event.c:497-746 | what becomes of every descriptor and its events under each call on the map |
| EventPool.Pool.Run | src/event.c:497-788 | any run of calls with arbitrary hints and late events behaves as a map from descriptors does |

## Left out

- `src/name.c`, `src/transport.c`, connecting, listening and accepting in `src/socket.c`: system calls and option handling.
- `src/logging.c`, `src/globals.c`, `src/timer.c`, `src/common-utils.c`, `src/protocol.h`, `src/hashfn.c`, `src/checksum.c`: no hard invariants, or rest on library calls outside the repository.
- `rb_replace`, `rb_t_find`, `rb_t_copy`, `rb_t_replace`, `rb_t_cur`: searches and single assignments that repeat what is proved of searching and traversing.
- `rb_generation` is an unbounded integer; wrap-around of the C counter is not modelled.
- RbTraverse.Traverser.Advance: a traverser whose current node was deleted by somebody else is outside its precondition, as the source asks of its callers.
- RbCopy.CopyNodes: the first turn of the outer loop, which links the root under the pseudo-node, is written before the loop.
- RbCopy.Copy: failure of `rb_create` for the new table, which returns NULL at once, is not modelled.
- SocketLink: one direction of one connection; `socket_event_poll_err`, reconnecting, and the peer closing while data is in flight are outside. After a hard error on a write the entry keeps the count -1, as in the source.
- SocketMachine.AcceptHeader: a payload that the header check accepts must fit a page of the iobuf pool; the source leaves that check as a comment and would write past the page.
- SocketMachine.Machine: the same.
- SocketLink.Link.Submit: the same, asked of the message where it is submitted.
- SocketParts.NewEntryOk: at most 14 payload vectors, as `__socket_ioq_new` asserts, and lengths that fit the 32-bit fields.
- `socket_submit` with an allocation failure for the queue entry: it returns -1 and changes nothing.
- Iobuf: memory mapping, `iobuf_pool_destroy` (which walks only one of the three lists), statistics dumps.
- Iobref.Merge: merging a collection into itself would take its own lock twice and is outside the precondition; `iobref_ref`, `iobref_unref` and `iobref_destroy` are not modelled.
- DictRun.Process.Run: a call that would store a new pair where it is not searched, or use a value that is gone, is not made.
- Locks are not modelled: each critical section is one step.
- Dict.Dictionary.Set: requires that a new key is stored inside the table; where the signed remainder is negative the source writes before its start.
- Dict.Dictionary.CopyFrom: its keys satisfy the condition of `Dict.SlotsAgree`, since a dictionary that is no longer in order cannot be copied into further.
- `dict_ref`, `dict_unref`, `dict_destroy`, `dict_copy_with_ref`, the typed accessors, the iovec form and the text form of dictionaries.
- Pairs with a null key or a null value in the serializer: `dict_set` lets none in.
- DictWire.Unserialize: works on the list of entries that `Dict.Dictionary.Set` is proved against, and so shows what becomes of the count of a dictionary that is not empty; `DictTrip.Read` is the same parser on a dictionary. On a negative length or a key without terminator the source leaves the buffer, and both stop there (`astray`).
- DictTrip.Write: keys are C strings and all lengths and their sum fit an int; the source's sum would wrap around.
- DictTrip.Read: the dictionary is empty (`DictWire.Unserialize` says what becomes of the count of another one), and every allocation succeeds; the source would use a null pointer where one for a value fails.
- RbtHash: destruction of the table.
- RbtHash.HashTable.Insert: buckets hold at most 2^24 - 2 entries, the bound under which the tree's stacks suffice.
- MemPool.IsMemberExact: addresses inside the first chunk header are excluded; they are never handed out, and the unsigned wrap-around of the difference makes the answer depend on the chunk size.
- `mem_pool_destroy`, and `count` beyond the range of the loop's `int`.
- Md5: the sine table is taken as literals; in the high word of the length `|` is written as a sum, the operands having no bit in common.
- EventPool: the poll(2) back end, failures of `epoll_ctl` other than for invalid, missing and repeated descriptors, failure of `realloc`, and the dispatch loop around the handler.
