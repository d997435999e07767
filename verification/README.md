# MP_Lite: verified models

MP_Lite is the message-passing library that NetPIPE carries in `MP_Lite/`. This project models
its protocols and data structures in Dafny and proves what they are for. `dafny verify
dfyconfig.toml` checks all of it.

| file | what it models |
|---|---|
| `Common.dfy` | an option type and a fact about sets that several models use |
| `Binary.dfy` | powers of two, aligned blocks and exclusive or with a power of two |
| `Participants.dfy`, `Exchange.dfy`, `ExchangeRuns.dfy`, `Allreduce.dfy`, `Allgather.dfy` | the collectives by recursive doubling, for any number of participants, and their runs with every participant at its own pace |
| `Broadcast.dfy` | the broadcast down a binomial tree |
| `Cartesian.dfy` | ranks, coordinates and shifts on a mesh |
| `RegionTreeShape.dfy`, `RegionTreeRepair.dfy`, `RegionTreeDeletion.dfy`, `RegionTree.dfy`, `RegionCache.dfy` | the red-black tree of memory regions with its parent links and shared sentinel, and the registration cache built on it |
| `EagerMatching.dfy`, `EagerReceiver.dfy`, `EagerLink.dfy`, `EagerOrder.dfy` | the eager protocol over InfiniBand: matching, the pool of receive buffers, credits with counters that wrap around, the whole connection, and the order of its messages |
| `TransIds.dfy`, `Rendezvous.dfy`, `RendezvousCalls.dfy` | the rendezvous handshake, its transaction ids, and what becomes of each call |
| `Fence.dfy`, `WindowLock.dfy` | one-sided communication: fences, and the lock of a window |
| `Bakery.dfy`, `SmpSync.dfy`, `FileBarrier.dfy` | mutual exclusion and two barriers |
| `Striping.dfy` | one message over several VIA interfaces |

How the models are built:

- Code that works on pointers, arrays and queues in place is a method or a class; its contract
  ties the new state to a function of the old one, and lemmas about that function say what it
  is good for. The tree is a class over node objects: each method takes the position it works
  at as a ghost pair of a context and a subtree, and says at which position the heap is then.
- Code that runs concurrently is a state machine whose steps are the single reads, writes and
  messages. Theorems are about every run, which is any sequence of steps from the start.
- In the eager and the rendezvous protocol a step is a whole library call, the end of a wait, or a
  completion handler. That these do not interrupt each other is an assumption: only
  `ib_eager_arecv` and `ib_eager_handle_recv`, and the parts of the rendezvous code that hold
  `rndzv_send_q_mutex`, exclude each other in the source, while `ib_eager_asend`,
  `ib_eager_check_sends`, `ib_eager_handle_send` and both finish functions hold no mutex.
- Waiting loops are steps that leave things as they are, or go round the reads of a condition.
  For each protocol there is a lemma that somebody can always go on: that there is a step, or a
  few steps of one process alone, after which it has less to go.

## What the source does not do

The models follow the code where it disagrees with its comments or its purpose:

- `rb_delete` copies handle and properties the wrong way round when the deleted node has two
  children (MP_Lite/ib.c:4957-4963). `RegionTreeDeletion.DeletionMixesUpEntries` is an example and
  `RegionTreeDeletion.DeletedExactly` the exact condition. The only road to such a deletion is
  `persist_mr_del`, which nothing in the library calls: draining the cache deletes the lowest
  entry each time, whose node has at most one child.
- `ib_eager_finish_send` posts its own message although earlier ones may still wait to be posted
  (MP_Lite/ib.c:2731-2745). Then messages arrive in another order than they were sent in:
  `EagerOrder.Overtaking` is a run from the start, `EagerOrder.LatePostOrder` says of one wait and
  `EagerOrder.InOrderExactly` of a whole run exactly when order is kept. Completions are counted
  for the right message even so (`EagerOrder.CompletionsAreRight`), because the wait does not
  return before its own message is complete.
- `via_recv` moves on by two interfaces after it has posted a descriptor again
  (MP_Lite/via.c:1793-1804). `Striping.RebuiltExactly` and `Striping.AllRebuiltExactly` say exactly
  when buffers are rebuilt.
- `MP_Cart_Create` means to keep the dimensions close to each other (MP_Lite/mpcore.c:961-964) but
  puts all processes into the first one. `Cartesian.FourInALine` is an example, and
  `Cartesian.ChosenLeastExactly` says that this is as close as can be only for a single dimension
  or a number of processes that has no divisor but one and itself.
- A full lock queue looks empty, and all its requests are dropped after a message is printed
  (MP_Lite/tcp.c:2802-2813). No request of n processes is ever lost if and only if n is at most
  `LOCK_Q_SIZE`, which is 1000 (`WindowLock.LosesNobodyExactly`); `WindowLock.Overflow` is the run
  for more, and `MAX_PROCS` is 1024. A shared request overtakes queued exclusive ones
  (`WindowLock.Overtakes`, and the run `WindowLock.SharedOvertakes`). The comment at
  MP_Lite/globals.h:173 has the lock types one lower than the code.
- The test whether the immediate data of a rendezvous completion is an id holds of every number
  (MP_Lite/ib.c:3403-3404), so that its error branch is dead.

## Model

| member | source | states |
|---|---|---|
| RegionTree.RbTree.LeftRotate | MP_Lite/ib.c:4808-4830 | the links, parent links and root after a left rotation at any position of the tree are those of the rotated tree, and the sentinel keeps its parent link |
| RegionTree.RbTree.RightRotate | MP_Lite/ib.c:4832-4854 | the same for a right rotation |
| RegionTree.RbTree.FindPlace | MP_Lite/ib.c:4720-4734 | the search ends below the one node under which the address belongs in search-tree order |
| RegionTree.RbTree.TreeInsert | MP_Lite/ib.c:4720-4751 | the new node hangs at that place and nothing else has moved |
| RegionTree.RbTree.RepairInsert | MP_Lite/ib.c:4868-4928 | one round leaves at most one red-red edge, keeps the entries in order, and ends the repair or moves up the tree |
| RegionTree.RbTree.RbInsert | MP_Lite/ib.c:4856-4931 | from any valid red-black tree and any new address: a valid red-black tree (order, colours, black heights, parent links, black root) for the old map extended by exactly the new entry |
| RegionTree.RbTree.SpliceOut | MP_Lite/ib.c:4944-4955 | a node with at most one child is replaced by that child, and the sentinel's parent link is set when there is none |
| RegionTree.RbTree.TakeOver | MP_Lite/ib.c:4957-4964 | the deleted node goes on under the address of the unlinked one, with its own handle and properties |
| RegionTree.RbTree.RbDeleteFixup | MP_Lite/ib.c:4972-5029 | the loop ends and turns a tree that lacks one black node on one path into a valid red-black tree with the same entries in the same order |
| RegionTree.RbTree.RbDelete | MP_Lite/ib.c:4933-4970 | from any valid tree and any node: a valid red-black tree whose entries are the old ones after the deletion, one node fewer in use |
| RegionTreeDeletion.MapOfDelete | MP_Lite/ib.c:4933-4970 | the map left by a deletion: the address is gone, and with two children the next address carries the deleted entry |
| RegionTreeDeletion.DeletedExactly | MP_Lite/ib.c:4957-4964 | a deletion leaves the rest of the map alone if and only if the node has at most one child, or the next entry is equal anyway |
| RegionTreeDeletion.DeletionMixesUpEntries | MP_Lite/ib.c:4957-4964 | a tree of three registrations in which deleting one leaves its handle under another address |
| RegionTreeShape.HeightLogarithmic | MP_Lite/ib.c:4656-4666 | a red-black tree that stands for a map of n addresses is at most 2 log2(n+1) high |
| RegionTreeShape.PlugFits | MP_Lite/ib.c:4856-4931 | cutting a red-black tree at any position gives a valid subtree and a context that fits it, and conversely |
| RegionTree.RbTree.TreeSearch | MP_Lite/ib.c:4656-4666 | finds the node of an address exactly if the address is in the tree, in at most 2 log2(n+1) steps, n being the number of addresses in the map |
| RegionTree.RbTree.TreeMinimum | MP_Lite/ib.c:4668-4674 | finds the leftmost node below a node |
| RegionTree.RbTree.TreeSuccessor | MP_Lite/ib.c:4684-4699 | finds the node of the next entry in order, or the sentinel exactly if there is none |
| RegionTree.RbTree.PersistAdd | MP_Lite/ib.c:4502-4525 | the map gains the new entry |
| RegionTree.RbTree.PersistGet | MP_Lite/ib.c:4533-4550 | finds an address exactly if the map has it, and returns its entry |
| RegionTree.RbTree.PersistEdit | MP_Lite/ib.c:4555-4573 | replaces the entry of an address the map has, and reports one it has not |
| RegionTree.RbTree.PersistDel | MP_Lite/ib.c:4580-4612 | returns the entry of the address and leaves the map of a deletion; reports an address the map has not |
| RegionTree.RbTree.PersistDelrand | MP_Lite/ib.c:4620-4649 | takes out exactly the entry with the lowest address, leaving all others as they are, and fails exactly on the empty map |
| RegionCache.WidenedCovers | MP_Lite/ib.c:4354-4368 | a widened registration covers the new request and every request the old one covered |
| RegionCache.RegisterMemoryRegion | MP_Lite/ib.c:4342-4437 | with the tree in place, changes cache and adapter as the function Registering says, returns the entry of the address, and exits when that says so |
| RegionCache.ExitExactly | MP_Lite/ib.c:4378-4423 | a call exits exactly when the adapter has to be asked and does not take the old handle back or refuses the new one |
| RegionCache.RegisteringAnswered | MP_Lite/ib.c:4342-4437 | the entry returned covers the request, the adapter is not asked when the cached one does, and whatever requests were covered by live handles before still are, each address having a handle of its own |
| RegionCache.SessionConsistent | MP_Lite/ib.c:4342-4437 | after any sequence of calls from the empty cache every address has a live handle of its own, the adapter knows no other, and every request made so far is covered |
| RegionCache.SessionJustAsked | MP_Lite/ib.c:4354-4418 | after any sequence of calls the size registered at an address is the greatest length asked for there, and the rights are those asked for there together |
| RegionCache.Drain | MP_Lite/ib.c:2004-2015 | the drain ends with an empty tree and has given back every entry once, in ascending order of address |
| RegionCache.AllGivenBack | MP_Lite/ib.c:2004-2015 | after the drain the adapter has no handle left but those it refused to take back |
| RegionCache.DrainReturnsAll | MP_Lite/ib.c:2004-2015 | the drain gives back exactly the live handles, each once and in the order of the addresses |
| RegionCache.ServeCalls | MP_Lite/ib.c:4342-4437 | the calls of a program one after the other, on the tree: through to the end, or an exit |
| RegionCache.ServeAndDrain | MP_Lite/ib.c:2004-2015 | a whole program: unless a call exits, every request was covered at the end of the calls, and the drain then gives back each live handle once, in order of address, leaving the adapter exactly those it refuses |
| Participants.Number | MP_Lite/mpcore.c:266-270 | the numbering lists exactly the participants, in ascending order, and gives this process its own number |
| Exchange.LastStandsIn | MP_Lite/mpcore.c:316-325 | a virtual rank whose block holds a real rank lies in the block of the last real rank |
| Exchange.SendsMatchReceives | MP_Lite/mpcore.c:306-325 | in every round and for every number of participants, s sends to r, once, if and only if r waits for s |
| Exchange.PairMeetsOnce | MP_Lite/mpcore.c:479-525 | no participant sends to another in two rounds, so that one tag for all of them is enough |
| Exchange.SourceBlock | MP_Lite/mpcore.c:306-314 | what a participant receives comes from the sibling of its own block, also when the last rank stands in for a virtual one |
| ExchangeRuns.EveryRunInStep | MP_Lite/mpcore.c:304-373 | over every interleaving of sends and receives, a participant in round k holds what it would hold if all went through the rounds in step |
| ExchangeRuns.RightMessage | MP_Lite/mpcore.c:311-330 | the message a participant takes from the sender it waits for is the one of this round |
| ExchangeRuns.NothingUnderWay | MP_Lite/mpcore.c:316-325 | when a participant sends to another nothing is under way from the one to the other, of whatever round |
| ExchangeRuns.NeverStuck | MP_Lite/mpcore.c:304-373 | as long as anyone is not through all rounds, a send or a receive is possible |
| ExchangeRuns.EveryRunEnds | MP_Lite/mpcore.c:304-373 | every run comes to an end: it has as many steps as there are sends and rounds, and when they are taken, and only then, everyone is through |
| Allreduce.HoldsBlock | MP_Lite/mpcore.c:304-373 | after k rounds a participant holds the combination of all inputs of its aligned block of 2^k ranks, each counted once |
| Allreduce.AllreduceCorrect | MP_Lite/mpcore.c:295-373 | over every run, a participant that is through all rounds holds the combination of all inputs, each counted once, for any operation that is commutative and associative on the values in use |
| Allreduce.TrialMeaning | MP_Lite/mpcore.c:301-372 | in spite of the update in place, trial[v] is nonzero exactly when the block of v holds a real rank, and stays within 3^k |
| Allreduce.TrialFitsInt | MP_Lite/mpcore.c:372-372 | with at most ten rounds no entry overflows an int |
| Allreduce.UpdateTrial | MP_Lite/mpcore.c:372-372 | the loop in place computes the entries of the next round |
| Allreduce.PlanRound | MP_Lite/mpcore.c:306-327 | what a participant posts and sends in a round, from the trial array, is what the pattern says |
| Allreduce.PlanAll | MP_Lite/mpcore.c:295-373 | the same for all rounds of a call, with the number of rounds the next power of two asks for |
| Allreduce.VectorsLawful | MP_Lite/mpcore.c:332-371 | 32-bit sums that wrap around, maxima and minima, element by element, are closed, commutative and associative on vectors |
| Allreduce.Combine | MP_Lite/mpcore.c:337-364 | the loop over the elements combines the received vector into the own one |
| Allreduce.GlobalAnswers | MP_Lite/mpcore.c:295-373 | over every run of MP_iSum, MP_iMax or MP_iMin, a participant that is through all rounds holds at every position a number that is one of those put in and none is greater (for the minimum: smaller), or, for the sum, the 32-bit number congruent modulo 2^32 to the plain sum |
| Allgather.CountsAgree | MP_Lite/mpcore.c:491-511 | sender and receiver compute the same offset and count, also when the last rank sends for a virtual one, and these are the slots of the sender's block |
| Allgather.HasBlock | MP_Lite/mpcore.c:479-527 | before round k a participant has the right slots of its block of 2^k ranks |
| Allgather.Exchanged | MP_Lite/mpcore.c:491-525 | a round fills the slots of the sender's block, all of them, and changes no other |
| Allgather.AllgatherCorrect | MP_Lite/mpcore.c:479-527 | over every run, a participant that is through all rounds has all slots right |
| Allgather.PlanGather | MP_Lite/mpcore.c:481-520 | what a participant posts and sends in a round, with offsets and counts, are blocks of the pattern |
| Broadcast.NumberFromRoot | MP_Lite/mpcore.c:138-149 | the numbering starts with the root, lists exactly the other participants after it in ascending order, and gives this process its own number |
| Broadcast.ChildrenAre | MP_Lite/mpcore.c:177-191 | a participant sends to exactly those whose number has it for the lowest set bit cleared |
| Broadcast.KidsOnce | MP_Lite/mpcore.c:177-183 | it sends to each of them once, the highest first |
| Broadcast.MessageCount | MP_Lite/mpcore.c:177-191 | n-1 messages in all |
| Broadcast.PrepostFrom | MP_Lite/mpcore.c:153-167 | the receive is posted for the participant's parent |
| Broadcast.Follow | MP_Lite/mpcore.c:153-191 | a participant first waits for its parent, if it is not the root, and then sends once to each participant whose parent it is, and does nothing else |
| Broadcast.RunFollows | MP_Lite/mpcore.c:153-191 | at every moment of a run a participant has done the beginning of that, in that order |
| Broadcast.EveryoneFollows | MP_Lite/mpcore.c:153-191 | in every run in which all have got the data, each participant has done just that, in that order |
| Broadcast.SentOnce | MP_Lite/mpcore.c:177-191 | a message goes to one who has not got its data, and has not been sent any |
| Broadcast.EveryRunDelivers | MP_Lite/mpcore.c:153-191 | in every run, whoever has received anything has the root's data, from its parent, and a message is under way exactly between sending and receiving |
| Broadcast.NeverStuck | MP_Lite/mpcore.c:153-191 | as long as someone lacks the data, something can happen |
| Broadcast.EveryRunEnds | MP_Lite/mpcore.c:153-191 | every run has at most 2(n-1) steps; it has that many if and only if everyone has the root's data, and then exactly n-1 messages have been sent |
| Cartesian.RankOfCoords | MP_Lite/mpcore.c:1008-1023 | the rank of the coordinates of a rank is that rank |
| Cartesian.CoordsOfRank | MP_Lite/mpcore.c:1073-1088 | the coordinates of the rank of coordinates in the mesh are those coordinates, and the rank is below the number of processes |
| Cartesian.CoordsInMesh | MP_Lite/mpcore.c:1008-1023 | coordinates are within the dimensions |
| Cartesian.ShiftMoves | MP_Lite/mpcore.c:1049-1068 | a shift by any signed distance moves one coordinate, modulo its dimension, and no other |
| Cartesian.ShiftCoords | MP_Lite/mpcore.c:1049-1068 | the coordinates of the result are those of the process, but for the one of the direction, which is moved by the signed distance modulo the dimension |
| Cartesian.ShiftsUndo | MP_Lite/mpcore.c:1049-1068 | the source of the destination of a process is that process, and both are valid ranks |
| Cartesian.JumpMod | MP_Lite/mpcore.c:1065-1067 | the remainder is taken of a number that is not negative, so that C's operator and the mathematical one agree |
| Cartesian.CartCoords | MP_Lite/mpcore.c:1008-1023 | the loop computes the mixed-radix digits of the rank |
| Cartesian.CartRank | MP_Lite/mpcore.c:1073-1088 | the loop computes the mixed-radix value of the coordinates |
| Cartesian.CartShift | MP_Lite/mpcore.c:1049-1068 | the two results are the shifts by minus and plus the distance |
| Cartesian.ChooseDims | MP_Lite/mpcore.c:977-992 | the loops choose the number of processes for the first dimension, and ones |
| Cartesian.ChosenLeastExactly | MP_Lite/mpcore.c:961-992 | the difference between the dimensions chosen is the least among all meshes of that many processes and dimensions if and only if there is one dimension or the number of processes has no divisor but one and itself |
| Cartesian.FourInALine | MP_Lite/mpcore.c:961-992 | four processes in two dimensions are put into 4 by 1, though 2 by 2 has no difference at all |
| EagerMatching.StableUnique | MP_Lite/ib.c:2352-2408 | at most one matching of arrivals and posted receives leaves no arrival and receive that would both rather have each other |
| EagerMatching.MessagesInOrder | MP_Lite/ib.c:2352-2363 | a receive that takes a message and could have taken an earlier one left it to an earlier receive (section 3.5 of the MPI-3.1 standard) |
| EagerMatching.ReceivesInOrder | MP_Lite/ib.c:2482-2487 | a message that goes to a receive and would have fitted an earlier one finds that one served by an earlier message |
| EagerReceiver.ArecvInv | MP_Lite/ib.c:2331-2423 | posting a receive takes no error exit, and it gets the earliest unmatched message it accepts, with its data; the buffer is given back and posted again |
| EagerReceiver.HandleRecvInv | MP_Lite/ib.c:2425-2538 | a message that finds a buffer waiting takes no error exit and goes to the first receive that accepts it, or waits in its buffer |
| EagerReceiver.NoBufferWaiting | MP_Lite/ib.c:2471-2476 | without a waiting buffer the error exit is taken |
| EagerReceiver.ReleaseBuffers | MP_Lite/ib.c:3731-3805 | after a buffer is given back there is a free one to post, and every buffer is owned by exactly one entry that is not matched |
| EagerReceiver.FinishRecvInv | MP_Lite/ib.c:2541-2616 | a completed receive is found in both queues, and removing it leaves every other link intact |
| EagerReceiver.FinishRecvRemoves | MP_Lite/ib.c:2561-2612 | a completed receive takes its own entry out of one queue and that of its message out of the other, and leaves everything else |
| EagerReceiver.LeadsInv | MP_Lite/ib.c:2331-2616 | after every run of arrivals, posts and waits the pairs are the stable matching, and buffers, queues and counter are in order |
| EagerReceiver.MatchedByTagAndLength | MP_Lite/ib.c:2352-2363 | in every run a receive is matched only with a message that is no longer than it and has its tag, or any if its tag is -1; no such two are left waiting for each other; and a complete receive has the data of its message |
| EagerReceiver.TimingDoesNotMatter | MP_Lite/ib.c:2331-2538 | any two interleavings of the same arrivals and the same receives pair them in the same way and deliver the same data |
| EagerReceiver.Receiver.constructor | MP_Lite/ib.c:1878-1882 | the four buffers are posted to begin with |
| EagerReceiver.Receiver.PostEagerRecv | MP_Lite/ib.c:3742-3799 | the loop takes the first free buffer, or the error exit if there is none |
| EagerReceiver.Receiver.EagerArecv | MP_Lite/ib.c:2352-2416 | the loop and what follows do what the function Arecv says |
| EagerReceiver.Receiver.EagerHandleRecv | MP_Lite/ib.c:2450-2526 | the two loops and what follows do what the function HandleRecv says |
| EagerReceiver.Receiver.EagerFinishRecv | MP_Lite/ib.c:2561-2612 | the two loops do what the function FinishRecv says |
| EagerLink.CreditTest | MP_Lite/ib.c:2236-2238 | comparing the wrapped counters for equality decides the same as comparing the true counts |
| EagerLink.AddWraps | MP_Lite/ib.c:264-266 | ADD_WITH_WRAP is addition modulo 2^31 |
| EagerLink.PostInv | MP_Lite/ib.c:2278-2327 | posting with credit overwrites no send buffer that is still in flight, and keeps counts and queue in order |
| EagerLink.AsendInv | MP_Lite/ib.c:2216-2268 | ib_eager_asend and the queue check before it keep the invariant and only add to what was sent |
| EagerLink.CheckSendsExactly | MP_Lite/ib.c:2675-2716 | the queue check posts as many waiting messages as there is credit for; its flag is set exactly if it had credit at every entry it came to, the last one included; then nothing waits, and otherwise there is no credit left |
| EagerLink.AsendExactly | MP_Lite/ib.c:2216-2268 | a call posts the waiting messages and its own as far as there is credit, and what is left waiting is so for want of a free buffer on one side or the other |
| EagerLink.SendsAllItCan | MP_Lite/ib.c:2216-2268 | so it is for every call in every run |
| EagerLink.HandleSendInv | MP_Lite/ib.c:2618-2672 | for every completion there is an entry that waits for one: the error exit is not taken |
| EagerLink.WireIntact | MP_Lite/ib.c:2289-2315 | what arrives out of a send buffer is the message as it was when posted |
| EagerLink.DoJoint | MP_Lite/ib.c:2216-2787 | nothing that sender, receiver or adapter can do leads to an error exit, and everything keeps the invariant of the connection |
| EagerLink.EveryRunIntact | MP_Lite/ib.c:2216-2787 | the invariant of the connection holds after every run |
| EagerLink.InFlightHasBuffer | MP_Lite/ib.c:2230-2238 | for every message in flight a receive buffer of its own is posted and waiting |
| EagerLink.CleanupTest | MP_Lite/ib.c:1912-1922 | the loop in ib_cleanup ends if and only if every message sent has arrived, been matched and had its buffer freed, and the sender has been told |
| EagerOrder.MarksItsOwn | MP_Lite/ib.c:2635-2652 | the first entry that waits for completion is that of the message the adapter has finished |
| EagerOrder.EveryRunOrderly | MP_Lite/ib.c:2216-2787 | in every run the entries that wait for completion are those of the messages in flight, in the order of posting, and every message is either posted or queued |
| EagerOrder.CompletionsAreRight | MP_Lite/ib.c:2635-2652 | in every run, whatever the order of the waits, a completion is counted for the message it is of |
| EagerOrder.LatePostOrder | MP_Lite/ib.c:2731-2745 | posting a message in its own wait keeps the order if and only if no earlier message still waits to be posted |
| EagerOrder.InOrderExactly | MP_Lite/ib.c:2216-2787 | the messages of a run are posted in the order of the calls if and only if no wait has posted its message out of turn |
| EagerOrder.AskedIsCalled | MP_Lite/ib.c:2216-2268 | in every run the messages the sender has taken on are those of the calls, in that order |
| EagerOrder.ArrivalsAreCalled | MP_Lite/ib.c:2216-2538 | in every run every arrival is the message of a call, and of another call than any other arrival |
| EagerOrder.SentInOrder | MP_Lite/ib.c:2216-2787 | in a run in which no wait has posted out of turn, what has arrived is what the first calls sent, in that order |
| EagerOrder.Overtaking | MP_Lite/ib.c:2731-2745 | for any two messages a run from the start in which the last of six has arrived as the fifth, while the fifth is not posted yet |
| EagerLink.Sender.EagerCheckSends | MP_Lite/ib.c:2675-2716 | the loop does what the function CheckSends says |
| EagerLink.Sender.EagerAsend | MP_Lite/ib.c:2216-2268 | posts at once or queues, as the function Asend says |
| EagerLink.Sender.PostEagerSend | MP_Lite/ib.c:2278-2327 | copies into the next slot in turn and counts, as the function PostSend says |
| EagerLink.Sender.EagerHandleSend | MP_Lite/ib.c:2618-2660 | the loop does what the function HandleSend says |
| TransIds.FailsOnlyWhenFull | MP_Lite/ib.c:3250-3271 | there is no id exactly when every id but the last one given is in use |
| TransIds.NextFreeIsNearest | MP_Lite/ib.c:3250-3271 | the id given is free, and all those between the last one given and it, going up and round, are in use |
| TransIds.Ids.Search | MP_Lite/ib.c:3252-3266 | the loop round the list ends at the first free id after the last one given, or comes back to it |
| TransIds.Ids.Get | MP_Lite/ib.c:3245-3275 | the id given was free, is in range, is marked, and no other changes |
| TransIds.Ids.Free | MP_Lite/ib.c:3279-3285 | the id is free again and no other changes |
| Rendezvous.SlotFree | MP_Lite/ib.c:2965-2975 | an RTR is written into its slot only when the one before has been copied |
| Rendezvous.SlotIntact | MP_Lite/ib.c:3327-3327 | what is copied out of the slot is the RTR as it was sent |
| Rendezvous.ReceivePosted | MP_Lite/ib.c:2942-2942 | an RTR or a datum always finds a posted receive, though both use the same ones |
| Rendezvous.DataFindsReceive | MP_Lite/ib.c:3412-3426 | a data completion always finds its receive |
| Rendezvous.DataExpected | MP_Lite/ib.c:3161-3200 | data comes once for each RTR, while its receive still waits |
| Rendezvous.IdUnlessFull | MP_Lite/ib.c:3245-3275 | ids of incomplete receives are distinct and in range, and there is one unless all others belong to incomplete receives |
| Rendezvous.StepInv | MP_Lite/ib.c:2923-3435 | everything the two nodes can do is without error and keeps all this, but for a receive that finds no id |
| Rendezvous.EveryRunIntact | MP_Lite/ib.c:2923-3435 | it holds after every run of the two nodes, each sender and receiver at once |
| Rendezvous.NeverBack | MP_Lite/ib.c:2923-3435 | nothing that happens sets an incomplete receive back in the at most nine steps it has to go |
| Rendezvous.NeverStuck | MP_Lite/ib.c:2965-2975 | a receive that is not complete can always get further: something can happen that leaves it fewer steps to go |
| RendezvousCalls.RtrIsCalled | MP_Lite/ib.c:2923-2975 | in every run, wherever an RTR is (unsent, under way, in the slot, held, or with its data under way or arrived), it carries the tag, length and address of the latest call that was given its id |
| RendezvousCalls.EveryCallFollowed | MP_Lite/ib.c:2923-3435 | in every run a call, until its id is given again, is either incomplete with its tag, length and address in its RTR, or complete since the data for that RTR was handled, or waited for after that |
| RendezvousCalls.SearchStartsAt | MP_Lite/ib.c:3250-3260 | in every run the search for an id starts from the one given last |
| Fence.OneWrite | MP_Lite/tcp.c:1454-1470 | a flag that arrives finds its cell reset: there is one write between two resets |
| Fence.AtMostTwo | MP_Lite/tcp.c:1461-1472 | no process is more than one fence ahead of another |
| Fence.StepInv | MP_Lite/tcp.c:1434-1478 | every put, arrival, look and reset keeps the count of flags sent, arrived and reset in agreement with the cells |
| Fence.FenceSafe | MP_Lite/tcp.c:1434-1478 | in every run, once a process has returned from its k-th fence, everything put to it by any process before that one's k-th fence has arrived |
| Fence.PutBehind | MP_Lite/tcp.c:1461-1465 | a put is behind exactly the fences its process has finished |
| Fence.NoDeadlock | MP_Lite/tcp.c:1461-1472 | if those that have finished the fewest fences have all called the next one, a message can arrive, or a step of a process in a fence leaves it fewer steps to go |
| WindowLock.DoLockInv | MP_Lite/tcp.c:2774-2893 | every well-formed request is served without error and keeps the invariant: count is the number of holders, a free window has no holder and nobody waiting, a shared one has an exclusive request first in the queue |
| WindowLock.EveryRunInv | MP_Lite/tcp.c:2774-2893 | so after every sequence of well-formed requests of at most LOCK_Q_SIZE processes |
| WindowLock.Exclusive | MP_Lite/tcp.c:2871-2889 | two processes hold the lock at once only if both share it |
| WindowLock.GrantedExactly | MP_Lite/tcp.c:2853-2893 | a request is granted exactly if nobody holds the lock, or all who do share it and it is for a shared lock; otherwise it goes to the end of the queue |
| WindowLock.WaitsForSomeone | MP_Lite/tcp.c:2821-2842 | who waits first does so because the lock is held, and held exclusively if a shared lock is asked for |
| WindowLock.RoomInQueue | MP_Lite/tcp.c:2802-2813 | while the window is held, fewer processes wait than there are |
| WindowLock.ServedInOrder | MP_Lite/tcp.c:2821-2842 | an unlock that frees the window grants the front of the queue, in order and once each: one exclusive request, or all shared ones before the next exclusive one |
| WindowLock.Overtakes | MP_Lite/tcp.c:2787-2795 | a new request is granted ahead of those waiting if and only if it is for a shared lock and the window is shared |
| WindowLock.SharedOvertakes | MP_Lite/tcp.c:2787-2795 | a run in which a shared request is granted while an exclusive one made before it waits |
| WindowLock.Overflow | MP_Lite/tcp.c:2806-2813 | for every number of processes over LOCK_Q_SIZE, a run in which LOCK_Q_SIZE + 1 of them ask for an exclusive lock one after the other ends with the first holding it and nobody waiting |
| WindowLock.LosesNobodyExactly | MP_Lite/tcp.c:2774-2893 | no request of n processes is lost in any run if and only if n is at most LOCK_Q_SIZE |
| WindowLock.Window.Do | MP_Lite/tcp.c:2774-2848 | with the circular array, does what the function DoLock says, the error exit included |
| WindowLock.Window.TryLock | MP_Lite/tcp.c:2853-2893 | grants exactly what can be granted, and changes nothing otherwise |
| WindowLock.Window.Enqueue | MP_Lite/tcp.c:2802-2813 | the request joins the end of the circular queue, or empties it when it was the last place |
| WindowLock.Window.ServeWaiting | MP_Lite/tcp.c:2823-2842 | the loop over the circular queue does what the function ServeQueue says |
| Bakery.StepInv | MP_Lite/lock.c:163-199 | every single read and write keeps the invariant, also the second read in max_number, which may find another number than the first |
| Bakery.MutualExclusion | MP_Lite/lock.c:177-199 | in every run of any number of processes, at most one is between lock_pool and unlock_pool |
| Bakery.DoorwayOrder | MP_Lite/lock.c:180-193 | who has its number before another begins to choose goes in before that one |
| Bakery.NeverBack | MP_Lite/lock.c:177-199 | no step of anyone sets a process back that is in lock_pool or holds the lock |
| Bakery.SomeoneAdvances | MP_Lite/lock.c:184-193 | as long as anyone is in lock_pool or holds the lock, there is a process that gets further by at most three steps of its own, nobody else moving |
| Bakery.FirstGetsIn | MP_Lite/lock.c:184-193 | once nobody is choosing, whoever is first in line gets the lock by its own steps alone |
| Bakery.OneGetsIn | MP_Lite/lock.c:177-193 | a process that calls lock_pool while all others are outside gets the lock by its own steps |
| SmpSync.TestIsRight | MP_Lite/shm.c:993-994 | the comparison modulo ten tells exactly whether the other process is in the same epoch or the next |
| SmpSync.WithinOne | MP_Lite/shm.c:981-983 | no process is more than one epoch ahead of another |
| SmpSync.NobodyLeavesEarly | MP_Lite/shm.c:970-999 | in every run no process returns from a sync before all have entered the same one |
| SmpSync.NoDeadlock | MP_Lite/shm.c:991-996 | if those that are furthest behind are all in the sync, one of them gets further by at most two steps of its own |
| SmpSync.LastReturns | MP_Lite/shm.c:970-999 | a process that all the others have caught up with returns by its own steps alone |
| FileBarrier.StepInv | MP_Lite/ib.c:5051-5095 | a file between two processes is there exactly when the lower has made one more than the higher has removed |
| FileBarrier.NobodyLeavesEarly | MP_Lite/ib.c:5098-5106 | in every run, with the files used again, no process returns from a barrier before all have begun the same one |
| FileBarrier.WaitsFor | MP_Lite/ib.c:5098-5106 | whoever a blocked process waits for is itself blocked, if at all, on one below the first |
| FileBarrier.BlockedExactly | MP_Lite/ib.c:5051-5095 | the step of a process in the barrier changes nothing if it is blocked, and otherwise leaves it fewer steps to go |
| FileBarrier.NoDeadlock | MP_Lite/ib.c:5098-5106 | if those that have passed the fewest barriers have all begun the next, the step of one of them leaves it fewer steps to go |
| Striping.SharesTotal | MP_Lite/via.c:1690-1694 | the shares of the interfaces add up to the whole, for every length and number of interfaces |
| Striping.StripeWhole | MP_Lite/via.c:1698-1731 | the packets put together are the buffer, and none is empty or bigger than a descriptor's buffer: the round robin stops only when all is sent |
| Striping.PostedEnough | MP_Lite/via.c:1767-1777 | the first loop of via_recv posts a descriptor for every packet if there are enough on every interface |
| Striping.ReceivedInOrder | MP_Lite/via.c:1779-1805 | with all descriptors posted the packets come back in the order they were sent |
| Striping.ReceivedOutOfOrder | MP_Lite/via.c:1793-1804 | with several interfaces and a descriptor to post again they do not |
| Striping.RoundTrip | MP_Lite/via.c:1680-1808 | via_recv rebuilds the buffer given to via_send, for every length, packet size and number of interfaces, with enough descriptors or a single interface |
| Striping.RebuiltExactly | MP_Lite/via.c:1680-1808 | and, for a buffer in which nothing occurs twice, only then |
| Striping.RebuiltImage | MP_Lite/via.c:1680-1808 | what a buffer holds has no say in where its elements go |
| Striping.AllRebuiltExactly | MP_Lite/via.c:1680-1808 | all buffers of a length over at least two values are rebuilt if and only if every interface has a descriptor for each of its packets, or there is one interface and it has a descriptor |
| Striping.SplitShares | MP_Lite/via.c:1690-1694 | the loop computes the shares |
| Striping.SendBurst | MP_Lite/via.c:1702-1731 | the inner loop sends at least one packet, in turn, and leaves off where descriptors run out |
| Striping.WaitForSends | MP_Lite/via.c:1733-1742 | the loop gives back exactly the descriptors taken |
| Striping.ViaSend | MP_Lite/via.c:1680-1746 | what goes out over each interface does not depend on how many descriptors there are, and all are given back |
| Striping.PostDescriptors | MP_Lite/via.c:1767-1777 | the loop posts what the function Posted says |
| Striping.ViaRecv | MP_Lite/via.c:1750-1808 | the two loops bring what the function Receive says |

## Left out

- All of `src/` and `dox/`: the benchmark modules, which are plumbing over MPI, verbs, disk and shared memory.
- Sockets, signals, logging, timing, memory allocation and copying, file input and output: what they bring (an adapter's answer, which message arrives next, whether a descriptor is free) is a parameter or any choice of a step.
- Integer overflow, except for the eager counters, the integer sums of `MP_Global` and the bound on `trial`.
- Floating-point sums of `MP_Global`, whose result depends on the order; the operation is any that is commutative and associative on the values in use.
- The single messages between the participants of a collective: MP_Send, MP_ARecv and MP_Wait between two processes are taken to deliver each message once, and MP_Send not to wait for its receiver.
- Striping.RebuiltExactly: the exact condition for a single buffer is stated for buffers in which nothing occurs twice, because a buffer of equal bytes is rebuilt in any order; Striping.AllRebuiltExactly is for all buffers of a length together, and Striping.RoundTrip for each.
- Striping: packets wait for their descriptors; that VIA drops a packet without one is not part of this model. The receive buffer is a sequence that grows, not memory written in place.
- Rendezvous.StepInv: a completed receive is taken to be waited for before its transaction id comes round again; which send answers which RTR is any choice, so that the matching of rendezvous messages is not stated; the memory key in an RTR is not modelled.
- Rendezvous, EagerLink: the adapter loses nothing; over the eager connection it delivers in order, over the rendezvous connection in any order.
- RegionCache.RegisterMemoryRegion: access rights are sets, so that the adapter's own bits are not part of this model, and the system's limit on registrations is a refusal like any other.
- RegionTree.RbTree: the node returned by rb_delete is freed by its caller, which is not modelled; it is no longer part of the tree's memory.
- Fence: TCP mode only; the wait for the process's own message ids and `smp_os_fence` before it are not modelled.
- WindowLock: the flag written into the requester's memory is the entry in `holders`; how the message gets there, and the use of `count` by MP_Win_start and MP_Win_post, are not modelled.
- WindowLock.DoLockInv: fairness for exclusive requests does not hold, see WindowLock.Overtakes, and is not claimed.
- Bakery, SmpSync: `smp_rank` is the identity, memory is sequentially consistent, and tickets do not overflow.
- Except for the collectives, the broadcast included, whose runs are proved to end: that somebody can go on is proved, not that a scheduler lets everybody go on.
- `shfs_send` and `shfs_recv`, the ring of `shfs_sync` calls in `bring_up_qps`, and the bring-up of queue pairs.
- The shared-memory pool and message queues of `shm.c`, TCP header matching, `fifo.c`, window message-id lists, `tree_delete`, and `extras/`.
