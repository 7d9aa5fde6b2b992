# Messaging cells: models and proofs

Messaging cells is a library for message-passing programs on many small cores, with a compiler
for a small language of message handlers (hlang), a generator of logarithmic networks with a
simulator (hgen_net), and a SAT solver in the making (ben-jose-embryo). This project models
the parts of it where most can go wrong and proves what they are for. Every statement below is
one that Dafny's verifier checks, for all inputs, all runs and all sizes unless the line says
otherwise.

| files | what they model |
|---|---|
| Hlang*.dfy | the step linker of the hlang compiler: the passes that turn structured code into `next` labels, the step machine that the emitter prints, and the proof that a handler does what the structured nucleus of its class says |
| Umm*.dfy | the allocator: one array of 8-byte blocks with two interleaved lists, and malloc, free and realloc over it |
| Missives.dfy, Missive*.dfy | how kernels pass groups of missives through slots, acks and signals, with one step for every access to shared memory |
| Binders.dfy | the circular lists that the queues of a kernel are made of |
| StopProtocol.dfy | how the workers of a load tree stop together |
| Rr*.dfy | the ring buffer of checked frames, and the check |
| Pgroup.dfy | the complete binary tree that is grown by pointer climbing |
| Lognet*.dfy | the logarithmic network: wires, slice vectors, routing trees and hops |
| Hnet*.dfy | the simulator of such networks: four-phase links, ring queues, node threads and the test for the end |
| VerilogTree.dfy | the binary counter that prints a balanced tree of conjunctions |

Code that changes fields or arrays is modelled by classes and methods that do the same writes
in the same order. Each method is proved against a function of the old contents, and lemmas
state what that function means. Code that runs on several cores or threads at once is modelled
by a state with one step for every access to shared memory, and the lemmas speak about every
state that any interleaving can reach.

## Findings

- umm_realloc frees the old chunk when it cannot grow it (src/cells/umm_malloc.c:608-612). The
  comment before it (src/cells/umm_malloc.c:605-606) and section 7.22.3.5 of ISO/IEC 9899:2011
  say that it is unchanged. `UmmHeap.Heap.Realloc` follows the code and states exactly when this
  happens; `UmmHeap.LosesChunk` gives a run in every heap.
- umm_blocks is cut to 16 bits: from a size of 524277 on, the chunk is too small for the
  request (`UmmBlocks.BlocksTight`).
- A break, continue or return inside the body of an hcase is never linked and does nothing
  (`HlangJumps.BreakInCaseIsLost`), and so is one in the end part of an hfor
  (`HlangLoops.BreakInEndIsLost`). hcontinue in an hfor goes to the test and skips the end part
  (hlang/hl_src/hlang.cpp:1862, `HlangLoops.ContinueSkipsEnd`). `HlangJumps.QuietRuns` gives a
  condition for all classes under which each of the three makes no difference, and
  `HlangLoops.AsWrittenIffQuiet` the exact one for the hfor of plain statements and jump
  keywords. hswitch takes no break.
- A frame that fills the whole ring buffer is not cleared when the read pointer is not the start
  of the buffer, and its object is delivered again (`RrArray.RingBuffer.Read`, `RrArray.AdvEnds`;
  `RrArray.DeliversTwice` gives a run in every buffer that can hold an object). In the two
  largest buffers the count of the scan for free space wraps around for the largest objects
  (`RrArray.ScanCovers`), and such an object is accepted on top of unread ones
  (`RrArray.WritesOver`).
- The complement of an undefined edge sets the flag on the wrong object, so that a comparison
  with zero comes back (`LognetSlices.ComplNegates`).
- A 2to1 node with queues turns its choice over even when the queue is full, so one input may
  starve (`HnetPorts.QueuedMayStarve`); without queues it cannot (`HnetPorts.ServedInTwo`).
- Nodes look for the flags and the message of a neighbour by its address. With two links between
  the same two nodes they find those of the first for both (`HnetPorts.FlagsAreOwn`), and a
  message that comes there is taken twice. All links of a network transfer exactly once exactly
  if no message can come to the first of two such links (`HnetDoubled.TransfersIffClear`,
  with a concrete network in `HnetDoubled.TwinDoubles`), and the results of `HnetRuns` are about
  these networks; two such links are then never read (`HnetRuns.ParallelNeverRead`).

## Model

| member | source | states |
|---|---|---|
| `HlangTerms.LabelledS` | hlang/hl_src/hlang.cpp:1677-1687 | numbering a block from any label gives every term in it, at any depth, a label of its own, in increasing order, so that labels can serve as cases of one switch |
| `HlangTerms.LabelKeepsS` | hlang/hl_src/hlang.cpp:1677-1687 | numbering changes labels only: the shape of a block and what it calls stay |
| `HlangLinks.CloseKnown` | hlang/hl_src/hlang.cpp:1915-1945 | when the body of a member of an if chain is closed with what follows the block, it goes there exactly if no later term of the block ends the chain |
| `HlangLinks.CloseAppend` | hlang/hl_src/hlang.cpp:1200-1210 | one more term closes the open if chain before it unless it is a helif or helse itself |
| `HlangPasses.NextTCorrect` | hlang/hl_src/hlang.cpp:1844-1898 | set_next links one term to what follows it, and with it every body of a loop or switch below it, at any depth, to where that body has to go |
| `HlangPasses.ChainCorrect` | hlang/hl_src/hlang.cpp:1915-1945 | set_last on the first open member of an if chain closes the bodies of all its members with the same label |
| `HlangPasses.LastSCorrect` | hlang/hl_src/hlang.cpp:1815-1830 | set_last on a block that is linked inside and open at its end links every open end below it to the label given, and nothing else changes |
| `HlangPasses.JumpsSCorrect` | hlang/hl_src/hlang.cpp:1952-2018 | set_jumps gives every break, continue or return that has no target yet its target, stops at inner loops, at cases and at blocks that have been done before, and changes no other link |
| `HlangPasses.JumpsTCorrect` | hlang/hl_src/hlang.cpp:1968-2018 | the same for one term: a loop keeps its own targets, an hcase passes nothing on |
| `HlangBuild.AppendCorrect` | hlang/hl_src/hlang.cpp:1259-1277 | append_term links the last term of a block to the new one and closes the if chain that the new one ends, leaving the longer block open at its end |
| `HlangBuild.BuildSCorrect` | hlang/hl_src/hlang.cpp:1230-1300 | building a block term by term with the comma operator gives the links that the continuations of its terms ask for |
| `HlangBuild.BuildMethodCorrect` | hlang/hl_src/hlang.hh:2443-2482 | after all passes of a method every term leads where its surroundings say, hreturn leads to the return step, and no field outside the labels of the method has changed |
| `HlangChecks.NextTSafe` | hlang/hl_src/hlang.cpp:1832-1898 | set_next finds no plain term that has a next already, at any depth below the term it is called for |
| `HlangChecks.ChainSafe` | hlang/hl_src/hlang.cpp:1915-1932 | where set_last walks an open if chain, the next of each member is set and is the condition that follows it in the block |
| `HlangChecks.MethodLinksSafely` | hlang/hl_src/hlang.hh:2443-2482 | whatever the operators can build is linked without one of the checks of the linker failing: no plain term is linked twice, an if chain is walked over conditions only, no hcase gets two switch expressions |
| `HlangLinker.Linker.SetJumpsS` | hlang/hl_src/hlang.cpp:1952-1966 | the pass that writes the fields computes JumpsS, whose effect JumpsSCorrect states |
| `HlangLinker.Linker.SetNext` | hlang/hl_src/hlang.cpp:1844-1898 | the pass that writes the fields computes NextT, whose effect NextTCorrect states, and its check, an assert here, holds |
| `HlangLinker.Linker.SetLastS` | hlang/hl_src/hlang.cpp:1815-1830 | the pass that writes the fields computes LastS, whose effect LastSCorrect states |
| `HlangLinker.Linker.SetLastT` | hlang/hl_src/hlang.cpp:1915-1945 | the pass over an if chain computes LastT, whose effect ChainCorrect states, and its check, an assert here, holds |
| `HlangLinker.Linker.BuildSteps` | hlang/hl_src/hlang.cpp:1230-1300 | to_steps and append_term on the fields compute BuildS, whose effect BuildSCorrect states |
| `HlangLinker.Linker.DefineMethod` | hlang/hl_src/hlang.hh:2457-2466 | the definition of a method leaves every term of the body linked to where its surroundings say, with the return step at the end, touches no other label, and fails none of its checks |
| `HlangDepth.CallsAreCalls` | hlang/hl_src/hlang.hh:2467-2470 | the list of calls of a body names exactly the methods of which a call stands in the body, at any depth |
| `HlangDepth.RefusedIffRecursive` | hlang/hl_src/hlang.cpp:1415-1447 | a class is refused exactly when its methods call each other in a circle: it is accepted if and only if the methods can be ranked so that calls go down (a method that calls itself directly never gets as far as calc_depth in the source, see below) |
| `HlangDepth.MethodDepth` | hlang/hl_src/hlang.cpp:1435-1447 | once a class has a depth, every method has one, and none exceeds it |
| `HlangDepth.CalleeDepth` | hlang/hl_src/hlang.cpp:1415-1433 | a method is deeper than every method it calls, so the call stack of the handler cannot overflow |
| `HlangDepth.DepthIsLongestChain` | hlang/hl_src/hlang.cpp:1415-1447 | the depth of a class, the size of the call stack of its handler, is the number of methods in its longest chain of calls |
| `HlangDepth.MethodTable.CalcMethodDepth` | hlang/hl_src/hlang.cpp:1415-1433 | the recursion that raises and lowers the flag of the methods under way computes CalcDepth, and leaves the flags as they were |
| `HlangDepth.MethodTable.InitClassDepth` | hlang/hl_src/hlang.cpp:1435-1447 | the loop over the methods computes the depth of the class, or refuses it |
| `HlangClass.DefineNext` | hlang/hl_src/hlang.cpp:552-569 | the next method gets labels behind those of the methods before it and is linked without disturbing them |
| `HlangClass.InitMethods` | hlang/hl_src/hlang.cpp:524-570 | after init_methods every method of a class is numbered apart from the others and linked |
| `HlangClass.ClassCompiled` | hlang/hl_src/hlang.cpp:3037-3069 | the class that init_methods made of some bodies meets all that the simulation needs of its generated handler if and only if the methods, as they are written, can be ranked so that every call in a body, at any depth, goes down |
| `HlangSimulation.Sim` | hlang/hl_src/hlang.cpp:3138-3237 | from any term of any block, with any call stack that leaves room, the step machine does what is left of the structured block, whatever the meaning of tests and actions |
| `HlangSimulation.SimLoop` | hlang/hl_src/hlang.cpp:3179-3237 | an hwhile or hfor on the step machine tests, runs its body and, in an hfor, its end part as the structured loop does, with break and continue going where the passes sent them |
| `HlangSimulation.SimCall` | hlang/hl_src/hlang.cpp:3273-3353 | a method call on the step machine pushes the step behind it, runs the steps of the called method and comes back |
| `HlangSimulation.CallPushes` | hlang/hl_src/hlang.cpp:3273-3288 | one step of a call: the step behind it is on top of the stack, and the first step of the method is next |
| `HlangSimulation.RetPops` | hlang/hl_src/hlang.cpp:3262-3271 | one step of a return: the step on top of the stack is next, and the stack is what it was before the call |
| `HlangClass.HandlerAgrees` | hlang/hl_src/hlang.cpp:3037-3069 | with any fuel for the structured nucleus, the handler reaches the same final state one step later, or is still at work after as many steps |
| `HlangClass.HandlerDoesWhatTheNucleusSays` | hlang/hl_src/hlang.cpp:3138-3237 | for every class without recursion, every meaning of tests and actions and every start: the handler ends with a state if and only if the structured nucleus does, and never runs into a default case |
| `HlangClass.HandlerStopsOnlyWithTheNucleus` | hlang/hl_src/hlang.cpp:3290-3353 | the handler never reaches the default case of the steps or of the call stack, and if it returns, the structured nucleus ends with the same state |
| `HlangJumps.QuietRuns` | hlang/hl_src/hlang.cpp:1851-2000 | for any choice of the three differences (jumps out of an hcase, jumps out of the end part of an hfor, hcontinue going to that end part), running as linked and as written is the same where every jump keyword inside an hcase, or inside the end part of an hfor, stands in a loop of that part and is no hreturn, and no hcontinue belongs to an hfor |
| `HlangJumps.QuietOut` | hlang/hl_src/hlang.cpp:1851-2000 | a block of that kind never ends with a break or continue that its surroundings do not take, nor with an hcontinue of the hfor around it |
| `HlangJumps.BreakInCaseIsLost` | hlang/hl_src/hlang.cpp:1992-1995 | a break inside an hcase inside a loop is lost: as written the program tests once, as linked four times |
| `HlangLoops.StraightRuns` | hlang/hl_src/hlang.cpp:1952-2018 | a block of plain statements and jump keywords ends with the first jump that its surroundings take, with the state its statements have made |
| `HlangLoops.EndsByRounds` | hlang/hl_src/hlang.cpp:1851-1868 | an hfor over such blocks ends, with some way and state, exactly if some number of rounds does |
| `HlangLoops.QuietLoopRuns` | hlang/hl_src/hlang.cpp:1851-1868 | an hfor is quiet if its body ends with a break or return; or has no jumps, and the end part has none either, or an hcontinue with no statement behind it; or ends with hcontinue, and the end part begins with one. A quiet hfor does what is written, for every meaning of tests and statements |
| `HlangLoops.LoudLoopDiffers` | hlang/hl_src/hlang.cpp:1851-1868 | every other hfor over such blocks ends differently from what is written, if statements and tests just count |
| `HlangLoops.AsWrittenIffQuiet` | hlang/hl_src/hlang.cpp:1851-1868 | so an hfor of plain statements and jump keywords does what is written, for all meanings on counters, if and only if it is quiet |
| `HlangLoops.BreakInEndIsLost` | hlang/hl_src/hlang.cpp:1851-1868 | a break in the end part of an hfor is lost: with two tests that succeed the statement runs twice instead of once |
| `HlangLoops.ContinueSkipsEnd` | hlang/hl_src/hlang.cpp:1862 | hcontinue in an hfor skips the end part: with two tests that succeed its statement never runs, where as written it runs twice |
| `UmmBlocks.BlocksTight` | src/cells/umm_malloc.c:187-206 | umm_blocks is the smallest number of blocks that holds a request; for sizes above 524276 the 16-bit count wraps and is too small, and for no others; it is zero exactly for 524277 to 524284 and again every 524288 |
| `UmmShape.FirstInv` | src/cells/umm_malloc.c:437-445 | the first allocation finds an untouched heap and sets up both lists |
| `UmmShape.DisconnectInv` | src/cells/umm_malloc.c:222-231 | umm_disconnect_from_free_list takes exactly one chunk off the free list and keeps the rest of the heap and of the list |
| `UmmShape.SplitInv` | src/cells/umm_malloc.c:210-218 | umm_make_new_block cuts a chunk in two that tile it, without touching the payload of any other chunk |
| `UmmShape.JoinInv` | src/cells/umm_malloc.c:235-265 | a chunk swallows the unmarked chunk behind it; the chain still tiles the heap |
| `UmmShape.PushInv` | src/cells/umm_malloc.c:310-320 | a chunk without free neighbours goes to the head of the free list, and no two adjacent chunks are free |
| `UmmShape.TakeInv` | src/cells/umm_malloc.c:417-459 | the wilderness gives a chunk of the size asked for, starts behind it and stays last on the free list |
| `UmmFree.UpInv` | src/cells/umm_malloc.c:235-254 | merging with the free chunk behind keeps the invariant and the payloads of all users, and leaves no free chunk behind |
| `UmmFree.DownInv` | src/cells/umm_malloc.c:303-309 | merging with the free chunk before keeps the invariant and gives back the merged chunk only |
| `UmmFree.MergeDown` | src/cells/umm_malloc.c:551-566 | in umm_realloc the free chunk before leaves the free list and swallows the chunk; the words of the chunk are still in place |
| `UmmFree.MoveInv` | src/cells/umm_malloc.c:551-576 | moving the words down over the header that vanished, with overlap, gives the new chunk the first words of the old one and changes no other user |
| `UmmFree.UserWrites` | src/cells/umm_malloc.c:190-205 | a user that writes only inside its own chunk damages neither list nor any other chunk, although free chunks keep their list in the same words |
| `UmmFree.LiveDisjoint` | src/cells/umm_malloc.c:331-460 | live chunks lie inside the heap, before the wilderness, and do not overlap, headers included |
| `UmmFree.UsersMinus` | src/cells/umm_malloc.c:269-321 | giving a chunk back takes it, and nothing else, from the users |
| `UmmFree.AllGivenBack` | src/cells/umm_malloc.c:269-321 | when everything has been given back there is at most one free chunk, and it reaches from the first block to the wilderness |
| `UmmHeap.Heap.constructor` | src/cells/umm_malloc.c:624-628 | a heap of zeros is a valid heap without users |
| `UmmHeap.Heap.MakeNewBlock` | src/cells/umm_malloc.c:210-218 | the writes to the array are those of MakeNew, whose effect SplitInv states |
| `UmmHeap.Heap.DisconnectFromFreeList` | src/cells/umm_malloc.c:222-231 | the writes to the array are those of Disconnect, whose effect DisconnectInv states |
| `UmmHeap.Heap.AssimilateUp` | src/cells/umm_malloc.c:235-254 | afterwards the chunk behind is not free, all users keep their words, and the chunk has grown by its free neighbour, if any |
| `UmmHeap.Heap.AssimilateDown` | src/cells/umm_malloc.c:258-265 | the chunk before now reaches to the end of the chunk given |
| `UmmHeap.Heap.Free` | src/cells/umm_malloc.c:269-321 | umm_free removes the chunk from the users and changes no word of any other; freeing null does nothing; the heap invariant holds again |
| `UmmHeap.Heap.FreeTail` | src/cells/umm_malloc.c:301-321 | the end of umm_free and of a shrinking umm_realloc: the chunk joins its free neighbour or the free list, and only it stops being live |
| `UmmHeap.Heap.Scan` | src/cells/umm_malloc.c:366-393 | the scan of the free list ends at a smallest free chunk that serves the request, or at the wilderness exactly if no chunk does |
| `UmmHeap.Heap.Malloc` | src/cells/umm_malloc.c:331-460 | null exactly if nothing was asked for or neither a free chunk nor the wilderness can serve the 16-bit block count; otherwise a new live chunk of that count, from a smallest sufficient free chunk if there is one; no other user is changed |
| `UmmHeap.Heap.TakeFree` | src/cells/umm_malloc.c:395-416 | a free chunk is taken whole, or its rear part is cut off for the new user |
| `UmmHeap.Heap.TakeEnd` | src/cells/umm_malloc.c:417-460 | the new chunk starts where the wilderness did, and on the first call behind block 0 |
| `UmmHeap.Heap.CutChunk` | src/cells/umm_malloc.c:587-596 | the rear part of a chunk that is too large becomes a live chunk of its own, to be freed |
| `UmmHeap.Heap.MoveWords` | src/cells/umm_malloc.c:568-571 | words move downwards over an overlap, or between separate chunks, without being overwritten before they are read |
| `UmmHeap.Heap.MoveDown` | src/cells/umm_malloc.c:551-576 | umm_realloc into the free chunk before: the first words of the user are at the new place, and no other user has changed |
| `UmmHeap.Heap.Absorb` | src/cells/umm_malloc.c:538-576 | the chunk takes its free neighbours; it is large enough afterwards exactly if it and they were before, and otherwise the rest of the heap can serve the request exactly if it could before |
| `UmmHeap.MergedEnough` | src/cells/umm_malloc.c:538-552 | taking the free chunk behind does not change the answer to the question whether the request fits next to the chunk or elsewhere |
| `UmmHeap.Heap.Fit` | src/cells/umm_malloc.c:578-613 | the end of umm_realloc: the chunk is right, is cut, or its words move to a new one; null exactly if none of these can be done |
| `UmmHeap.Heap.CopyWords` | src/cells/umm_malloc.c:605-610 | a copy to another chunk gives it the first words of the old one and changes no other user |
| `UmmHeap.Heap.Realloc` | src/cells/umm_malloc.c:464-620 | the new chunk has the 16-bit block count of the size and the first words, up to the smaller of both sizes, through merging up and down, shrinking and copying; no other user is changed; null for a positive size exactly if neither the merged neighbours nor the rest of the heap can serve it, and then the old chunk is gone |
| `UmmHeap.TooMuch` | src/cells/umm_malloc.c:464-620 | no heap serves as many blocks as it has, next to a chunk or elsewhere |
| `UmmHeap.LosesChunk` | src/cells/umm_malloc.c:604-613 | in every heap of three blocks or more there is a run, malloc and then realloc beyond the size of the heap, after which the answer is null and the chunk is gone |
| `MissiveSteps.SendOk` | src/cells/cell.hh:823-836 | appending a missive to local_work keeps the invariant: for every destination, what was sent is what was handled and what is under way, in order |
| `MissiveSteps.IdleOk` | src/cells/cell.cpp:632-658 | the test of the signal at the start of a pass keeps the invariant |
| `MissiveSteps.ClearOk` | src/cells/cell.cpp:632-658 | clearing the signal keeps the invariant: every slot that was filled so far is still to be scanned, although the receiver no longer has the signal |
| `MissiveSteps.ScanOk` | src/cells/cell.cpp:509-534 | looking at one slot keeps the invariant: an empty slot is passed, and a filled one is remembered |
| `MissiveSteps.FoundOk` | src/cells/cell.cpp:509-534 | the group that was seen is still in the slot when the slot is cleared, and taking it keeps the order of the missives under way and strands no other slot |
| `MissiveSteps.AckBackOk` | src/cells/cell.cpp:536-565 | the ack in the memory of the sender is busy when it is set ready, and the invariant holds again: nobody else is about to write the slot |
| `MissiveHandle.HandleOk` | src/cells/cell.cpp:337-366 | calling the handler of one missive, or marking the group handled at its end, keeps the invariant: what is handled is always the next that its sender sent |
| `MissiveSend.LocalOk` | src/cells/cell.cpp:724-739 | taking one missive from local_work, handling it or putting it into its group in out_work, keeps the order for every destination |
| `MissiveSend.JoinLogHere` | src/cells/cell.cpp:291-308 | a missive joins the one group for its destination, behind those sent before |
| `MissiveSend.NewLog` | src/cells/cell.cpp:320-327 | without such a group a new one is made for the missive, and the order for every destination is kept |
| `MissiveSend.OutOk` | src/cells/cell.cpp:749-787 | looking at the ack of one group keeps the invariant; a busy ack skips the group |
| `MissiveSend.ClaimOk` | src/cells/cell.cpp:749-787 | the ack is still not busy when it is set busy, and from then on nobody else is about to fill the slot |
| `MissiveSend.PostOk` | src/cells/cell.cpp:789-796 | writing the slot of the receiver finds it empty and keeps the order |
| `MissiveSend.SignalOk` | src/cells/cell.cpp:798-807 | setting the signal and moving the group to sent_work keeps the invariant |
| `MissiveSend.SentOk` | src/cells/cell.cpp:813-826 | looking at one group of sent_work keeps the invariant, which says that only handled groups are released |
| `MissiveRuns.RunInv` | src/cells/cell.cpp:620-835 | in every interleaving of any number of workers, with anything sent at any time, the whole invariant holds in every state |
| `MissiveRuns.HandledInOrder` | src/cells/cell.cpp:620-835 | what a worker has handled from another is a prefix of what that one has sent it: every missive at most once, in order, with no gaps (that it is handled in the end is MissiveEnds.EverythingArrives) |
| `MissiveRuns.ReleasedAfterHandled` | src/cells/cell.cpp:813-826 | a released group has been handled, and no slot and no in_work refers to it any more |
| `MissiveRuns.SlotsAndAcks` | src/cells/cell.cpp:509-570 | a slot is empty whenever the ack of its sender is not busy or the sender is about to write; a filled slot is never stranded: the signal is set, about to be set, or the scan has not passed it |
| `MissiveRuns.QuietMeansHandled` | src/cells/cell.cpp:620-835 | when all workers are idle with empty queues and no signal, everything that was sent has been handled |
| `MissiveRuns.NeverStuck` | src/cells/cell.cpp:620-835 | the next step of every worker is possible in every reachable state: no index or pointer it uses is missing |
| `MissiveRuns.ChecksHold` | src/cells/cell.cpp:509-570 | the checks of the source hold: the ack that is set ready was busy, the slot that is written was empty, a group is marked handled once |
| `MissiveEnds.TickLess` | src/cells/cell.cpp:620-835 | within a pass every step of a worker does some of the work that is left, by a measure of all queues, slots and signals, or brings the worker nearer to the end of its pass |
| `MissiveEnds.DoesWork` | src/cells/cell.cpp:620-835 | a worker that has something to do (a signal, a group in in_work, a missive in local_work, a group whose ack is not busy, a group that was handled) does some of it in its pass |
| `MissiveEnds.NothingToDo` | src/cells/cell.cpp:620-835 | when all workers are between passes and none has anything to do, everything has been handled and released: no ack is left busy and no group is left over |
| `MissiveEnds.EverythingArrives` | src/cells/cell.cpp:620-835 | from every reachable state the workers can go on, with nothing new being sent, to a state in which all that was sent between any two workers has been handled, in order, and every group has been released |
| `MissiveEnds.SentIsHandled` | src/cells/cell.hh:823-836 | a missive that is sent in any reachable state is the next that its receiver handles from its sender after all sent before, in some continuation |
| `MissiveEnds.NoGroupIsForgotten` | src/cells/cell.cpp:620-835 | in every reachable state a group that has not been released is where its stage says: in out_work, in its slot or in in_work, and in sent_work once it has left out_work |
| `MissiveEnds.NoAckIsForgotten` | src/cells/cell.cpp:536-565 | in every reachable state an ack is busy exactly if its slot is filled, or its sender is about to write it, or its receiver is about to set the ack ready |
| `Binders.Turned` | src/cells/binder.hh:69-79 | a ring may be read from any of its members on |
| `Binders.Binder.constructor` | src/cells/binder.hh:69-73 | a new binder refers to itself |
| `Binders.Binder.IsAlone` | src/cells/binder.hh:76-79 | true exactly for the grip of an empty queue |
| `Binders.Binder.IsSingle` | src/cells/binder.hh:149-151 | true exactly when the queue has one member |
| `Binders.Binder.LetGo` | src/cells/binder.hh:82-88 | the binder is alone, and the others form the ring without it, in the same order |
| `Binders.Binder.BindToMyRight` | src/cells/binder.hh:119-131 | on a grip: the binder is the new first member, the others follow in order |
| `Binders.Binder.BindToMyLeft` | src/cells/binder.hh:134-146 | on a grip: the binder is the new last member, so a queue filled this way is first in, first out |
| `Binders.Binder.MoveAllToMyRight` | src/cells/binder.hh:159-185 | all members of another queue come before the members of this one, both in order, and the other queue is empty |
| `Binders.Binder.MoveAllToMyLeft` | src/cells/binder.hh:188-214 | all members of another queue come behind the members of this one, both in order, and the other queue is empty |
| `Binders.Binder.LetAllGo` | src/cells/binder.hh:217-221 | the loop ends, and every binder of the ring is alone |
| `StopProtocol.HandleInv` | src/cells/cell.cpp:1133-1159 | handle_stop keeps the invariant: a worker reports once, and only when all its children have been counted |
| `StopProtocol.UpInv` | src/cells/cell.cpp:1165-1186 | counting the message of a child keeps the count equal to the number of children that reported |
| `StopProtocol.DownInv` | src/cells/cell.cpp:1098-1131 | passing the order to exit on keeps it at one for every worker, from a parent that exits itself |
| `StopProtocol.RunInv` | src/cells/cell.cpp:1077-1195 | in every run over every load tree the invariant of the stop protocol holds |
| `StopProtocol.NobodyExitsEarly` | src/cells/cell.cpp:1077-1195 | no worker sets its idle-exit flag before every worker of the tree has been asked to stop |
| `StopProtocol.ReportsOnceAfterChildren` | src/cells/cell.cpp:1133-1159 | a worker reports to its parent at most once, and only after all its children have; the parent never counts more than its children |
| `StopProtocol.SettledMeansDone` | src/cells/cell.cpp:1133-1195 | if everybody has been asked to stop and nothing is under way or due, everybody exits |
| `StopProtocol.SettledMeansNoStep` | src/cells/cell.cpp:1077-1195 | in every reachable state, nothing is under way or due exactly if no pass and no message would change anything |
| `StopProtocol.EveryStepCounts` | src/cells/cell.cpp:1133-1186 | every step that changes something brings some worker further for good, so there are at most three for every worker |
| `StopProtocol.EverybodyExits` | src/cells/cell.cpp:1077-1195 | from every reachable state in which all have been asked to stop, the workers get to one in which everybody has reported and exits |
| `StopProtocol.EveryWayEnds` | src/cells/cell.cpp:1077-1195 | and so they do however they go on: after at most three steps for every worker no step is left, and then everybody exits |
| `StopProtocol.WholeRun` | src/cells/cell.cpp:1077-1195 | every load tree has a run, from the start on, in which all are asked and all exit |
| `RrCrc.Crc16` | src/cells/rr_array.c:59-87 | the loops over bytes and bits compute Crc, and the bytes of the result are swapped |
| `RrCrc.Crc16Byte` | src/cells/rr_array.c:70-79 | the inner loop computes ByteStep |
| `RrCrc.RegistersApart` | src/cells/rr_array.c:70-79 | a byte step is one to one in the register: no difference is ever lost |
| `RrCrc.BytesApart` | src/cells/rr_array.c:70-79 | a byte step is one to one in the byte |
| `RrCrc.OneByteOffIsSeen` | src/cells/rr_array.c:59-87 | data of any length that differ in exactly one byte have different checks |
| `RrResidue.Residue` | src/cells/rr_array.c:59-87 | data followed by their check, high byte first, leave the register at 0xF0B8, as appendix C.2 of RFC 1662 asks of a good frame: start value, polynomial, complement and the order of the bytes are right |
| `RrResidue.GoodFrame` | src/cells/rr_array.c:59-87 | and no other two bytes behind the data do that |
| `RrArray.DecodeFrame` | src/cells/rr_array.c:165-197 | a frame is read back as the object that was written, whatever its bytes, unless it exceeds the size given |
| `RrArray.DamagedFrameIsRefused` | src/cells/rr_array.c:192-197 | a frame of which exactly one byte of the object has changed is refused |
| `RrArray.ScanCovers` | src/cells/rr_array.c:230-241 | the 16-bit scan counter covers every frame that is let through exactly for capacities up to 0xFFFD |
| `RrArray.ScanFindsRoom` | src/cells/rr_array.c:230-247 | if the scan finds zeros, there is room for the frame: the two bytes more that it looks at make sure of it, because a length is never zero |
| `RrArray.RoomIsFound` | src/cells/rr_array.c:230-247 | conversely an empty buffer takes every object, and otherwise room for the frame and two bytes is enough |
| `RrArray.HoldsWritten` | src/cells/rr_array.c:248-260 | a frame written in place of zeros is the newest object |
| `RrArray.HoldsRead` | src/cells/rr_array.c:198-206 | clearing the first frame leaves the other objects, in order |
| `RrArray.AdvEnds` | src/cells/rr_array.c:198-206 | the loop that clears a frame stops at once exactly if the frame is the whole ring and the read pointer is not the start of the buffer |
| `RrRing.RingShift` | src/cells/rr_array.c:126-163 | the ring read from a pointer further on, across the end of the buffer |
| `RrArray.RingBuffer.constructor` | src/cells/rr_array.c:106-124 | a buffer of zeros without objects |
| `RrArray.RingBuffer.GetV16` | src/cells/rr_array.c:126-144 | two bytes are read as a number, across the end of the buffer if need be |
| `RrArray.RingBuffer.PutBytes` | src/cells/rr_array.c:251-257 | bytes go to consecutive places of the ring, and no other place changes |
| `RrArray.RingBuffer.Fetch` | src/cells/rr_array.c:165-197 | the reader up to the comparison of the checks decodes the ring from the read pointer on, with all its error codes |
| `RrArray.RingBuffer.Clear` | src/cells/rr_array.c:198-206 | the frame is cleared and its object leaves the queue, unless the frame fills the ring and the read pointer is not the start of the buffer |
| `RrArray.RingBuffer.Read` | src/cells/rr_array.c:165-209 | the oldest object comes back and leaves the queue; errors leave the objects alone; an object whose frame fills the buffer stays, and comes back again, unless the read pointer is the start of the buffer |
| `RrArray.RingBuffer.ScanFree` | src/cells/rr_array.c:230-241 | the scan tells whether the bytes behind the unread frames, as many as its 16-bit count says, are zero |
| `RrArray.RingBuffer.Put` | src/cells/rr_array.c:248-260 | the object is the newest of the queue, and no unread frame is overwritten exactly if there is room; otherwise the frame lies over them |
| `RrArray.RingBuffer.Write` | src/cells/rr_array.c:211-262 | an object is refused with its error code and the count of errors, or it is the newest of the queue, exactly if the scan finds zeros; afterwards all unread objects are intact exactly if there was room, and always for objects below 0xFFFA bytes; payloads may contain any bytes |
| `RrArray.WritesOver` | src/cells/rr_array.c:230-260 | each of the two largest buffers has a run in which an object of 0xFFFA bytes is accepted on top of an unread one, and the next read finds neither |
| `RrArray.RingBuffer.PutFrame` | src/cells/rr_array.c:248-260 | length, object and check go to consecutive places of the ring, and no other place changes |
| `RrArray.LeavesStart` | src/cells/rr_array.c:165-262 | in every buffer that can hold an object, one write and one read take the read pointer away from the start |
| `RrArray.DeliversAgain` | src/cells/rr_array.c:198-206 | after that an object whose frame fills the buffer is delivered by one read and delivered again by the next |
| `RrArray.DeliversTwice` | src/cells/rr_array.c:198-206 | so every buffer of five bytes or more has a run, from its initialisation on, in which one object is delivered twice |
| `Pgroup.NextOnLevel` | ben-jose-embryo/bj_workeru/pgroup.cpp:65-88 | level order: the leftmost item under the right neighbour follows the rightmost item under an item |
| `Pgroup.Group.Climb` | ben-jose-embryo/bj_workeru/pgroup.cpp:69-71 | the climb from the last item ends at the root or at a left child, below which the last item is rightmost |
| `Pgroup.Group.Descend` | ben-jose-embryo/bj_workeru/pgroup.cpp:82-84 | going down to the left ends at the item whose left child is the next in level order |
| `Pgroup.Group.ParentOfNext` | ben-jose-embryo/bj_workeru/pgroup.cpp:65-88 | the parent of the next item is item (n-1)/2, found by following pointers, at most two for every level of the tree |
| `Pgroup.Group.AddItem` | ben-jose-embryo/bj_workeru/pgroup.cpp:90-118 | the new item is the last of the complete binary tree in level order: item k hangs below item (k-1)/2, left before right, with exact parent pointers |
| `Pgroup.CreateGroup` | ben-jose-embryo/bj_workeru/pgroup.cpp:120-133 | inserting n items gives the complete binary tree of n items |
| `LognetLinks.CalcNumIo` | hlang/hgen_net/hgen_net.cpp:1035-1065 | the loop computes NumIn and NumOut, whose meaning LevelsOf states |
| `LognetLinks.LevelsOf` | hlang/hgen_net/hgen_net.cpp:1035-1065 | a box has a wire of a level to the right exactly if it is a multiple of that power of the base and the next multiple is in the network, and one to the left exactly if it is a multiple and not the first box |
| `LognetLinks.WiresChange` | hlang/hgen_net/hgen_net.cpp:1270-1291 | from one side of a box to the other either all wires end, or as many end as start and the others pass, so the counts of neighbours always match |
| `LognetLinks.FirstWires` | hlang/hgen_net/hgen_net.cpp:1259-1277 | at the first box wires only start |
| `LognetLinks.LastWires` | hlang/hgen_net/hgen_net.cpp:1315-1317 | no wire is left open behind the last box |
| `LognetLinks.TargetBox.ResizeWithDirects` | hlang/hgen_net/hgen_net.cpp:1336-1350 | pass-through happens only with as many inputs as outputs on both sides |
| `LognetLinks.InitLognetBox` | hlang/hgen_net/hgen_net.cpp:1241-1334 | for every base above one and every length above one all checks of the loop hold, and the wires between two neighbours are those of the levels that cross there |
| `LognetLinks.WireLeadsToNextMultiple` | hlang/hgen_net/hgen_net.cpp:1275-1291 | following the wire of a level to the right through all boxes that pass it on leads to the next multiple of base^level |
| `LognetLinks.WireLeadsToLastMultiple` | hlang/hgen_net/hgen_net.cpp:1275-1291 | and to the left to the multiple before |
| `LognetSlices.ComplNegates` | hlang/hgen_net/hgen_net.cpp:1791-1808 | the complement of an edge is its negation for all addresses exactly if the edge is defined; for an undefined one the flag is set on the wrong edge |
| `LognetSlices.SliceMeans` | hlang/hgen_net/simu_hnet.cpp:991-1006 | an address satisfies the edges from its slice on and no earlier one |
| `LognetSlices.Partition` | hlang/hgen_net/hgen_net.cpp:1860-1882 | every address is in exactly one interval of a well-made slice vector |
| `LognetSlices.TopPartition` | hlang/hgen_net/hgen_net.cpp:1827-1858 | where there is no vector, the interval of a target holds its own address only |
| `LognetSlices.InitRelPos` | hlang/hgen_net/hgen_net.cpp:1688-1709 | the loop computes RelPos, whose order RelPosOrdered states |
| `LognetSlices.RelPosOrdered` | hlang/hgen_net/hgen_net.cpp:1688-1709 | the relative positions of slices grow to one side |
| `LognetSlices.InitSliceVecWith` | hlang/hgen_net/hgen_net.cpp:1898-1933 | the loop gives each output the edge of its relative position |
| `LognetSlices.TopDivides` | hlang/hgen_net/hgen_net.cpp:1898-1933 | a vector made from ordered positions divides the addresses by their position |
| `LognetSlices.LiesOnce` | hlang/hgen_net/hgen_net.cpp:1898-1933 | with ordered positions no address is counted for two outputs |
| `LognetSlices.InitSubSlicesWith` | hlang/hgen_net/hgen_net.cpp:1935-1986 | the loop gives each output the edge, complemented or not, of a slice of the vector given |
| `LognetSlices.SubDivides` | hlang/hgen_net/hgen_net.cpp:1935-1986 | the new vector, left or right, divides the slices of the old one by their number: each new slice is a run of old ones |
| `LognetSlices.DividesSlices` | hlang/hgen_net/hgen_net.cpp:1988-2001 | such a vector is well made, so its intervals partition all addresses again |
| `LognetHops.UpRoute` | hlang/hgen_net/hgen_net.cpp:1378-1630 | a box sends a message up by the longest wire that does not pass its target, and keeps it exactly if it is the target |
| `LognetHops.DownRoute` | hlang/hgen_net/hgen_net.cpp:1378-1630 | and the same on the way down |
| `LognetHops.Descending` | hlang/hgen_net/simu_hnet.cpp:1008-1062 | once the distance is below the power of two that divides the address, every hop takes the highest bit of the distance |
| `LognetHops.Ascending` | hlang/hgen_net/simu_hnet.cpp:1008-1062 | before that every hop leads to a multiple of a higher power |
| `LognetHops.EveryMessageArrives` | hlang/hgen_net/simu_hnet.cpp:1008-1062 | in a base-two network of any length a message from any target reaches any other, stays between them on its way, and takes at most 2*(floor(log2(len-1))+1) hops |
| `LognetTree.BuildTree` | hlang/hgen_net/hgen_net.cpp:1711-1789 | the breadth-first loop ends with the outputs standing from left to right, none twice, each behind floor(log2(n)) nodes or one more, and one more only if n is no power of two |
| `LognetTree.SplitDepths` | hlang/hgen_net/hgen_net.cpp:1711-1789 | extending an output replaces its depth by two that are one larger and leaves the depths of the other outputs |
| `LognetTree.FilledBalanced` | hlang/hgen_net/hgen_net.cpp:1711-1789 | a tree whose upper levels are full has all its n outputs at the depth floor(log2(n)), or one more if n is no power of two |
| `LognetTree.EdgedMeans` | hlang/hgen_net/hgen_net.cpp:1657-1686 | the edge that a node gets is that of the rightmost output below its first branch |
| `LognetTree.TreeRoutesByInterval` | hlang/hgen_net/hgen_net.cpp:2016-2070 | any address leaves the tree at output i exactly if it lies in interval i of the slice vector |
| `HnetQueue.MsgQueue.constructor` | hlang/hgen_net/hgen_net.h:739-771 | a ring of free slots is an empty queue |
| `HnetQueue.MsgQueue.RunHead` | hlang/hgen_net/simu_hnet.cpp:1105-1117 | the message is the newest of the queue exactly if there was room, and only then it is acknowledged |
| `HnetQueue.MsgQueue.RunTail` | hlang/hgen_net/simu_hnet.cpp:1119-1134 | the oldest message goes out exactly if the link is free and the queue is not empty |
| `HnetQueue.MsgQueue.FullWhenBusy` | hlang/hgen_net/hgen_net.h:752-766 | the slot at the head is busy exactly when the ring is full |
| `HnetQueue.MsgQueue.EmptyWhenFree` | hlang/hgen_net/hgen_net.h:752-766 | the slot at the tail is free exactly when the ring is empty |
| `HnetSteps.NodeNextInv` | hlang/hgen_net/simu_hnet.cpp:104-262 | every step of every kind of node, with and without queues, of threads that see the flags of their own links, keeps the four phases of all links and the logs of all nodes |
| `HnetSteps.CopyNode` | hlang/hgen_net/simu_hnet.cpp:161-184 | after a copy from register to register, what the node has read from each side and what it has passed on to each side are still what it logged, each message once |
| `HnetSteps.StoreNode` | hlang/hgen_net/simu_hnet.cpp:1105-1117 | after a message went to a queue, what is in the queue and what has left it are still what was logged, in order |
| `HnetSight.NoParallelIsClear` | hlang/hgen_net/hgen_net.h:917-950 | a network without two links between the same nodes meets the condition of the results on runs |
| `HnetSight.SeesOwn` | hlang/hgen_net/hgen_net.h:917-950 | as long as nothing comes to the first of two links between the same nodes, a writer sees its own link, and a reader too wherever a request is up |
| `HnetSight.SameStep` | hlang/hgen_net/hgen_net.h:917-950 | so every step of threads that look for flags and messages by the address of a node is one of threads that see their own links |
| `HnetSight.StaysTame` | hlang/hgen_net/hgen_net.h:917-950 | every such step keeps that: what is on a link can come there from a source by the routing of the nodes, and nobody is busy reading one of two parallel links |
| `HnetTotals.NextConserved` | hlang/hgen_net/simu_hnet.cpp:147-493 | every step of threads that see their own links keeps messages issued equal to messages delivered and messages held, as multisets |
| `HnetRuns.RunInv` | hlang/hgen_net/simu_hnet.cpp:103-493 | in every network in which no message comes to the first of two links between the same nodes, and in every interleaving of its threads, which find flags and messages by the address of the neighbour, the invariants of links, nodes and of the waiting thread hold |
| `HnetRuns.LinkTransfers` | hlang/hgen_net/hgen_net.h:917-937 | in every network in which no message comes to the first of two links between the same nodes: a link transfers every message exactly once and in order; its register is written only when what was in it has been read, and read only when it holds the newest message |
| `HnetRuns.SplitSends` | hlang/hgen_net/simu_hnet.cpp:147-196 | under the same condition a 1to2 node passes on, in order, to its first output what is in its interval and to the second what is not |
| `HnetRuns.JoinSends` | hlang/hgen_net/simu_hnet.cpp:214-279 | under the same condition what a 2to1 node passes on is a merge of what it took from both sides, each side in order |
| `HnetRuns.NothingIsLost` | hlang/hgen_net/simu_hnet.cpp:147-493 | under the same condition messages sent are messages received plus messages under way, and no queue exceeds its size |
| `HnetRuns.CountsAgreeAtRest` | hlang/hgen_net/simu_hnet.cpp:334-384 | under the same condition, once all sources have sent all, received equals sent exactly when no message is under way |
| `HnetRuns.EndTestIsSound` | hlang/hgen_net/simu_hnet.cpp:334-384 | under the same condition, when the waiting thread, which reads the counters one by one while the others run, finds received equal to sent, everything has arrived and no source will send again |
| `HnetEnd.DoneCounts` | hlang/hgen_net/simu_hnet.cpp:334-365 | under the same condition, once all sources have sent all, a round over the sources ends the first loop, and the next round sums what all targets have sent |
| `HnetEnd.RestEnds` | hlang/hgen_net/simu_hnet.cpp:367-384 | under the same condition, once no message is on its way, one round over what was received ends the waiting |
| `HnetEnd.EndTestIsExact` | hlang/hgen_net/simu_hnet.cpp:334-384 | under the same condition, in every reachable state: left alone, the waiting thread ends if and only if all sources have sent all and no message is on its way, and then after at most four rounds |
| `HnetWhole.ThreadGoesOn` | hlang/hgen_net/simu_hnet.cpp:103-493 | under the same condition, in every reachable state a thread inside its loop can take a step towards the start of it: no thread hangs |
| `HnetWhole.GetsThrough` | hlang/hgen_net/simu_hnet.cpp:103-493 | under the same condition, every message that can come to a target by the routing of the nodes is received there in some run that ends: it is sent, passed on and counted, the sources finish, and the waiting thread ends |
| `HnetWhole.CanEnd` | hlang/hgen_net/simu_hnet.cpp:334-384 | in every such network some run ends |
| `HnetRuns.ParallelNeverRead` | hlang/hgen_net/hgen_net.h:917-950 | under the same condition nobody ever reads one of two links between the same nodes |
| `HnetDoubled.Arrives` | hlang/hgen_net/simu_hnet.cpp:104-279 | every message that can come to a link by the routing of the nodes is offered there in some run |
| `HnetDoubled.TakenTwice` | hlang/hgen_net/simu_hnet.cpp:221-262 | if a message is offered on the first of two links between the same nodes, there is a run in which it is taken from the second too, where it was never sent |
| `HnetDoubled.TransfersIffClear` | hlang/hgen_net/hgen_net.h:917-950 | in every run all links transfer every message once and in order, if and only if no message can come to the first of two links between the same nodes |
| `HnetDoubled.TransfersIffNoParallel` | hlang/hgen_net/hgen_net.h:917-950 | where every link can get a message: if and only if no two links join the same nodes the same way |
| `HnetDoubled.TwinDoubles` | hlang/hgen_net/simu_hnet.cpp:221-262 | a network of one target, one 1to2 node and one 2to1 node with both outputs leading to the same node: a message is taken twice |
| `HnetPorts.FlagsAreOwn` | hlang/hgen_net/hgen_net.h:917-950 | ireq, oack and get_message_of, which look for the neighbour by its address, find the right link for all links exactly if no two links join the same nodes the same way |
| `HnetPorts.ServedInTwo` | hlang/hgen_net/simu_hnet.cpp:231-263 | without queues an input that keeps asking is served within two turns that have room, whatever the other input does |
| `HnetPorts.ServedInOwnTurn` | hlang/hgen_net/simu_hnet.cpp:1205-1221 | with queues, when both inputs keep asking, the second is served exactly if there is room in one of the turns that are its own |
| `HnetPorts.QueuedMayStarve` | hlang/hgen_net/simu_hnet.cpp:1207-1214 | so it may starve although every second turn has room, because the choice is turned over even when the queue is full |
| `VerilogTree.IncTiles` | hlang/hgen_net/vlg_hnet.cpp:1507-1535 | the pending columns cover the inputs so far, each level a power of two of them |
| `VerilogTree.PendingIsBinary` | hlang/hgen_net/vlg_hnet.cpp:1507-1535 | after n inputs entry a is in use exactly if bit a of n is set |
| `VerilogTree.IncCarries` | hlang/hgen_net/vlg_hnet.cpp:1507-1535 | after an increment every pending wire stands for the conjunction of as many consecutive inputs as its power of two |
| `VerilogTree.IncSpans` | hlang/hgen_net/vlg_hnet.cpp:1507-1535 | every gate that is added stands for the conjunction of a run of inputs, and so does each of its operands |
| `VerilogTree.ValuesExist` | hlang/hgen_net/vlg_hnet.cpp:1507-1535 | so for all values of the inputs there are values of the wires that fit all gates |
| `VerilogTree.FinalIsAll` | hlang/hgen_net/vlg_hnet.cpp:1537-1561 | the conjunction of the wires in use is the conjunction of all inputs |
| `VerilogTree.VerilogFile.IncReadyAnd` | hlang/hgen_net/vlg_hnet.cpp:1507-1535 | one more input: the new wires are declared behind the old ones, none twice, and the pending entries keep their meaning |
| `VerilogTree.VerilogFile.CarryOver` | hlang/hgen_net/vlg_hnet.cpp:1507-1535 | the carry loop emits one gate for every entry in use below the first free one, and frees those entries |
| `VerilogTree.VerilogFile.ReadyFinalAnd` | hlang/hgen_net/vlg_hnet.cpp:1537-1561 | the operands of the final assignment are declared wires, for all values that fit the gates their conjunction is that of all inputs, and all inputs have such values; the entries are free again |

## Left out

- HlangClass.HandlerDoesWhatTheNucleusSays: the structured semantics gives a jump nobody takes no effect, as the links do; whether a helif or helse has an hif before it is not checked by the source and is assumed here, and recursion among methods is refused by the source.
- HlangDepth.RefusedIffRecursive: a method that calls itself directly is refused here; in the source the call evaluates the code of the method again while it is being defined (hlang/hl_src/hlang.hh:2455-2475), without end, so only circles through two methods or more reach calc_depth.
- HlangJumps.QuietRuns: one direction only, because a jump keyword that is lost may be unreachable, or may lead where it would have led anyway; HlangLoops.AsWrittenIffQuiet has both directions for loops of plain statements and jump keywords.
- hlang: a sequence as a middle step of another (it would be linked twice), hskip (its case label is printed inside a comment), safe checks, waits and replies, calls to a method of another object, the text of the generated files.
- hlang data: statements and tests are arbitrary functions on arbitrary data; what `hg_step` does between two activations of a handler is not modelled.
- UmmHeap.Heap.Malloc: not for the sizes whose 16-bit block count is zero (524277 to 524284, and again every 524288), because the chunk would have no blocks at all (see UmmBlocks.BlocksTight).
- UmmHeap.Heap.Realloc: the same exception.
- umm_info, the critical sections and the debug output of the allocator.
- Missives: values with one step for every shared access instead of objects, because the steps of different workers interleave; Binders.dfy has the lists in the form of the source. Handlers and the user function are abstract: they may send anything at any time. Whether a worker that has never been sent to is ready is a free choice. The manager's routes, start and finish of a run are not modelled.
- MissiveEnds.EverythingArrives: that the workers can go on to this state, not that every scheduler takes them there; a destination that is asked about for the first time is found initialised and running the same module.
- HnetWhole.GetsThrough: one run for each message; with full queues and routes that go round, a network may also get stuck.
- StopProtocol.RunInv: all workers use the same stop key, and the missives are counted, not listed; different keys make the source abort.
- RrArray.RingBuffer.Read: reading and writing are atomic; a reader that meets a frame half written relies on the check alone.
- RrArray.RingBuffer.constructor: not for capacities below 4, which cannot hold a frame; the comparison of the source (src/cells/rr_array.c:218) is between unsigned numbers there and lets every object through.
- preload_pgroup.cpp: the same algorithm as pgroup.cpp; a null pointer stands for the parent of the root.
- LognetHops.UpRoute: a route box with several inputs is taken as one choice by the slice vector; the 2to2, 2to3 and 3to2 boxes inside it are not modelled.
- LognetHops.DownRoute: the same.
- LognetHops.EveryMessageArrives: base two only, as the slices of the source always use base two; the wires of LognetLinks are proved for every base.
- Lognet boxes: vectors of pointers are sequences and trees, and floor(log) and powers are exact integers where the source uses floating point. The relinking of direct nodes is not modelled. Trees with several inputs (2to2, 2to3, 3to2 boxes) and networks nested in a route box are covered by the theory of slices only.
- Hnet nodes: values with one step for every shared access, because the threads interleave; MsgQueue has the queue in the form of the source. Threads may take the tests of one turn of their loop in any order. Which target a source chooses, the printed lines and the start of the threads are not modelled; the waiting thread walks over all nodes, of which those that are no targets count nothing.
- Memory: every access to shared memory takes effect at once and in program order; weaker orders of real processors are not modelled.
- HnetPorts.ServedInTwo: the turns of one node, not the fairness of whole networks.
- VerilogTree: the error selection, which has the same carry loop, and the text around the gates.
- The sorting networks, propagation and conflict analysis of ben-jose-embryo, module loading, addresses, interrupts, logging and argument completion.
- tak_mak.cpp: a random number generator of others.
