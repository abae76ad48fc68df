# OpenDcd, modelled and proved

A Dafny model of the hard parts of OpenDcd, a speech decoder on weighted transducers, and of the
libraries it ships, with proofs of what they promise. `dafny verify dfyconfig.toml` checks all of it.

- **Beam search** (`Wfst`, `ViterbiPaths`, `OrderStatistics`, `BeamCutoff`, `Emission`, `EpsilonClosure`,
  `Viterbi`, `FasterDecoder`): the frame-synchronous Viterbi decoder, its adaptive cutoffs, its emitting step
  and epsilon pass, and the traceback, against the least cost over all paths of a transducer.
- **Epsilon expansion of the level decoder** (`EpsilonRelaxation`, `EpsilonShortestPaths`,
  `EpsilonFaults`, `EpsilonOptimality`, `EpsilonPruning`, `EpsilonCycles`, `EpsilonTermination`,
  `ClevelDecoder`): the queue loop that relaxes epsilon arcs of search states in the heap, against a relaxation on numbered states and least path
  costs.
- **Arc expansion** (`ArcExpansion`, `ArcExpansionMeaning`, `ArcExpandFst`, `ArcExpandMachine`): the lazy
  transducer that puts a sub-machine in place of each arc, with its numbers and its cache, against the paths of
  the source machine.
- **Process pipes** (`PipeProtocol`, `PipeInvariants`, `PipeTheorems`, `PipeResults`, `PipeProgress`, `PipeStall`,
  `BufferList`): the two threads of exec-stream as a system of indivisible steps over event words, queues and one mutex, and the
  chunked byte queue they share.
- **Hash map** (`Probing`, `HashTable`, `HashMap`): open addressing with triangular probing, tombstones and
  rehashing, against a mathematical map.
- **Red-black tree** (`RedBlack`, `RedBlackInsert`, `RedBlackErase`, `TreeMemory`, `RbTree`): nodes with
  parent pointers and one shared sentinel, changed in place, against sorted sequences of keys.
- **Sorting** (`StableSort`, `RadixSorter`, `Sorting`): radix sort in four byte passes between two arrays,
  against the unique stable sort; Hoare's quicksort and heapsort in place.
- **Profiler** (`ShinyTicks`, `ShinyNodes`, `ShinyUpdate`, `ZoneSort`): the tick accounting of Shiny over an
  explicit stack, with recursive zones and wrapping counters, and its four-tape merge sort of a linked list.
- **Profiler manager** (`OddProbing`, `ShinyTable`, `ShinyPools`, `ShinyTree`, `ShinyManager`): the
  double-hashed node table and the pools that grow with it, the tree of nodes that the update visits, and the
  time that the manager hands out.
- **Argument splitting** (`ArgSplitter`): a quoted command line into NUL-closed arguments in one buffer.
- **Shell quoting** (`ShellQuote`): the echo of a command line, against a reader of the quoting rules in
  section 2.2 of the POSIX.1-2017 Shell Command Language.

Costs and weights are integers: a finite binary floating-point number is an integer multiple of the smallest
one, and rounding is not the point of any result. Infinity is a separate case (`Bound`). Profiler averages are
integers too. Sizes and counters are unbounded except where wrap-around matters (profiler ticks, hashes).

The red-black tree and its rebalancing are written twice in the source, mirrored left and right; here a `Side`
says which half runs. Where a method needs to know where in a structure it works, it takes that place as a
ghost argument (`Ctx` and `Tree` in the red-black tree, runs in the merge sort).

## What the proofs found

- The Viterbi decoder can empty a frame: with a positive beam that happens to its survivors exactly when more
  than `max_active` tokens tie at the best weight (`BeamCutoff.NoneSurvivesIffTied`). Otherwise, with a positive
  `beam_delta`, a frame in which a token that can emit survives is followed by tokens (`Viterbi.FrameIsNotEmptied`).
- `SearchState::ExpandEpsilonArcs` queues a successor even when its cost did not improve, so an epsilon cycle
  that nothing cuts is never left, whatever its weight (`EpsilonCycles.PositiveCycleSpins`). Where no cycle in
  reach lowers a cost and no bound cuts a simple path, the loop ends if and only if no epsilon cycle can be
  reached from an active state (`EpsilonTermination.FinishesIffNoCycle`).
- An arc that costs too much to enter still shows the cost of no token, and a threshold above that cost lets it
  by without a traceback; the model stops there (`fault`). It happens (`EpsilonFaults.FaultHappens`), at exactly
  the expansions that `EpsilonFaults.RunFaults` names, and it can happen on some network if and only if pruning
  is on and the best active cost, below the maximum cost, plus the beam exceeds that maximum
  (`EpsilonFaults.FaultPossibleIffUnguarded`).
- `ArcExpandFstImpl` numbers only the arcs it expands but looks them up by absolute position: right exactly
  when those arcs come first in every state (`ArcExpansion.IndexFindsArcIffExpandedFirst`).
- `ArcExpandFstImpl::Final` expands a state again whose arcs are already cached, so they are counted twice
  (`ArcExpandFst.CountsDouble`), exactly when the final weight is first asked for after the arcs
  (`ArcExpandFst.ArcExpandFstImpl.CountedOnce`). What the machine accepts, at which costs, does not change by
  that (`ArcExpandMachine.MachineIsExact`).
- `buffer_list_t::detach` takes no account of what was read of the chunk: a byte can come again and another be
  lost (`BufferList.DetachRepeats`). The condition under which none is, exactly, is in
  `BufferList.BufferList.Detach`; the queue that the worker detaches from is never read in part.
- In the pipe protocol a put that waits for room and a worker that still holds a chunk can wait for each other
  until a timeout, once both output streams have ended or are full (`PipeTheorems.BlockedExactlyWhenWriterStalls`,
  `PipeStall.StallHappens`).
- The hash map needs a load factor above 4, exactly (`HashTable.LoadFactorKeepsRoom`). After an assignment
  its count of used nodes is that of the other map, which is right if and only if that one counts no deleted
  nodes (`HashMap.HashMap.Assign`, `HashMap.CopyMiscounts`).
- `ShinyZone_sortChain` returns no last record for a list of one (`ZoneSort.SortChain`), which
  `ShinyManager_sortZones` stores as the last zone; the manager stays valid if and only if it does not know
  exactly one zone behind the root (`ShinyManager.ShinyManager.SortZones`).
- `ShinyManager_destroyNodes` makes a call site forget only the nodes that it made itself. A cache is sound
  afterwards if and only if it made a node or held none (`ShinyManager.ShinyManager.Destroy`); a second call site
  of a shared zone (3rdparty/Shiny/include/ShinyMacros.h) is left with a destroyed node (`ShinyManager.StaleCache`).
  By itself it also leaves the manager marked as initialized without a pool
  (`ShinyManager.ShinyManager.DestroyNodes`); `ShinyManager_destroy` takes the mark away.
- `split_args` reads a backslash before a closing quote as keeping the quote, so a closed quoted argument never ends in
  a backslash (`ArgSplitter.QuotingRoundTrips`).
- `ParseOptions` prints words bare that the shell may read otherwise where they stand: the echoed line reads back
  if and only if no such word starts with `#` or `~` or holds a `[` (`ShellQuote.EchoRoundTripsStrictly`).

## Model

| member | source | states |
|---|---|---|
| `Wfst.PotentialIffNoNegativeCycle` | src/bin/faster-decoder-mod.cc:298-341 | state potentials that bound every epsilon arc exist exactly when no epsilon cycle has a negative weight, which is what the epsilon pass needs to stop |
| `OrderStatistics.NthCounts` | src/bin/faster-decoder-mod.cc:151-166 | at most n weights lie strictly below the n-th order statistic and more than n lie at or below it |
| `BeamCutoff.ClippedMeetsLimits` | src/bin/faster-decoder-mod.cc:147-181 | the clipped beam cutoff lets at most max_active weights survive and, unless there are fewer, keeps more than min_active within it |
| `BeamCutoff.SurvivorCount` | src/bin/faster-decoder-mod.cc:151-173 | counted over the tokens themselves, at most max_active of them lie strictly below a cutoff that meets the limits |
| `BeamCutoff.CutoffIsUnique` | src/bin/faster-decoder-mod.cc:120-182 | the options determine the cutoff and the adaptive beam of a frame: no other values meet the description |
| `BeamCutoff.FrameCutoffMeans` | src/bin/faster-decoder-mod.cc:147-181 | in terms of tokens: with limits at most max_active survive and, unless there are fewer, more than min_active lie within the cutoff; without limits the cutoff is exactly the least weight plus the beam; the adaptive beam is never negative |
| `BeamCutoff.AdaptiveMeans` | src/bin/faster-decoder-mod.cc:167-181 | the adaptive beam in terms of a best token: the beam where the cutoff lies that far above it, or else the cutoff's distance from it plus beam_delta |
| `BeamCutoff.BeamUnlessLimits` | src/bin/faster-decoder-mod.cc:147-181 | the cutoff is tighter than the beam only if more than max_active tokens lie within it, and looser only if no more than min_active survive it |
| `BeamCutoff.NoneSurvivesIffTied` | src/bin/faster-decoder-mod.cc:151-157 | with a positive beam no token survives exactly when limits are set and more than max_active tokens tie at the best weight |
| `FasterDecoder.FasterDecoderMod.GetCutoff` | src/bin/faster-decoder-mod.cc:120-182 | the best weight, the cutoff and the adaptive beam are those of the branch taken: best weight plus beam and the beam without limits; otherwise the cutoff clipped to the limits, and the beam itself when it was not clipped or the distance from the best weight to the cutoff plus the delta when it was |
| `FasterDecoder.FasterDecoderMod.ProcessEmitting` | src/bin/faster-decoder-mod.cc:193-296 | in whatever order the tokens are visited, the cutoff and adaptive beam of the survivors are those that the options give, the returned bound is the least candidate weight plus the adaptive beam, every surviving transition below it leaves its target a token at most that costly, and every token comes from a survivor and costs less than anything the best emitting token leads to plus the adaptive beam |
| `Emission.PropagatedStep` | src/bin/faster-decoder-mod.cc:259-288 | one more arc scanned keeps the claim that every offer below the current cutoff is covered and the cutoff is the least offer plus the beam |
| `Emission.MergeOffers` | src/bin/faster-decoder-mod.cc:230-294 | the pilot scan of the best token and the scan of all survivors together have seen exactly the offers of the survivors |
| `EpsilonClosure.InstallProgress` | src/bin/faster-decoder-mod.cc:323-336 | a token that enters the list either fills a missing state or lowers a cost that potentials bound from below, so the epsilon pass terminates |
| `EpsilonClosure.ClosedExceptInstall` | src/bin/faster-decoder-mod.cc:322-336 | when a token is installed only its own state can lose its closure, so queueing that state alone is enough |
| `EpsilonClosure.SkippingIsSafe` | src/bin/faster-decoder-mod.cc:310-312 | skipping a state whose token lies beyond the cutoff loses nothing within the cutoff |
| `FasterDecoder.FasterDecoderMod.ProcessNonemitting` | src/bin/faster-decoder-mod.cc:299-341 | without negative epsilon cycles the stack loop terminates and leaves every token within the cutoff with all its epsilon successors covered |
| `ViterbiPaths.TokenIsPath` | src/bin/faster-decoder-mod.cc:35-47 | under any beam a token is the cost of the real path that its chain of predecessors spells, ending in its state |
| `Viterbi.FramePath` | src/bin/faster-decoder-mod.cc:43-46 | a path kept by the cutoffs up to a frame is still covered after the frame |
| `Viterbi.FrameKeepsAll` | src/bin/faster-decoder-mod.cc:43-46 | a frame loses no path that its cutoffs keep |
| `Viterbi.OpenIsExact` | src/bin/faster-decoder-mod.cc:35-47 | with every cutoff open, each token is the least cost of all paths of exactly that many frames into its state, and every state such a path reaches has one |
| `Viterbi.BeamLosesNothing` | src/bin/faster-decoder-mod.cc:35-47 | beam safety: without limits on active tokens, no path is lost whose every prefix costs less than each path of as many frames plus the beam |
| `Viterbi.BeamFindsCheapest` | src/bin/faster-decoder-mod.cc:35-47 | so a cheapest path into its state that stays within the beam has its exact cost in the token of that state |
| `Viterbi.DecodedLosesNothing` | src/bin/faster-decoder-mod.cc:43-46 | a run whose frames took the cutoffs that the options give loses no path that these cutoffs keep |
| `Viterbi.CheapestStaysBelow` | src/bin/faster-decoder-mod.cc:218-250 | with a positive beam and beam_delta the cheapest successor of the survivors and of the best emitting token lies strictly below the bound of the frame |
| `Viterbi.FrameIsNotEmptied` | src/bin/faster-decoder-mod.cc:43-46 | so a frame in which some token that can emit survives is followed by tokens |
| `Viterbi.DecodedIsPruned` | src/bin/faster-decoder-mod.cc:43-46 | without limits on active tokens nothing that a frame leads to costs more than anything its best emitting token leads to plus the beam |
| `FasterDecoder.FasterDecoderMod.Decode` | src/bin/faster-decoder-mod.cc:35-47 | frame by frame the cutoffs are those that the options give and each frame ran with them; tokens are real paths and no path that these cutoffs keep is lost; without limits on active tokens no path is lost that stays within the beam, and with an unbounded beam the tokens are the cheapest paths |
| `Viterbi.SpellingTelescopes` | src/bin/faster-decoder-mod.cc:86-97 | the graph and acoustic costs read off the chain add up to the weight of the token |
| `Viterbi.BestTokenIsOptimal` | src/bin/faster-decoder-mod.cc:58-82 | with open cutoffs the token chosen for the traceback is the cheapest accepting path, or the cheapest path when none is accepting |
| `FasterDecoder.FasterDecoderMod.ReachedFinal` | src/bin/faster-decoder-mod.cc:49-56 | true exactly when some token sits in a final state |
| `FasterDecoder.FasterDecoderMod.GetBestPath` | src/bin/faster-decoder-mod.cc:58-116 | the arcs returned spell the path of the best token from the start state, graph and acoustic costs apart, before epsilons are removed |
| `EpsilonRelaxation.StepSound` | src/include/dcd/clevel-decoder.h:1286-1306 | one pop of the epsilon queue keeps the active list and the queue free of repetitions and never raises the cost of a state |
| `EpsilonShortestPaths.StepLightens` | src/include/dcd/clevel-decoder.h:419-448 | a popped state pays, in epsilon paths leaving the queue, for everything its expansion can queue, improved or not |
| `EpsilonShortestPaths.AcyclicTerminates` | src/include/dcd/clevel-decoder.h:1262-1306 | when the states can be ranked from those queued on, the loop pops no more states than epsilon paths leave the queued states |
| `EpsilonOptimality.PruningIsSafe` | src/include/dcd/clevel-decoder.h:1286-1306 | unless pruning starts with a threshold above the maximum cost, a path whose every cost stays below the maximum cost and the final best cost plus the beam is never lost, although both bounds move during the loop |
| `EpsilonPruning.BeamPrunes` | src/include/dcd/clevel-decoder.h:1293-1297 | with pruning on, no state is activated or improved at a cost of the least starting cost plus the beam or more |
| `EpsilonPruning.StepPrunes` | src/include/dcd/clevel-decoder.h:419-442 | what arrives in one step costs less than the best cost at that pop plus the beam |
| `EpsilonPruning.KeptIsWithinBeam` | src/include/dcd/clevel-decoder.h:419-442 | every cost kept is that of an epsilon path on which every arc is entered and left below the maximum cost and, with pruning on, below the least starting cost plus the beam |
| `EpsilonPruning.RunBounds` | src/include/dcd/clevel-decoder.h:1286-1302 | the best cost is always the least cost of an active state, and states are cut beyond it and the beam exactly once it has dropped below the least starting cost |
| `EpsilonPruning.DearStateIsDropped` | src/include/dcd/clevel-decoder.h:1288-1306 | a popped state beyond that is dropped and nothing else changes |
| `EpsilonOptimality.RunIsReal` | src/include/dcd/clevel-decoder.h:432-442 | every cost kept is the cost of a real epsilon path from an active state, and no token without a traceback is passed on while costs stay below the maximum |
| `EpsilonFaults.RunFaults` | src/include/dcd/clevel-decoder.h:419-442 | a run passes on a token without a traceback exactly when it expands a state, with pruning on and a threshold above the maximum cost, that has an arc whose entry cost reaches the maximum |
| `EpsilonFaults.GuardedNeverFaults` | src/include/dcd/clevel-decoder.h:1286-1306 | that never happens when pruning is off, no active state has a token, or the best active cost plus the beam does not exceed the maximum cost |
| `EpsilonFaults.FaultPossibleIffUnguarded` | src/include/dcd/clevel-decoder.h:1286-1306 | and that guard is exact: some network faults for these options and costs if and only if it fails |
| `EpsilonFaults.FaultHappens` | src/include/dcd/clevel-decoder.h:432-442 | a network on which it happens: one arc of weight 2^31 from a state of cost 1, with a beam of 2^31 |
| `EpsilonOptimality.FinishedIsExact` | src/include/dcd/clevel-decoder.h:1262-1306 | when the beam cannot cut, a finished expansion leaves each reached state with exactly the least path cost, negative weights included |
| `EpsilonOptimality.AcyclicIsExact` | src/include/dcd/clevel-decoder.h:1262-1306 | when no epsilon cycle can be reached and the beam cannot cut, the expansion finishes and is exact |
| `EpsilonCycles.CycleNeverFinishes` | src/include/dcd/clevel-decoder.h:436-441 | because successors are queued without improvement, a queued state on an epsilon cycle keeps the queue from emptying for as long as nothing is cut; used by the two results that follow, whose conditions are on the input alone |
| `EpsilonTermination.UncutFinishesIffNoCycle` | src/include/dcd/clevel-decoder.h:1286-1306 | where no epsilon path meets the maximum cost or leaves the beam, the loop ends exactly when no epsilon cycle can be reached from an active state |
| `EpsilonTermination.FinishesIffNoCycle` | src/include/dcd/clevel-decoder.h:1286-1306 | the same with conditions on simple paths only: where no cycle in reach lowers a cost and neither bound cuts a simple path or the arc behind it, the loop ends exactly when no epsilon cycle can be reached, and it never passes on a token without a traceback |
| `EpsilonTermination.NoCycleFinishes` | src/include/dcd/clevel-decoder.h:1286-1306 | whatever the costs and options, the loop ends when no epsilon cycle can be reached from an active state |
| `EpsilonCycles.PositiveCycleSpins` | src/include/dcd/clevel-decoder.h:436-441 | even a cycle of positive weight, on which no cost can drop, is never left: a concrete network on which the loop runs forever |
| `ClevelDecoder.CLevelDecoder.SetToken` | src/include/dcd/clevel-decoder.h:487-501 | a token below the threshold is combined into the state and activates it once; others leave it alone |
| `ClevelDecoder.CLevelDecoder.ExpandArcs` | src/include/dcd/clevel-decoder.h:419-448 | the heap expansion of one state carries out exactly the relaxation of its arcs |
| `ClevelDecoder.CLevelDecoder.FindSearchState` | src/include/dcd/clevel-decoder.h:1414-1428 | the search state of a number is found or made once, and all others stay as they are |
| `ClevelDecoder.CLevelDecoder.ExpandEpsilonArcs` | src/include/dcd/clevel-decoder.h:1262-1311 | the heap loop with its queue flags refines the relaxation run on the numbered states whenever that run finishes, so the results above hold of its costs and active list; with pruning on nothing new costs the least starting cost plus the beam or more, and the best cost reported is the least |
| `ArcExpansion.IndexFindsArcIffExpandedFirst` | src/include/dcd/arc-expand-fst.h:181-198 | looking an arc up by the running index finds it exactly when, in every state, the arcs to be expanded come first |
| `ArcExpansion.LookupGoesWrong` | src/include/dcd/arc-expand-fst.h:181-198 | a network with an epsilon arc in front of an expanded one, on which the lookup finds the wrong arc |
| `ArcExpansionMeaning.DerivationIsPath` | src/include/dcd/arc-expand-fst.h:186-232 | each source path with a sub-machine path for every expanded arc is a path of the expanded machine with the same weight and labels |
| `ArcExpansionMeaning.PathIsDerivation` | src/include/dcd/arc-expand-fst.h:186-232 | each path of the expanded machine between source states is such a path |
| `ArcExpansionMeaning.ExpansionPreservesMeaning` | src/include/dcd/arc-expand-fst.h:124-232 | the expanded machine accepts the same labels at the same costs as the source machine with substitution |
| `ArcExpansionMeaning.AcceptedIsSpoken` | src/include/dcd/arc-expand-fst.h:104-106 | whatever the expanded machine accepts is, arc for arc of a source path, nothing for a sub-machine of two states and the labels of one path through all of it for a larger one |
| `ArcExpandFst.ArcExpandFstImpl.AddElement` | src/include/dcd/arc-expand-fst.h:234-251 | an element keeps the number it has or gets the next one; numbers and elements stay mutually inverse |
| `ArcExpandFst.ArcExpandFstImpl.Expand` | src/include/dcd/arc-expand-fst.h:186-232 | the arcs pushed for a state are the arcs of its element with their targets numbered, behind whatever the cache entry holds |
| `ArcExpandFst.ArcExpandFstImpl.NumArcs` | src/include/dcd/arc-expand-fst.h:143-147 | the count is the number of arcs of the element times how often the questions asked so far have expanded the state |
| `ArcExpandFst.ArcExpandFstImpl.Final` | src/include/dcd/arc-expand-fst.h:133-141 | the final weight is the source state's for source states and zero inside an arc; the first question expands the state even if its arcs are cached |
| `ArcExpandFst.ArcExpandFstImpl.CachedArcs` | src/include/dcd/arc-expand-fst.h:186-232 | an arc is cached for an expanded state exactly when its element has it, however often the state was expanded |
| `ArcExpandFst.ExpansionsMeans` | src/include/dcd/arc-expand-fst.h:133-147 | a state is expanded when it is first asked about, and once more exactly when its final weight is first asked for after its arcs |
| `ArcExpandFst.ArcExpandFstImpl.CountedOnce` | src/include/dcd/arc-expand-fst.h:133-147 | after any questions, the arcs of a state with arcs are counted once exactly when its final weight was not first asked for after them, and twice otherwise |
| `ArcExpandFst.CountsDouble` | src/include/dcd/arc-expand-fst.h:133-147 | on every network: the start state has twice as many arcs after its final weight was asked for between two counts |
| `ArcExpandMachine.MachineIsSound` | src/include/dcd/arc-expand-fst.h:113-232 | in every state of the lazy machine, numbered states and cached arcs accept nothing but what the source machine accepts with the sub-machines put in |
| `ArcExpandMachine.MachineIsExact` | src/include/dcd/arc-expand-fst.h:113-232 | once every known state has been asked about, they accept exactly that, however often states were expanded |
| `ArcExpandMachine.ArcExpand` | src/include/dcd/arc-expand-fst.h:405-411 | asking every state about its arcs and its final weight, in any order of the two, ends and gives that machine |
| `ArcExpandFst.ArcExpandFstImpl.StateBound` | src/include/dcd/arc-expand-fst.h:234-251 | at most one number per source state and one per inner state of each expanded arc is ever given out |
| `PipeInvariants.StepKeeps` | 3rdparty/exec-stream/posix/exec-stream-helpers.cpp:459-820 | every step of the worker or the user keeps the invariant: mutex, stop, end-of-file, conservation, want-data, got-data and size conditions |
| `PipeInvariants.ReachableInv` | 3rdparty/exec-stream/posix/exec-stream-helpers.cpp:384-409 | the invariant holds in every state that any interleaving reaches from what start sets up |
| `PipeTheorems.DeliveredInOrder` | 3rdparty/exec-stream/posix/exec-stream-helpers.cpp:459-517 | bytes delivered, then bytes queued, then the chunk in flight are exactly the bytes read from the child; a failing worker can only lose the end |
| `PipeResults.GetTakesFront` | 3rdparty/exec-stream/posix/exec-stream-helpers.cpp:476-504 | a get returns the first bytes of the queue and leaves the rest: as many as it asked for, or all |
| `PipeResults.ResultsAreChildBytes` | 3rdparty/exec-stream/posix/exec-stream-helpers.cpp:459-517 | over any run the results of all gets of a stream, joined in order, are a prefix of what the child wrote to it; without a worker failure only what is queued, in flight or about to be returned is missing, and nothing once a get has reported the end |
| `PipeTheorems.NothingMeansEndOfFile` | 3rdparty/exec-stream/posix/exec-stream-helpers.cpp:476-504 | a get returns no bytes exactly when it reports the end, and then everything read was delivered |
| `PipeTheorems.BitsMatchQueue` | 3rdparty/exec-stream/posix/exec-stream-helpers.cpp:498-515 | outside the mutex, while the worker runs, want-data is set exactly when the queue is not full, and got-data before the end of file exactly when it is not empty |
| `PipeTheorems.QueueStaysBounded` | 3rdparty/exec-stream/posix/exec-stream-helpers.cpp:745-779 | with a positive limit a queue never exceeds the limit minus one plus one read buffer |
| `PipeTheorems.AcceptedInOrder` | 3rdparty/exec-stream/posix/exec-stream-helpers.cpp:519-574 | bytes accepted by put are always the bytes written, the unwritten rest of the chunk, and the queue, in this order |
| `PipeResults.PutsReachTheChild` | 3rdparty/exec-stream/posix/exec-stream-helpers.cpp:519-574 | over any run the arguments of the puts that returned as taken, joined in order, are the bytes written, the rest of the chunk and the queue; all are written once the pipe is closed or the worker has stopped without an error |
| `PipeResults.NoPutAfterTheLast` | 3rdparty/exec-stream/posix/exec-stream-helpers.cpp:519-590 | once a put has timed out or the input was closed, no put is ever taken again |
| `PipeProgress.QueuedInputGetsWritten` | 3rdparty/exec-stream/posix/exec-stream-helpers.cpp:625-740 | a waiting worker is woken by queued input and can write its first chunk whole without a timeout or the user |
| `PipeProgress.ChildBytesGetQueued` | 3rdparty/exec-stream/posix/exec-stream-helpers.cpp:742-815 | a worker that may read a stream can queue what the child wrote and tells the user, without a timeout or the user |
| `PipeProgress.ClosedInputClosesPipe` | 3rdparty/exec-stream/posix/exec-stream-helpers.cpp:644-688 | once the input is closed and nothing of it is left, a waiting worker can close the pipe |
| `PipeProgress.EndedWorkerStops` | 3rdparty/exec-stream/posix/exec-stream-helpers.cpp:816-840 | with the pipe closed and both streams at their end the worker stops by itself and says so |
| `PipeTheorems.ClosesAfterLastByte` | 3rdparty/exec-stream/posix/exec-stream-helpers.cpp:644-692 | without an I/O error the worker closes the pipe or stops only after every accepted byte was written, and nothing is accepted afterwards |
| `PipeTheorems.BlockedExactlyWhenWriterStalls` | 3rdparty/exec-stream/posix/exec-stream-helpers.cpp:625-640 | a user inside a call and the worker are both stuck until a timeout exactly when a put waits for room while the worker holds a chunk and waits for neither stream; so a get and a stop are never left waiting |
| `PipeStall.StallHappens` | 3rdparty/exec-stream/posix/exec-stream-helpers.cpp:625-640 | such a stalled put is reachable: a run of the protocol that ends in it |
| `BufferList.BufferList.Get` | 3rdparty/exec-stream/exec-stream.cpp:105-123 | copies the first bytes of the queue, as many as asked for and there are, and leaves the rest, across chunks |
| `BufferList.BufferList.GetTranslateCrlf` | 3rdparty/exec-stream/exec-stream.cpp:125-145 | copies the first bytes that are not carriage returns; returns fewer than asked for only when the queue is empty |
| `BufferList.BufferList.Put` | 3rdparty/exec-stream/exec-stream.cpp:147-155 | appends the bytes as one chunk |
| `BufferList.BufferList.PutTranslateCrlf` | 3rdparty/exec-stream/exec-stream.cpp:157-181 | appends the bytes with a carriage return before each line feed |
| `BufferList.BufferList.Detach` | 3rdparty/exec-stream/exec-stream.cpp:183-189 | takes the first chunk whole and leaves the offset: no byte is lost or given again exactly when nothing of the chunk was read or the chunk is also what comes next; says exactly when the queue stays sound |
| `BufferList.DetachRepeats` | 3rdparty/exec-stream/exec-stream.cpp:183-189 | a chunk detached after one of its bytes was read gives that byte again and loses a later one |
| `BufferList.TranslationRoundTrip` | 3rdparty/exec-stream/exec-stream.cpp:125-181 | reading a translated text back gives the text without its carriage returns |
| `BufferList.LineFeedsFollowReturns` | 3rdparty/exec-stream/exec-stream.cpp:157-181 | every line feed stored comes right after a carriage return |
| `BufferList.ExpandAddsOnlyReturns` | 3rdparty/exec-stream/exec-stream.cpp:157-181 | otherwise the text is stored as it is: taking one carriage return out before each line feed gives it back, whatever it holds |
| `BufferList.StripDropsReturns` | 3rdparty/exec-stream/exec-stream.cpp:125-145 | the reading translation gives every byte in order but the carriage returns |
| `BufferList.StripKeepsText` | 3rdparty/exec-stream/exec-stream.cpp:131-135 | the reading translation keeps a text exactly when it holds no carriage return |
| `Probing.ProbesAreDistinct` | 3rdparty/rdestl/hash_map.h:408-420 | two of the first capacity triangular probes never share a slot of a power-of-two table |
| `Probing.ProbesReachEverySlot` | 3rdparty/rdestl/hash_map.h:408-420 | triangular probing visits every slot of a power-of-two table within capacity probes |
| `HashTable.ProbesMeetUnused` | 3rdparty/rdestl/hash_map.h:408-420 | while a node is unused the probes of every hash meet an unused node within the capacity |
| `HashTable.FullTableNeverEnds` | 3rdparty/rdestl/hash_map.h:406-420 | in a full table no probe sequence meets an unused node |
| `HashTable.LoadFactorKeepsRoom` | 3rdparty/rdestl/hash_map.h:254-255 | the growth test leaves an unused node after every insertion exactly when the load factor is above 4 |
| `HashTable.MaskHash` | 3rdparty/rdestl/hash_map.h:515-520 | a masked hash is never one of the two markers |
| `HashTable.MaskClearsOneBit` | 3rdparty/rdestl/hash_map.h:515-520 | masking clears bit 1 of the 32-bit hash and leaves the other bits as they are |
| `HashTable.TableUses` | 3rdparty/rdestl/hash_map.h:521-526 | a table has at least as many used nodes as its map has keys |
| `HashTable.UnusedMeansAbsent` | 3rdparty/rdestl/hash_map.h:431-443 | a search that met an unused node before the key has shown the key absent |
| `HashTable.PlaceKeepsTable` | 3rdparty/rdestl/hash_map.h:263-268 | placing an absent key where the search said, on an unused or a deleted node, adds exactly that entry and keeps every other key found and unique |
| `HashTable.RemoveKeepsTable` | 3rdparty/rdestl/hash_map.h:506-513 | marking a node deleted removes exactly its key and keeps every other key found |
| `HashMap.HashMap.Lookup` | 3rdparty/rdestl/hash_map.h:423-444 | finds the node of a key exactly when the map has it, with its value, and ends for every key |
| `HashMap.HashMap.FindForInsert` | 3rdparty/rdestl/hash_map.h:392-422 | gives the key's node, or else the first node on its probes that is not live, so deleted nodes are used again, and ends for every key |
| `HashMap.HashMap.Insert` | 3rdparty/rdestl/hash_map.h:250-271 | adds the entry exactly when the key is absent, and doubles the table first exactly when the load test says so |
| `HashMap.HashMap.Index` | 3rdparty/rdestl/hash_map.h:202-211 | gives the node of the key, inserted with a default value exactly when it was absent |
| `HashMap.HashMap.Erase` | 3rdparty/rdestl/hash_map.h:273-282 | removes the key and reports whether it was there |
| `HashMap.HashMap.Clear` | 3rdparty/rdestl/hash_map.h:313-331 | empties the map and makes every node unused |
| `HashMap.HashMap.Reserve` | 3rdparty/rdestl/hash_map.h:333-340 | makes the capacity at least what was asked for and less than twice that, without changing the map |
| `HashMap.HashMap.Grow` | 3rdparty/rdestl/hash_map.h:363-375 | keeps the map and drops the deleted nodes |
| `HashMap.Rehash` | 3rdparty/rdestl/hash_map.h:446-477 | a table of the same map with exactly one used node per key |
| `HashMap.HashMap.Assign` | 3rdparty/rdestl/hash_map.h:213-231 | becomes the other map, keeping its own nodes when they are enough; it uses one node per key, and its count of used nodes is right exactly when the other map counts no deleted ones |
| `HashMap.CopyMiscounts` | 3rdparty/rdestl/hash_map.h:213-231 | a copy of a map whose one entry was erased counts a used node and has none |
| `RedBlack.PlugIsRedBlack` | 3rdparty/rdestl/rb_tree.h:424-446 | a subtree that fits its surroundings makes a red-black tree with a black root |
| `RedBlack.HeightIsLogarithmic` | 3rdparty/rdestl/rb_tree.h:45-58 | a red-black tree of n keys is at most 2 log2(n + 1) high |
| `RedBlack.FollowerIsLeast` | 3rdparty/rdestl/rb_tree.h:250-286 | in sorted keys the follower of a key is the least greater key |
| `RedBlack.InsertedKeys` | 3rdparty/rdestl/rb_tree.h:75-112 | the keys after an insertion are the old ones and the new one, sorted |
| `RedBlack.RemovedKeys` | 3rdparty/rdestl/rb_tree.h:130-140 | the keys after an erasure are the old ones but the erased one, sorted |
| `TreeMemory.RotationRotates` | 3rdparty/rdestl/rb_tree.h:448-496 | the pointer writes of a rotation turn the nodes in memory into the rotated tree at the same place |
| `TreeMemory.Unlinked` | 3rdparty/rdestl/rb_tree.h:159-171 | the pointer writes that take out a node with at most one child leave the tree with that child in its place |
| `RedBlackInsert.RecoloringGrows` | 3rdparty/rdestl/rb_tree.h:302-310 | red parent and uncle: recolouring moves the only possible fault two levels up, black heights and order kept |
| `RedBlackInsert.TurningGrows` | 3rdparty/rdestl/rb_tree.h:313-317 | an inner red node is turned outward without changing order or heights |
| `RedBlackInsert.LiftingGrows` | 3rdparty/rdestl/rb_tree.h:318-321 | black uncle: the parent takes the grandparent's place and colour, and no fault is left |
| `RedBlackErase.RedSiblingRises` | 3rdparty/rdestl/rb_tree.h:359-365 | a red sibling is raised so that a black one takes its place, the shortage unchanged |
| `RedBlackErase.SiblingPays` | 3rdparty/rdestl/rb_tree.h:366-371 | a black sibling with black children turns red and the shortage moves up |
| `RedBlackErase.NearChildTurns` | 3rdparty/rdestl/rb_tree.h:374-380 | a red near child of the sibling turns outward |
| `RedBlackErase.OuterChildPays` | 3rdparty/rdestl/rb_tree.h:381-385 | a red outer child ends the shortage: the whole tree is red-black again |
| `RedBlackErase.SuccessorKeys` | 3rdparty/rdestl/rb_tree.h:146-176 | putting the successor's key in a node and taking the successor out removes exactly the node's key |
| `RbTree.RbTree.Rotate` | 3rdparty/rdestl/rb_tree.h:448-496 | rotates the nodes at a place in memory and keeps everything around it |
| `RbTree.RbTree.Rebalance` | 3rdparty/rdestl/rb_tree.h:292-349 | ends with a red-black tree of the same keys in order |
| `RbTree.RbTree.Insert` | 3rdparty/rdestl/rb_tree.h:75-112 | adds the key exactly when it is absent and keeps order, parent links, colours, black heights and the size; returns its node |
| `RbTree.RbTree.RebalanceAfterErase` | 3rdparty/rdestl/rb_tree.h:351-422 | ends the shortage of one black node with a red-black tree of the same keys, also when the place is the shared sentinel |
| `RbTree.RbTree.EraseNode` | 3rdparty/rdestl/rb_tree.h:141-185 | takes the key of a node out, overwriting it with its successor when it has two children |
| `RbTree.RbTree.Erase` | 3rdparty/rdestl/rb_tree.h:130-140 | removes the key and reports whether it was there |
| `RbTree.RbTree.FindNode` | 3rdparty/rdestl/rb_tree.h:114-128 | the node of the key, or none exactly when the key is absent |
| `RbTree.RbTree.GetBeginNode` | 3rdparty/rdestl/rb_tree.h:238-248 | the node of the least key, or none for the empty tree |
| `RbTree.RbTree.FindNextNode` | 3rdparty/rdestl/rb_tree.h:250-286 | the node of the next key in order, or none after the last |
| `StableSort.BucketsStable` | 3rdparty/rdestl/radix_sorter.h:80-84 | buckets laid one behind the other keep equal keys in order |
| `StableSort.PlaceNext` | 3rdparty/rdestl/radix_sorter.h:80-84 | the next element goes to the end of its bucket and disturbs no other |
| `StableSort.StableSortIsUnique` | 3rdparty/rdestl/radix_sorter.h:23-102 | only one arrangement is sorted and keeps equal keys in order |
| `StableSort.StablePermutes` | 3rdparty/rdestl/radix_sorter.h:23-102 | a stable arrangement is a permutation |
| `RadixSorter.PassSorts` | 3rdparty/rdestl/radix_sorter.h:80-101 | a pass by the next byte sorts by one byte more and moves no equal keys past each other |
| `RadixSorter.ShortKeysAreSorted` | 3rdparty/rdestl/radix_sorter.h:71-91 | if the two upper bytes of all keys are zero, two passes are enough |
| `RadixSorter.CountWhileSorted` | 3rdparty/rdestl/radix_sorter.h:35-58 | stops early exactly when the keys are not sorted, having counted what came before |
| `RadixSorter.CalculateOffsets` | 3rdparty/rdestl/radix_sorter.h:118-139 | turns the four histograms into where each bucket starts |
| `RadixSorter.Distribute` | 3rdparty/rdestl/radix_sorter.h:80-84 | lays the elements out bucket by bucket, in order |
| `RadixSorter.RadixSorter.Sort` | 3rdparty/rdestl/radix_sorter.h:105-111 | sorts unsigned 32-bit keys stably in place, early exits included, and leaves the rest of the array alone |
| `Sorting.Partition` | 3rdparty/rdestl/sort.h:16-41 | splits the range around the pivot, permutes nothing else, and neither unguarded scan leaves the range |
| `Sorting.QuickSortRange` | 3rdparty/rdestl/sort.h:11-50 | sorts the range and permutes nothing outside it |
| `Sorting.QuickSort` | 3rdparty/rdestl/sort.h:92-96 | sorts the array by any strict weak order and keeps its elements |
| `Sorting.DownHeap` | 3rdparty/rdestl/sort.h:53-70 | restores the heap below an element by permuting the heap |
| `Sorting.RootIsGreatest` | 3rdparty/rdestl/sort.h:113-120 | no element of a heap is greater than its root |
| `Sorting.HeapSort` | 3rdparty/rdestl/sort.h:109-122 | sorts the array by any strict weak order and keeps its elements |
| `ShinyTicks.ZoneTotalIsOutermost` | 3rdparty/Shiny/src/ShinyNodeState.c:45-57 | after an update a zone's own and children's ticks make up the totals of its outermost nodes only, so recursion is never counted twice, wrap-around included |
| `ShinyTicks.RootTotalIsAll` | 3rdparty/Shiny/src/ShinyNodeState.c:103-104 | the root's own and children's ticks make up every tick recorded in the tree |
| `ShinyTicks.UpdateSettles` | 3rdparty/Shiny/src/ShinyNodeState.c:92-107 | every node ends with its own ticks and with the sum of its children's totals, and its pending ticks are taken |
| `ShinyUpdate.Push` | 3rdparty/Shiny/src/ShinyNodeState.c:36-60 | pushing a node takes its ticks and charges its zone as the model says |
| `ShinyUpdate.FinishAndGetNextClean` | 3rdparty/Shiny/src/ShinyNodeState.c:92-107 | finishing a node charges its zone and its parent as the model says and gives the next sibling |
| `ShinyUpdate.UpdateTreeClean` | 3rdparty/Shiny/src/ShinyNode.c:71-89 | the explicit stack visits the tree depth first, carries out all its pushes and finishes in order, and ends |
| `ShinyUpdate.UpdateClean` | 3rdparty/Shiny/src/ShinyManager.c:108-119 | a whole update, fields to fields: zones, root and nodes are charged as above |
| `OddProbing.StepsAreDistinct` | 3rdparty/Shiny/src/ShinyManager.c:101-107 | because the step is odd, two of the first probes of a hash, as many as the table has slots, never share a slot |
| `OddProbing.StepsReachEverySlot` | 3rdparty/Shiny/src/ShinyManager.c:101-107 | the probes of a hash visit every slot of a power-of-two table before any slot comes again |
| `OddProbing.NextStep` | 3rdparty/Shiny/src/ShinyManager.c:204-204 | adding the step in a 32-bit word and masking goes from each probe to the next, wrap-around included |
| `ShinyTable.ProbesMeetUnused` | 3rdparty/Shiny/src/ShinyManager.c:201-211 | in a table with fewer nodes than slots the probes of every hash meet an unused slot within the table size |
| `ShinyTable.UnusedMeansAbsent` | 3rdparty/Shiny/src/ShinyManager.c:186-213 | a search that met an unused slot before the node has shown that there is no such node |
| `ShinyTable.PutKeepsTable` | 3rdparty/Shiny/src/ShinyManager.c:264-276 | a node put where its search ended is found, and every other node is still found |
| `ShinyPools.RoomInLast` | 3rdparty/Shiny/src/ShinyNodePool.c:36-46 | only the last pool has room, and exactly as much as all pools together, so an item is taken beyond a pool only when all are used up |
| `ShinyManager.ShinyManager.HalfFull` | 3rdparty/Shiny/src/ShinyManager.c:233-247 | in every state the table is at most half full, and once initialized the pools have exactly half as many items as the table has slots |
| `ShinyManager.ShinyManager.InsertNode` | 3rdparty/Shiny/src/ShinyManager.c:264-276 | ends for every node and adds it to the table |
| `ShinyManager.ShinyManager.ResizeNodeTable` | 3rdparty/Shiny/src/ShinyManager.c:323-339 | the new table finds exactly the items of all pools |
| `ShinyManager.ShinyManager.LookupNode` | 3rdparty/Shiny/src/ShinyManager.c:183-259 | gives the one node of the current node and the zone, made exactly when there was none, through first use and growth; the tree, the zone chain, the table and the pools stay sound |
| `ShinyManager.ShinyManager.LookupAndBeginNode` | 3rdparty/Shiny/include/ShinyManager.h:159-168 | enters the one node of the current node and the zone, whether the call site remembered it or not; the ticks since the last call go to the node that was left, and to no other |
| `ShinyManager.ShinyManager.EndCurNode` | 3rdparty/Shiny/include/ShinyManager.h:170-177 | goes back to the parent; the ticks since the last call go to the node that was left |
| `ShinyManager.ShinyManager.UpdateClean` | 3rdparty/Shiny/src/ShinyManager.c:150-160 | in every state that is valid the nodes are a tree the update visits whole: zones and nodes are charged as above, and the root shows exactly the ticks that went by since the last update |
| `ShinyManager.ShinyManager.SortZones` | 3rdparty/Shiny/include/ShinyManager.h:189-192 | sorts the zones behind the root by their averages and loses none; the manager stays valid exactly when it does not know exactly one zone behind the root, which leaves no last zone |
| `ShinyManager.ShinyManager.Destroy` | 3rdparty/Shiny/src/ShinyManager.c:174-178 | goes back to the first state and hides every zone; a call site's cache is sound afterwards exactly when it made a node or held none |
| `ShinyManager.StaleCache` | 3rdparty/Shiny/src/ShinyManager.c:353-372 | two call sites that share a zone: after everything was thrown away the second still holds the destroyed node |
| `ShinyNodes.ShinyNode.AddChild` | 3rdparty/Shiny/include/ShinyNode.h:70-79 | the child becomes the last of its parent's children |
| `ShinyTree.FamilyIsTree` | 3rdparty/Shiny/src/ShinyNode.c:71-89 | nodes linked one by one as they are made are a tree without repetition that holds all of them |
| `ShinyTree.FindNextInTree` | 3rdparty/Shiny/src/ShinyNode.c:94-111 | the node after a node in the preorder of the tree, or none after the last |
| `ShinyTree.PreorderOnce` | 3rdparty/Shiny/src/ShinyNode.c:94-111 | the preorder names every node exactly once |
| `ZoneSort.Move` | 3rdparty/Shiny/src/ShinyZone.c:161-169 | the first record of one tape becomes the last of another, by relinking |
| `ZoneSort.MergeRuns` | 3rdparty/Shiny/src/ShinyZone.c:130-171 | merges the first run of two tapes into one sorted run, and loses no record |
| `ZoneSort.MergePass` | 3rdparty/Shiny/src/ShinyZone.c:121-172 | a pass drains both source tapes together and deals sorted runs of twice the length alternately to the others |
| `ZoneSort.SortChain` | 3rdparty/Shiny/src/ShinyZone.c:90-183 | two or more records end as a null-terminated list of the same records, largest average first, with its true last record; fewer are left alone and no last record is returned |
| `ArgSplitter.BodyToQuote` | 3rdparty/exec-stream/posix/exec-stream-impl.cpp:103-121 | what the search for the next quote says of a quoted text: closed there, or kept by a backslash, or never closed |
| `ArgSplitter.CopyArguments` | 3rdparty/exec-stream/posix/exec-stream-impl.cpp:79-125 | the program and every argument with their NULs are written in order and fit in the buffer, whose size is fixed before the line is read |
| `ArgSplitter.SplitArgs` | 3rdparty/exec-stream/posix/exec-stream-impl.cpp:79-135 | the buffer holds the program and the arguments, each closed by a NUL, and there is a pointer to each and a null pointer behind them |
| `ArgSplitter.QuotingRoundTrips` | 3rdparty/exec-stream/posix/exec-stream-impl.cpp:101-122 | arguments put in quotes with a backslash before each quote are split back exactly when none of them ends in a backslash |
| `ArgSplitter.TypedLineSplits` | 3rdparty/exec-stream/posix/exec-stream-impl.cpp:86-122 | bare and quoted arguments, mixed, with any of the five white-space characters before, between and behind them, are split into what was typed |
| `ArgSplitter.BareSplitsIff` | 3rdparty/exec-stream/posix/exec-stream-impl.cpp:88-100 | a word is split back without quotes exactly when it is not empty, holds no white space and does not start with a quote |
| `ShellQuote.MustBeQuoted` | src/lib/parse-options.cc:194-233 | true exactly for the empty string and strings with a character other than letters, digits and the punctuation listed |
| `ShellQuote.QuoteAndEscape` | src/lib/parse-options.cc:250-285 | double quotes when a single quote occurs and nothing that double quotes interpret does, otherwise single quotes with every single quote escaped |
| `ShellQuote.EchoArguments` | src/lib/parse-options.cc:374-380 | the line is every argument escaped and followed by a space, then a line feed |
| `ShellQuote.EchoRoundTrips` | src/lib/parse-options.cc:288-291 | reading the echoed line by the quoting rules of the POSIX shell, which take every special character for an operator, an expansion or a pattern, gives back exactly the arguments |
| `ShellQuote.EchoRoundTripsStrictly` | src/lib/parse-options.cc:194-233 | a reader that also minds where a character stands gets them back exactly when no argument that is printed bare starts with a number sign or a tilde or holds an opening bracket |
| `ShellQuote.EchoIsInjective` | src/lib/parse-options.cc:374-380 | no two command lines are echoed alike |
| `ShellQuote.UnquotedExactlyWhenPlain` | src/lib/parse-options.cc:288-291 | an argument is printed without quotes exactly when it is a non-empty word of letters, digits and the punctuation listed |

## Left out

- Weighted transducers, transition models, acoustic scores and the OpenFst and Kaldi calls (composition, shortest path, epsilon removal, tables and archives) are inputs of the model or outside it; the cache behind `ArcExpandFstImpl` is taken to append pushed arcs.
- Floating-point rounding in the decoders, and averages, damping and time units in the profiler.
- The order in which the token hash list is visited is arbitrary here, which covers every order; reference counting, deletion of tokens and resizing of that list are not modelled.
- Lattice generation, garbage collection, n-best lists and minimum Bayes risk in the level decoder, and its expansion of emitting arcs; a search state is its token cost, its arcs, its index and its queue flag.
- Timeouts are steps the environment may take; `abort_thread`, a second `start`, and exceptions of the worker that leave the error code at zero are not modelled, nor are `pipe_t`, fork and exec, signals and select itself.
- FasterDecoder.FasterDecoderMod.GetBestPath: stops before `RemoveEpsLocal`, which is not part of this model.
- ArcExpandFst.ArcExpandFstImpl.Expand: takes valid source and sub-machines; the error reports for states out of bounds and bad elements are excluded by that.
- ClevelDecoder.CLevelDecoder.ExpandEpsilonArcs: takes runs that finish, since a method has to return; the runs that do not are the subject of EpsilonTermination.
- BufferList.BufferList.Detach: chunks are values; that a chunk handed out is the memory of the queue is not modelled.
- HashMap.HashMap.Assign: takes both maps to use the same hash function, as the source does.
- The iterators of the hash map, `swap`, erasure of ranges and allocators; a capacity beyond the range of an int.
- RbTree.RbTree.Insert: keys are integers and carry no further value; `clear`, `swap` and the traversal callbacks are not modelled.
- RadixSorter.RadixSorter.Sort: unsigned keys and the internal buffer only; the signed offsets are not modelled, and neither is the form with a caller's buffer, which reads the internal one.
- ZoneSort.SortChain: averages are compared as integers, so infinities and not-a-number are excluded; they are read here and changed by nothing modelled.
- ShinyUpdate.UpdateTreeClean: entry counts and averages are left out; the damped update differs only in averages.
- ShinyManager.ShinyManager.LookupNode: takes a zone the manager knows or a hidden one, a call site's cache that is not stale, and at most 2^30 nodes, beyond which the table size does not fit in 32 bits; the hash is an arbitrary word made of the two addresses.
- ShinyPools.ShinyNodePool.NewItem: an item is made when it is taken, where the source takes zeroed memory; freeing memory is not modelled.
- Sorting.QuickSort: the order is a strict weak one, as the source needs; insertion sort is not modelled.
- ArgSplitter.SplitArgs: program and arguments hold no NUL; the form that takes arguments one by one is not modelled.
- ShellQuote.EchoRoundTrips: words that assign a variable in front of a command, history expansion and other extensions of a shell are outside the reader; arguments hold no NUL, and letters and digits are those of ASCII.
- Option parsing itself, fixed and intrusive lists, and statistics of the processor and memory.
