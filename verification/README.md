# A verified model of the dex engine

This project models the C++ core of a dex decompiler and analyser and proves what that
core promises. It has six parts.

**Control-flow structuring** (`Graphs`, `IntervalAnalysis`, `IntervalLaws`,
`DerivedSequence`, `Conditions`, `Fusion`, `FusionRuns`, `CleanRuns`, `SealingExample`,
`ShortCircuit`, `Dominators`, `DominatorSearch`, `DominatorForest`, `LengauerTarjan`,
`DominatorChanges`, `FusionDominators`). A worklist partitions a control-flow graph into
intervals and repeats this on the graph of intervals until one interval is left. A second
pass fuses pairs of conditional blocks into `&&` and `||`. The classes `Graph`, `Interval`,
`CondNode` and `Pass` carry the fields the C++ classes update in place. A `Flow` is a graph
as a value, a `Prog` is a graph of blocks as a value, and `Prog.Walk` runs tests against a
stream of operands, recording which tests were run and which plain block was reached.
`FusionRuns` and `CleanRuns` say exactly when a whole run of fusions keeps those walks;
`ShortCircuit` is the pass in place, whose every run is such a run and ends where its rule
finds nothing more to fuse. Immediate dominators are defined by paths (`IsIdom`); what
depth-first numbers and semidominators say about them is proved apart from the algorithm
that computes them. `DominatorChanges` says what they become when edges go and when a node
is drawn into another, and `FusionDominators` what that means for the map the pass carries.

**Register origins at invokes** (`InvokeCfg`, `OriginFlow`, `OriginSoundness`,
`OriginLaws`, `OriginPairs`, `PairFlow`, `PairExact`, `PairTypes`, `PairInputs`,
`InvokeArgs`). Basic blocks come from one linear pass. For each block with an
invoke, a backward window of blocks is resolved farthest first, and each argument register
is reported with the origin of its value. The functions in `OriginFlow` are the
specification; the methods in `InvokeCfg` and `InvokeArgs` are the loops. The meaning of a
report is given independently, by a register machine that runs along paths of instructions,
and by a second one that knows 64-bit pairs. `PairFlow` holds the analysis as it is but with
every width kept, and `PairExact` and `PairTypes` say by it when a report is true of pairs.

**The load-time gate and the readers behind it** (`EncodedValue`, `EncodedReaders`,
`EncodedText`, `EncodedScan`, `Mutf8`, `StringTable`, `CodeItem`, `MethodHandles`, and
`ByteForms`, `EncodedForms`, `EncodedPrint`, `CodeItemForms`, `MethodHandleForms`). The
format is a parser over bytes (`ParseValue`, `Decode`, `ParseHandler`), and, apart from it,
a writer of values, code items and handles in the modules named for their forms; each parser
is proved against its writer. `EncodedPrint` reads rendered text back. The gate accepts
exactly what parses, and every reader behind it is shown to stop where the gate stopped and
to read what the parser says. The encoding follows the sections "encoded_value encoding" and
"MUTF-8 (Modified UTF-8) Encoding" of the Dalvik Executable format.

**Multi-dex images** (`Containers`, `DexLayout`). An image is cut into logical dexes, the order in which
the Android runtime would open them is followed, and v41 containers survive only whole.

**The result cache** (`Cache`, `CacheRuns`). The recency list and its index as a class, and
any interleaving of any number of callers as a state machine over their critical sections.

**Smali string escaping** (`SmaliEscape`). UTF-16 to code points to escaped characters to
UTF-8, with an inverse for each stage.

`Options` and `Sequences` hold an option type and facts about ascending sequences.

## What turned out not to hold

* The short-circuit pass does not always preserve meaning. `Graph::preds` hides predecessors
  that are catch-handler blocks, so the check "one predecessor" does not see them, and an edge
  from such a block to a fused block is dropped. A program whose entry is the second block
  then starts at the first. For one fusion `Fusion.FaithfulIffClean` gives the exact
  condition. For a whole run there are two. `FusionRuns.MeaningIffPrivateAndSpared`: on
  every wired program whose tests are instructions of their own and whose conditional blocks
  are come to along normal edges, the run keeps all walks and all edges of plain blocks if
  and only if each fusion absorbed a block that only its partner led to and no plain
  catch-handler block led to a fused one. The branch targets that such fusions leave stale
  are mapped here, as they are later in the same driver
  (native/dad_cpp/control_flow.cpp:740-742). Without that mapping,
  `CleanRuns.SimulatesIffClean`: where, besides, no conditional block outside catch handlers
  branches to one inside, if and only if every single fusion was clean. Without that last
  condition the second law fails: `SealingExample.UncleanYetFaithful` is a run whose first
  fusion loses an edge that the fourth puts back. `ShortCircuit.Pass.BreaksEntryLoop` runs
  the pass on a method with a loop at its entry, which it breaks.
* Fusing takes conditions out of their try ranges: the exception edges out of and into both
  blocks go and none is put back (`ShortCircuit.Pass.MergeShortCircuit`), so a handler that
  starts with a fused condition is no longer come to. A run loses an exception edge exactly
  if it fuses the block at one of its ends (`ShortCircuit.Pass.ShortCircuitStruct`).
* The map of immediate dominators that the pass keeps is not always right of the fused graph.
  Mapped through the record of replaced blocks it is the old map with every fused pair
  renamed. If each absorbed block had its partner for immediate dominator, that is right
  exactly if it is right at the blocks that lost an edge (`FusionDominators.RunTells`). After
  a clean run in a method whose handlers do not start with a condition it is right exactly if
  it is at the handlers of fused blocks, and so always if these had none
  (`FusionDominators.CleanRunTells`).
  `FusionDominators.GuardedPairSpoils` is a method on which it goes wrong, and a fusion
  whose second block is the entry spoils it always (`FusionDominators.EntrySecondSpoils`).
* The intervals of a graph are a partition only if every node is reachable, unless there is
  just one interval (`IntervalLaws.PartitionNeedsReachable`). What the worklist does on any
  other graph, one without an entry included, is stated too (`IntervalAnalysis.Intervals`).
* A reported origin may be the lower half of a 64-bit pair whose upper half was overwritten
  since. The entry state takes every parameter for a single register, which is true of the
  pairs among them exactly if there are none (`PairFlow.EntryKeepsPairs`); and the meet
  compares origins and keeps the width of its first side, which is true of every side exactly
  if the first is the widest (`PairFlow.MeetPredsKeepPairs`, `PairFlow.InKeepsPairs`).
  `PairInputs.LongParameterBreaks` and `PairInputs.TwoReadsBreak` are methods on which each
  goes wrong, the second from depth one on. In any code a report is true on all paths if and
  only if the same analysis still makes it when it keeps every width and leaves out the blocks
  that control never reaches (`PairExact.UnbrokenIffWide`). Where every origin is defined,
  moved and fetched with one width, that fails for nothing but parameters that are pairs
  (`PairTypes.TypedIsUnbroken`); a result that is fetched behind anything but an invoke with a
  method needs no width (`PairInputs.FilledArrayHasWidths`).
* Rendering a condition negates its first part in place when it is marked for negation, so
  rendering the same tree twice gives the same text if and only if nothing is marked
  (`Conditions.PrintTwice`).
* The string scanner counts items in 64 bits and the gate in 32. It keeps step unless some
  declared size needs more than 32 bits (`EncodedScan.ScanEncodedValueStrings`,
  `EncodedScan.WrappedSize`).
* The memo of method handle sections is keyed by an offset from the data base. With two
  self-contained dexes in one image it can accept a section it never walked
  (`MethodHandles.MemoAcrossBases`). In any run over any bases a verdict is the fresh walk's,
  unless refused, if and only if the section was not accepted before or passes the slice's
  tables at its own base just when it does at the base where it was first accepted
  (`MethodHandles.VerdictIffAlike`).
* The comment at native/dad_cpp/control_flow.cpp:466-481 expects runs that reach the
  iteration cap. With the graph's own `remove_node` the cap is unreachable.
* The comment in native/dad_cpp/mutf8.cpp says that a malformed sequence costs one byte; the
  code has by then consumed the continuation bytes it found. The model follows the code.
* The sibling rule of containers is applied only when some slice of the image is rejected.

## Model

| member | source | states |
|---|---|---|
| Graphs.Graph.AddEdge | native/dad_cpp/graph.cpp:85-95 | forward and reverse tables stay mirror images without duplicates, and exactly the one edge is added |
| Graphs.Graph.RemoveNode | native/dad_cpp/graph.cpp:119-185 | the node leaves the node list, the order and both directions of both edge kinds, and no other edge changes |
| Graphs.Graph.PostOrder | native/dad_cpp/graph.cpp:232-263 | the iterative traversal lists every reachable node once, the entry last, in the very order in which the recursive traversal leaves them; an edge to a node listed later closes a cycle |
| Graphs.Graph.ComputeRpo | native/dad_cpp/graph.cpp:265-277 | the order holds exactly the graph's nodes, each once, sorted by number, and for a fully reachable graph starts with the entry; numbers go down from below the node count plus one in that order and no other changes, so an edge goes up in number unless it closes a cycle |
| Dominators.CommonAncestor | native/dad_cpp/graph.cpp:477-511 | every path to a node that was not entered before its start passes a common ancestor of both in the depth-first tree |
| Dominators.FirstOfferIsSemi | native/dad_cpp/graph.cpp:549-553 | the least number among the earlier predecessors and the semidominators of their later ancestors is that of the semidominator, which is defined by paths |
| Dominators.SemiIsIdom | native/dad_cpp/graph.cpp:557-568 | where no node on the way down from the semidominator has an earlier one, the semidominator is the immediate dominator |
| Dominators.IdomOfBest | native/dad_cpp/graph.cpp:571-580 | otherwise it is the immediate dominator of the node on that way whose semidominator is the first |
| Dominators.IdomIsUnique | native/dad_cpp/graph.cpp:463-584 | a reachable node has at most one immediate dominator |
| DominatorSearch.Search | native/dad_cpp/graph.cpp:474-511 | exactly the reachable nodes are numbered, parents make a depth-first tree of them, and the predecessors kept are the reachable ones, each |
| DominatorForest.Compress | native/dad_cpp/graph.cpp:512-531 | afterwards the node points to a root, and every label in the forest still has the first semidominator of all nodes its shortcut skips |
| DominatorForest.Eval | native/dad_cpp/graph.cpp:532-538 | the answer has the first semidominator of all ancestors in the forest; a node outside it answers itself |
| LengauerTarjan.FindSemi | native/dad_cpp/graph.cpp:547-555 | after all predecessors were queried, in any order, the number kept is that of the semidominator |
| LengauerTarjan.NextNode | native/dad_cpp/graph.cpp:555-561 | when a node is taken, every later node is decided, waits in its bucket for a child still to come, or is in the bucket taken out now |
| LengauerTarjan.Drain | native/dad_cpp/graph.cpp:557-568 | every node of the bucket is decided, in any order, and the nodes decided before stay so |
| LengauerTarjan.Settle | native/dad_cpp/graph.cpp:571-580 | one pass in ascending order leaves every node its immediate dominator |
| LengauerTarjan.DomLt | native/dad_cpp/graph.cpp:463-584 | the map has exactly the reachable nodes, the entry with none, and every other with its immediate dominator: the node that dominates it and that all its other dominators dominate |
| IntervalAnalysis.Interval.AddNode | native/dad_cpp/node.cpp:89-95 | a node is added once, and the result tells whether it was new |
| IntervalAnalysis.Grow | native/dad_cpp/control_flow.cpp:41-55 | on any graph the sweeps end with an interval into which every member but the header came with all predecessors inside, and to which no swept node can be added |
| IntervalAnalysis.CollectHeaders | native/dad_cpp/control_flow.cpp:56-68 | the headers found are exactly the nodes outside that the interval leads to and that are not already waiting |
| IntervalAnalysis.Intervals | native/dad_cpp/control_flow.cpp:17-97 | terminates on every graph: intervals grow from distinct headers, the entry first, until nothing is left to absorb, recorded edges lead out of their interval and to headers, whatever an edge leads to from a covered node is covered, and the derived graph has exactly the recorded edges and starts at the last interval that absorbed the entry; without an entry there is none. Where all nodes are reachable and the entry comes first in the order, the intervals are a partition entered along recorded edges; headers take their turn in the order in which they were first recorded, an interval records exactly the nodes it leads to that do not wait behind its header, and so the first interval after another that leads back to its header records it |
| IntervalAnalysis.StepPending | native/dad_cpp/control_flow.cpp:30-71 | one worklist step keeps: every recorded header waits or heads an interval, each unprocessed one was recorded once, and every edge out of the covered part leads to a waiting header |
| IntervalAnalysis.EmptyWorklistDivides | native/dad_cpp/control_flow.cpp:30-71 | once the worklist is empty every node is covered |
| IntervalAnalysis.BacksMore | native/dad_cpp/control_flow.cpp:56-68 | what leads back to an earlier header records it, unless an interval in between did |
| IntervalLaws.ExactlyOneInterval | native/dad_cpp/control_flow.cpp:17-71 | every node lies in exactly one interval |
| IntervalLaws.OrphanSpoilsPartition | native/dad_cpp/control_flow.cpp:45-54 | a node without predecessors, the entry aside, is absorbed by every interval, so two intervals are no partition |
| IntervalLaws.HeaderDominates | native/dad_cpp/control_flow.cpp:41-55 | every path from the entry to a member passes the header and then stays inside |
| IntervalLaws.CycleThroughHeader | native/dad_cpp/control_flow.cpp:41-55 | every cycle inside one interval passes through its header |
| IntervalLaws.IntervalIsMaximal | native/dad_cpp/control_flow.cpp:41-55 | no other absorbing order from the same header reaches a node the interval lacks |
| IntervalLaws.IntervalsAreUnique | native/dad_cpp/control_flow.cpp:41-55 | intervals with the same header have the same members, in whatever order nodes were swept |
| IntervalLaws.PartitionIsUnique | native/dad_cpp/control_flow.cpp:30-71 | any two partitions of a graph have the same headers and the same intervals |
| IntervalLaws.PartitionNeedsReachable | native/dad_cpp/control_flow.cpp:45-54 | from two intervals on, a partition exists only if every node is reachable |
| IntervalLaws.IntervalReachable | native/dad_cpp/control_flow.cpp:81-94 | every interval is reachable from the entry interval along recorded edges |
| IntervalLaws.DerivedGraph | native/dad_cpp/control_flow.cpp:69-97 | the graph built of the intervals is fully reachable and has exactly the recorded edges |
| IntervalLaws.LastHasLonePred | native/dad_cpp/control_flow.cpp:56-68 | the interval created last is entered from exactly one other interval, reducible graph or not |
| IntervalLaws.LonePredIsNoHead | native/dad_cpp/control_flow.cpp:45-54 | a node with one predecessor, other than itself, never becomes a header |
| IntervalLaws.FewerIntervals | native/dad_cpp/control_flow.cpp:102-118 | a graph with such a node has strictly fewer intervals than nodes |
| DerivedSequence.DerivedSequenceOf | native/dad_cpp/control_flow.cpp:102-118 | terminates on every fully reachable graph: each derived graph after the first is strictly smaller, and only the last has one node; the recorded graphs are the input and the derived graphs of more than one node; in every round headers took their turns so, and the derived graph has exactly the edges recorded |
| DerivedSequence.ContainedOnce | native/dad_cpp/node.cpp:77-87 | at every level each node of the input lies, nested, in exactly one interval |
| DerivedSequence.LastHoldsAll | native/dad_cpp/control_flow.cpp:102-118 | the last interval holds every node of the input, nested |
| Conditions.NegIsExact | native/dad_cpp/basic_blocks.cpp:301-308 | negating a tree, parts marked for negation included, negates its printed value and keeps the tests run and their order |
| Conditions.NegTwice | native/dad_cpp/basic_blocks.cpp:301-308 | negating twice gives the tree back |
| Conditions.FirstAsked | native/dad_cpp/writer.cpp:216-226 | the first test run is the leftmost leaf, negated or not |
| Conditions.PrintTwice | native/dad_cpp/dast.cpp:447-454 | a second rendering gives the same expression if and only if no part is marked for negation |
| Conditions.EvalRuns | native/dad_cpp/writer.cpp:216-226 | an evaluation runs tests of the tree only, the leftmost first |
| Conditions.SecondGuarded | native/dad_cpp/writer.cpp:216-226 | in a joined condition the second part's first test only ever runs just after a test of the first part |
| Conditions.Steer | native/dad_cpp/writer.cpp:216-226 | every tree comes out either way for some operands, whatever follows |
| Conditions.CondNode.Neg | native/dad_cpp/basic_blocks.cpp:260-271 | the in-place negation of the shared tree is the negation of its value |
| Conditions.CondNode.Visit | native/dad_cpp/writer.cpp:216-226 | rendering yields the tree's expression and leaves the tree as the in-place negation leaves it |
| Fusion.FusedEval | native/dad_cpp/control_flow.cpp:515-554 | in each of the four shapes one evaluation of the fused condition is the walk through the two blocks: same tests, same order, same block reached |
| Fusion.CleanWalk | native/dad_cpp/control_flow.cpp:402-459 | after a clean fusion every walk from a surviving block, and from the first block renamed, runs the same tests and ends in the same place |
| Fusion.CleanWired | native/dad_cpp/control_flow.cpp:425-457 | after a clean fusion branch targets and edges still agree |
| Fusion.FaithfulIffClean | native/dad_cpp/control_flow.cpp:402-459 | a fusion keeps all successors and walks if and only if only the first block leads to the second, no catch-handler block leads to the first, and the program does not start at the second |
| Fusion.CatchEdgeLost | native/dad_cpp/graph.cpp:58-67 | the edge of a catch-handler block to a fused block is gone afterwards |
| Fusion.EntryLoopIsBroken | native/dad_cpp/control_flow.cpp:418-457 | a loop at the method entry with a fusion the pass's checks admit, after which its tests run in another order |
| Fusion.SimulatesStep | native/dad_cpp/control_flow.cpp:504-557 | clean fusions compose: the graph after one more still runs the original's tests between the original's plain blocks |
| Fusion.TameIsClean | native/dad_cpp/control_flow.cpp:515-535 | on a tame graph every fusion the pass chooses is clean |
| Fusion.TameStep | native/dad_cpp/control_flow.cpp:504-557 | a fusion of a tame graph leaves a tame graph |
| FusionRuns.DistinctStep | native/dad_cpp/control_flow.cpp:420-425 | a fusion keeps every test an instruction of its own |
| FusionRuns.FaithfulInRun | native/dad_cpp/control_flow.cpp:402-459 | along a run from such tests, each fusion of a wired program is faithful exactly when it is clean |
| FusionRuns.StemsStep | native/dad_cpp/control_flow.cpp:426-457 | through any fusion, clean or not, the map of replaced blocks leads to live blocks, edges go only to what targets stand for, and plain blocks stay |
| FusionRuns.SharedSecondBreaks | native/dad_cpp/control_flow.cpp:515-554 | absorbing a block that anything but its partner leads to makes a test run out of order |
| FusionRuns.OutOfOrderPersists | native/dad_cpp/control_flow.cpp:489-560 | no later fusion puts it back in order |
| FusionRuns.PrivateTrace | native/dad_cpp/control_flow.cpp:515-554 | absorbing a block that only its partner leads to changes no walk along what targets stand for |
| FusionRuns.WalksIffPrivate | native/dad_cpp/control_flow.cpp:489-560 | with targets mapped to what they became, as is done right after the pass, a run keeps every walk from the entry and from plain blocks if and only if every fusion was of that kind |
| FusionRuns.MeaningIffPrivateAndSpared | native/dad_cpp/control_flow.cpp:489-560 | with targets mapped in the end, a run keeps all walks and where every plain block leads if and only if every fusion was of that kind and no plain catch-handler block led to a fused one |
| CleanRuns.LostPersists | native/dad_cpp/graph.cpp:58-67 | an edge a plain catch-handler block has lost stays lost |
| CleanRuns.SimulatesIffClean | native/dad_cpp/control_flow.cpp:489-560 | where no conditional block outside catch handlers branches to one inside, a run keeps the meaning if and only if every fusion was clean |
| CleanRuns.TameRunIsClean | native/dad_cpp/control_flow.cpp:489-560 | on a tame graph every fusion of every run is clean |
| CleanRuns.LoopHasOneFusion | native/dad_cpp/control_flow.cpp:506-554 | the loop at the method entry admits exactly one fusion, of its bottom test with its header, and it is not clean |
| CleanRuns.LoopRunBreaks | native/dad_cpp/control_flow.cpp:489-560 | every run that fuses anything on that loop changes its meaning |
| SealingExample.UncleanYetFaithful | native/dad_cpp/control_flow.cpp:450-456 | a run of four fusions, the first of them unclean, that keeps the meaning: its program leads from outside a catch handler into one |
| ShortCircuit.Pass.MergeShortCircuit | native/dad_cpp/control_flow.cpp:402-459 | the in-place surgery leaves exactly the graph of the specification, with one node fewer; the exception edges out of and into both blocks go and the new block has none; in the map the new block takes over the entry of the first |
| ShortCircuit.Pass.Visit | native/dad_cpp/control_flow.cpp:506-556 | a visited block is fused exactly when the rule finds a pair, with that pair in that shape, and otherwise nothing changes |
| ShortCircuit.RuleFindsPair | native/dad_cpp/control_flow.cpp:506-556 | the rule finds a pair wherever one may be fused, except that a false target is not tried beside a true target with one visible caller |
| ShortCircuit.Pass.Sweep | native/dad_cpp/control_flow.cpp:503-559 | a sweep that fuses nothing leaves no reachable block the rule would fuse |
| ShortCircuit.Pass.ShortCircuitStruct | native/dad_cpp/control_flow.cpp:462-561 | terminates without reaching the iteration cap, after a legal run of fusions, where the rule fuses nothing more; the run keeps walks and meaning exactly under the laws above, and always on tame graphs; of the exception edges it loses exactly those at a block it fused; the map of immediate dominators becomes the old one renamed, right exactly as the laws below say |
| ShortCircuit.Pass.BreaksEntryLoop | native/dad_cpp/control_flow.cpp:462-561 | run on the loop at the method entry, the pass changes its meaning |
| ShortCircuit.Pass.UpdateDom | native/dad_cpp/control_flow.cpp:382-388 | every entry that names a replaced block names the block it became part of, and no other changes |
| DominatorChanges.EdgesLost | native/dad_cpp/graph.cpp:119-185 | a right map stays right when edges go if and only if each node that lost one, if it was reached, still is and keeps its immediate dominator |
| DominatorChanges.DrawnTells | native/dad_cpp/control_flow.cpp:426-433 | drawing a node into its immediate dominator leaves a right map right, with both renamed |
| FusionDominators.MovedIsDrawn | native/dad_cpp/control_flow.cpp:426-433 | entries left stale by a fusion and mapped in the end are as if they had been renamed at once |
| FusionDominators.ReflectsStep | native/dad_cpp/control_flow.cpp:402-459 | every edge after a fusion comes from an edge of the original whose ends became its ends |
| FusionDominators.ImageTells | native/dad_cpp/control_flow.cpp:489-560 | over a run whose absorbed blocks had their partners for immediate dominators the map stays right of the original graph with blocks renamed and no edge lost |
| FusionDominators.RunTells | native/dad_cpp/control_flow.cpp:489-560 | after such a run the map is right of the fused graph if and only if it is at every block that lost an edge |
| FusionDominators.CleanIsPartnered | native/dad_cpp/control_flow.cpp:508-556 | in a clean run, where no exception edge leads to a condition, absorbed blocks do have their partners for immediate dominators |
| FusionDominators.CleanRunTells | native/dad_cpp/control_flow.cpp:489-560 | after such a run the map is right if and only if it is at the handlers of fused blocks |
| FusionDominators.EntrySecondSpoils | native/dad_cpp/control_flow.cpp:431-457 | a fusion whose second block is the entry leaves a wrong map |
| FusionDominators.GuardedPairSpoils | native/dad_cpp/control_flow.cpp:402-433 | a clean fusion of a guarded test, after which the map names the fused block for a handler that only another block comes to |
| InvokeCfg.BuildCfg | native/core_ext/invoke_args.cpp:115-275 | block starts are exactly the leaders, predecessor lists are exactly the blocks with an instruction leading to the start, and the handler and invoke marks are exact |
| InvokeCfg.CollectLeaders | native/core_ext/invoke_args.cpp:234-247 | the leaders are the first instruction, visited targets, what follows a branch or a non-falling instruction, and handlers |
| InvokeCfg.BlockOf | native/core_ext/invoke_args.cpp:68-73 | the block found starts at or before the offset and the next one after it |
| InvokeCfg.FallLeaves | native/core_ext/invoke_args.cpp:261-266 | falling through is an edge to a block exactly when the next instruction starts another block |
| OriginSoundness.StepSound | native/core_ext/invoke_args.cpp:405-740 | the transfer of every instruction, wide writes included, keeps each known origin the last write to the register |
| OriginSoundness.OnlyFalls | native/core_ext/invoke_args.cpp:234-247 | control reaches an instruction that starts no block only from the one before it in the same block |
| OriginSoundness.Within | native/core_ext/invoke_args.cpp:373-744 | within a block the simulation is true of every path that reaches it |
| OriginSoundness.InIsSound | native/core_ext/invoke_args.cpp:797-818 | the state met at a block start is true on every path to it, whichever predecessors were resolved |
| OriginSoundness.ReportedIsLastWrite | native/core_ext/invoke_args.cpp:318-830 | at every depth and with every budget outcome, a reported origin is the last write to the register on every path from the entry or from a handler with arbitrary registers |
| OriginPairs.StepKeepsPairs | native/core_ext/invoke_args.cpp:384-416 | against a machine where a write to the upper half breaks a pair, the transfer keeps each known origin true: the register below a write is dropped where it may hold a pair |
| OriginPairs.RunKeepsPairs | native/core_ext/invoke_args.cpp:373-744 | so does the simulation of a whole block |
| OriginPairs.MeetKeepsPairs | native/core_ext/invoke_args.cpp:360-368 | one meet of two states keeps it for the first side always, and for the second if and only if no register known alike to both is a pair there only |
| PairFlow.EntryKeepsPairs | native/core_ext/invoke_args.cpp:339-349 | the state at the method entry is true of every machine entering with these pairs among the parameters if and only if there are none |
| PairFlow.MeetPredsKeepPairs | native/core_ext/invoke_args.cpp:360-368 | the meet of all states that come together is true of every one of them if and only if no register known alike to all is a pair to one of them and not to the first |
| PairFlow.InKeepsPairs | native/core_ext/invoke_args.cpp:797-818 | so is what a block is started from, where the method entry comes first and knows of no pair |
| PairExact.UnbrokenIffWide | native/core_ext/invoke_args.cpp:318-830 | at every depth and with every budget outcome, a reported origin is unbroken on every path, as half of a pair too, if and only if the analysis still reports it when it keeps every width and leaves out blocks that are never reached |
| PairTypes.TypedIsUnbroken | native/core_ext/invoke_args.cpp:318-830 | in code that defines, moves and fetches every origin with one width, where a fetched result may be no method's, a reported origin that is no parameter pair is unbroken on every path |
| PairTypes.PairsKeptIffWide | native/core_ext/invoke_args.cpp:318-830 | all reports of a method are unbroken if and only if keeping every width and leaving out unreached blocks gives the same reports |
| PairInputs.LongParameterBreaks | native/core_ext/invoke_args.cpp:339-349 | a method of one long parameter that overwrites its upper half and passes it on: reported at every depth, and broken |
| PairInputs.TwoReadsBreak | native/core_ext/invoke_args.cpp:360-368 | a join of one origin written narrow by the first predecessor and as a pair by the second, its upper half overwritten behind the join: reported at every depth from one, and broken |
| PairInputs.FilledArrayHasWidths | native/core_ext/invoke_args.cpp:373-744 | a method that fetches the result of a filled new array, with switch data behind its end, has widths |
| OriginLaws.StepKnowsExactly | native/core_ext/invoke_args.cpp:404-740 | after an instruction a register's origin is known exactly when the instruction gives it, or it was known before and the register was neither written nor the lower half of a wide value just broken |
| OriginLaws.MeetKnowsExactly | native/core_ext/invoke_args.cpp:351-368 | a meet knows exactly what both sides know alike, and marks what only one side knew as conditional |
| OriginLaws.InKnowsExactly | native/core_ext/invoke_args.cpp:797-818 | at a block start exactly that is known which the entry, where it applies, and every predecessor know alike; at a handler nothing |
| OriginLaws.InCrossesExactly | native/core_ext/invoke_args.cpp:351-368 | and exactly those registers are marked as crossed that some contribution tracks and not all know alike |
| OriginLaws.StepCrossesExactly | native/core_ext/invoke_args.cpp:384-416 | an instruction hands a mark on by a move only, and leaves it where it neither writes nor breaks |
| OriginLaws.StepRefines | native/core_ext/invoke_args.cpp:404-743 | the transfer keeps whatever a better informed state knows in addition |
| OriginLaws.MeetRefines | native/core_ext/invoke_args.cpp:360-368 | so does the meet |
| OriginLaws.ResolveRefines | native/core_ext/invoke_args.cpp:785-824 | resolving more blocks beforehand loses no origin |
| OriginLaws.DeeperKeepsOrigins | native/core_ext/invoke_args.cpp:759-827 | an origin reported at a depth is reported alike one level deeper, where the deeper run stays within its budgets |
| OriginLaws.SitesAreTheScan | native/core_ext/invoke_args.cpp:759-827 | at every depth the sites are those of the linear scan, in its order |
| OriginLaws.OneBlock | native/core_ext/invoke_args.cpp:68-77 | every instruction lies in exactly one block, and the scan of that block reaches it |
| OriginLaws.CfgUnique | native/core_ext/invoke_args.cpp:115-275 | code and handlers determine the graph |
| InvokeArgs.EnumerateInvokeSites | native/core_ext/invoke_args.cpp:27-52 | the loop yields the scan |
| InvokeArgs.RunBlock | native/core_ext/invoke_args.cpp:373-744 | the loop yields the block's out state, its sites and its instruction count |
| InvokeArgs.Window | native/core_ext/invoke_args.cpp:764-791 | the backward walk yields exactly the blocks at each shortest distance up to the depth, farthest first and then by number, not walking past handlers |
| InvokeArgs.Resolved | native/core_ext/invoke_args.cpp:793-824 | the state is that of the whole window unless a budget runs out in it, and then it is empty |
| InvokeArgs.AnalyzeInvokes | native/core_ext/invoke_args.cpp:318-830 | every site lists the registers of its instruction, in order, each with an origin exactly if the state there knows one and marked as crossed exactly if it is tracked and not known; every reported origin is a last write, the sites are the linear scan's, and within the budgets every block starts from its whole window; no report is of a broken pair in code with widths and no parameter pair, and in any code if and only if keeping every width and leaving out unreached blocks gives the same reports |
| InvokeArgs.DeeperIsMore | native/core_ext/invoke_args.cpp:759-827 | two runs of the analysis, the second one level deeper and within budget: the second reports all the first does |
| EncodedValue.ParsedInRange | native/core_ext/dex_verifier.cpp:1292-1386 | every index in an accepted value is inside its table |
| EncodedValue.ParsedWithin | native/core_ext/dexitem_code_source.cpp:584-589 | a reader with a tighter bound that still covers the value sees the same value |
| EncodedValue.ParsedBeyond | native/core_ext/dexkit_ext.cpp:1310-1316 | a reader whose bound lies beyond the gate's sees the same value |
| EncodedForms.FormReads | native/core_ext/dex_verifier.cpp:1292-1386 | what is written by the format, with any widths it allows, is accepted and read as the value it stands for |
| EncodedForms.AcceptedIffWritten | native/core_ext/dex_verifier.cpp:1292-1386 | the gate accepts a value and ends there if and only if the bytes up to there are the value written by the format |
| EncodedForms.SaysBack | native/core_ext/dexitem_code_source.cpp:199-432 | code, argument and payload of a written scalar say what was written: sign, zero and right extension undone |
| EncodedReaders.ReadUleb | native/core_ext/dex_verifier.cpp:422-433 | accepts exactly the numbers of at most five bytes, and yields them modulo 32 bits |
| EncodedReaders.ReadULEB128 | native/core_ext/dexitem_code_source.cpp:87-98 | where the gate accepts, reads the same number and bytes |
| EncodedReaders.ScanUleb | native/core_ext/dexkit_ext.cpp:1236-1246 | where the gate accepts, reads the same bytes and the number unwrapped |
| EncodedReaders.ReadIntLE | native/core_ext/dexitem_code_source.cpp:100-110 | yields the little-endian number of the bytes read |
| EncodedReaders.VerifyEncodedValue | native/core_ext/dex_verifier.cpp:1292-1366 | accepts exactly the encodings of a value within the nesting cap, and ends where the value ends |
| EncodedReaders.VerifyEncodedAnnotation | native/core_ext/dex_verifier.cpp:1374-1386 | the same for annotations |
| EncodedReaders.VerifyEncodedArrayAt | native/core_ext/dex_verifier.cpp:1278-1290 | accepts exactly the encodings of a bare array |
| EncodedText.SignExtendIsSigned | native/core_ext/dexitem_code_source.cpp:702-706 | shifting up and back down is the two's complement value of the stored bytes |
| EncodedText.WidenedBits | native/core_ext/dexitem_code_source.cpp:112-138 | the stored bytes of a float become the most significant ones |
| EncodedText.DecodeScalar | native/core_ext/dexitem_code_source.cpp:199-432 | where the gate accepts a scalar, consumes its bytes and renders its value |
| EncodedText.DecodeEncodedValueText | native/core_ext/dexitem_code_source.cpp:186-521 | where the gate accepts a value, consumes exactly its bytes and renders exactly that value, arrays and annotations element by element, with the expression flag; what that text says is told by EncodedPrint |
| EncodedText.AcceptedRendersWhole | native/core_ext/dexitem_code_source.cpp:433-494 | an accepted value renders to something without a hole if and only if every method handle it names resolves |
| EncodedPrint.AcceptedReadsBack | native/core_ext/dexitem_code_source.cpp:186-521 | the text of an accepted value is read back as what the value says, but for short, char and int, for fields and enum constants, and for handles that do not resolve |
| EncodedPrint.AcceptedNamesTables | native/core_ext/dexitem_code_source.cpp:199-494 | the strings a text names are those of the value, in order, and every index it names is inside its own table |
| EncodedPrint.FlagIsExpressible | native/core_ext/dexitem_code_source.cpp:165-183 | the flag is set exactly if the text holds no method, method handle or annotation and no list in it a hole |
| EncodedScan.ScanEncodedValueStrings | native/core_ext/dexkit_ext.cpp:1261-1296 | ends where the gate did if and only if no declared size read for items needs more than 32 bits, or the value ends the bytes; otherwise runs to the end; in step it collects exactly the string indices, in order |
| EncodedScan.WrappedSize | native/core_ext/dexkit_ext.cpp:1273-1277 | seven bytes on which gate and scanner part |
| EncodedScan.ScanClassDefStaticStrings | native/core_ext/dexkit_ext.cpp:1304-1319 | reading to the end of the image, collects exactly the strings of an array without oversized sizes that the gate accepted within the dex's data |
| EncodedScan.DecodeStaticInitMap | native/core_ext/dexitem_code_source.cpp:571-602 | reading to the end of a window of the image, for an array that the gate accepted within the dex's data and that fits the window, each static field gets the value at its own position, and fields whose value renders to nothing get none |
| Mutf8.DecodeIffSpelled | native/core_ext/dex_verifier.cpp:864-915 | bytes decode to a string if and only if they are its canonical encoding and a terminator |
| Mutf8.EncodeInjective | native/core_ext/dex_verifier.cpp:894-905 | two strings with the same encoding are the same |
| Mutf8.VerifyMutf8 | native/core_ext/dex_verifier.cpp:864-915 | accepts the bytes with a length if and only if they spell a string of that length |
| Mutf8.ReadsUnit | native/core_ext/dex_verifier.cpp:164-180 | on a canonical unit the comparator's decoder reads that unit and its bytes |
| StringTable.IteratedIsDecoded | native/core_ext/dex_verifier.cpp:164-189 | iterating the comparator's decoder over accepted bytes yields the string |
| StringTable.LessIsTotal | native/core_ext/dex_verifier.cpp:181-195 | the order by UTF-16 units is total and strict |
| StringTable.LessIsLexicographic | native/core_ext/dex_verifier.cpp:181-195 | it is the lexicographic order |
| StringTable.LessIsTransitive | native/core_ext/dex_verifier.cpp:181-195 | and transitive |
| StringTable.Compare | native/core_ext/dex_verifier.cpp:181-195 | on accepted strings the sign of the result is that order |
| StringTable.AcceptUnsortedValueStrings | native/core_ext/dex_verifier.cpp:1635-1655 | accepts if and only if every two identifiers are in strict order and only the first string may be empty |
| StringTable.CheckStringIds | native/core_ext/dex_verifier.cpp:1666-1678 | strict: accepts exactly the sorted tables; lenient: exactly those that satisfy the lenient rule, sorted or not |
| StringTable.SortedIsDistinct | native/core_ext/dex_verifier.cpp:1667-1675 | a strictly accepted table holds no string twice |
| StringTable.IdentsAreDistinct | native/core_ext/dex_verifier.cpp:1619-1634 | in a leniently accepted table no two identifiers are the same string |
| CodeItem.ReadSleb | native/core_ext/dex_verifier.cpp:434-448 | accepts exactly the signed numbers of at most five bytes, sign extended below 32 bits |
| CodeItem.ReadSlebBounded | native/core_ext/invoke_args.cpp:93-105 | where the gate accepts, reads the same number and bytes |
| CodeItem.VerifyCodeItem | native/core_ext/dex_verifier.cpp:942-1019 | accepts exactly the items with consistent sizes, zero padding, parsing handlers, and tries in order that name parsed handlers |
| CodeItemForms.WrittenAccepted | native/core_ext/dex_verifier.cpp:942-1019 | a code item written by the format is accepted if and only if registers hold the arguments, tries are in order, inside the code and name handlers, and these are in bounds |
| CodeItemForms.HandlerReads | native/core_ext/dex_verifier.cpp:983-1005 | a handler so written is read as it was meant if and only if its types and addresses are in bounds |
| CodeItem.TriesSorted | native/core_ext/dex_verifier.cpp:1007-1017 | accepted try ranges are sorted, disjoint and inside the code |
| CodeItem.TryNamesStart | native/core_ext/dex_verifier.cpp:1012-1014 | every handler offset of an accepted item is the start of a handler the gate walked |
| CodeItem.AddrsBelow | native/core_ext/dex_verifier.cpp:994-1005 | the addresses of an accepted handler lie in the code |
| CodeItem.SamePlaceIffAligned | native/core_ext/invoke_args.cpp:211-213 | gate and reader look for the tries at the same place if and only if the item is aligned to four bytes |
| CodeItem.ReadHandlerAddrs | native/core_ext/invoke_args.cpp:219-229 | on an accepted handler the reader meets exactly its addresses and consumes exactly its bytes |
| CodeItem.CollectHandlers | native/core_ext/invoke_args.cpp:209-232 | on an aligned accepted item the addresses collected are exactly those of the handlers its tries name, all inside the code |
| MethodHandles.WalkByNeeds | native/core_ext/include/dex_verifier.h:277-293 | a walk accepts if and only if all kinds are known and the recorded maxima fit the tables |
| MethodHandleForms.SectionPasses | native/core_ext/dex_verifier.cpp:812-855 | a section written by the format passes if and only if every handle is of a known kind and names a field or method, as its kind has it, that exists |
| MethodHandles.ImageState.VerifyMethodHandleSection | native/core_ext/dex_verifier.cpp:807-855 | accepts exactly when a fresh walk would, unless the budget turns the section away, and keeps the memo true |
| MethodHandles.RunKeeps | native/core_ext/dex_verifier.cpp:291-306 | over any sequence of slices on one base the memo stays true and accepting walks never charge more than the seed, reseeding included |
| MethodHandles.MemoRefinesWalk | native/core_ext/dex_verifier.cpp:807-855 | over any such sequence the memoised verdict is the fresh walk's unless the budget refuses |
| MethodHandles.LegitimateAccepted | native/core_ext/include/dex_verifier.h:294-299 | an image whose sections pass a walk and overlap only by being the same is never refused |
| MethodHandles.TwoDexesCut | native/core_ext/dexkit_ext.cpp:445-469 | an image of two self-contained dexes, each a header and a section, is cut into just these, so each has a data base of its own |
| MethodHandles.MemoAcrossBases | native/core_ext/dex_verifier.cpp:291-306 | on every such image two verifiers sharing one state, seeded as they are made, name both sections by one key, and the second section is accepted though a walk of it fails |
| MethodHandles.ServesIffSameNeeds | native/core_ext/dex_verifier.cpp:808-820 | what the memo holds decides as a fresh walk at another base if and only if kinds are known there and the maxima agree |
| MethodHandles.VisitsRemember | native/core_ext/dex_verifier.cpp:807-855 | in any run over any bases the memo holds for each section exactly what it needed at the base where it was first accepted |
| MethodHandles.VerdictIffAlike | native/core_ext/dex_verifier.cpp:807-855 | in any such run a verdict is the fresh walk's at the slice's own base, unless refused, if and only if the section was not accepted before or passes at both bases alike; for all tables, if and only if it needs the same at both |
| Containers.LogicalDexSlices | native/core_ext/dexkit_ext.cpp:445-469 | the loop yields the cut of the specification, which for an image laid out by the format is one slice per dex (DexLayout.LaidOutIsCut) |
| DexLayout.HeaderReads | vendor/dexkit_core/Core/third_party/slicer/export/slicer/dex_format.h:183-209 | the fields the cut reads are those declared under these names |
| DexLayout.LaidOutIsCut | native/core_ext/dexkit_ext.cpp:445-469 | plain dexes and containers laid end to end are cut into just their dexes, those of a container with the range of the whole container, and only the last of them a last entry |
| DexLayout.LaidOutSurvives | native/core_ext/dexkit_ext.cpp:606-657 | in such an image a slice survives if and only if it is taken and, unless all are, it is a dex by itself or all dexes of its container are taken |
| Containers.SplitIsMaximal | native/core_ext/dexkit_ext.cpp:445-469 | slices lie end to end inside the image, and what follows the last holds no further dex |
| Containers.OpensNext | native/core_ext/dexkit_ext.cpp:571-597 | step by step rule and closed form agree: a slice opens when everything up to it opens by itself and nothing before it ends the image or the source |
| Containers.OpensPrefix | native/core_ext/dexkit_ext.cpp:571-597 | the opened slices are a beginning of the image |
| Containers.NothingAfterBreak | native/core_ext/dexkit_ext.cpp:540-549 | nothing opens after the slice that ends the source, in its image or a later one |
| Containers.CountsTell | native/core_ext/dexkit_ext.cpp:640-647 | counting members in a run equals comparing the run with the members one by one |
| Containers.ContainerIsWhole | native/core_ext/dexkit_ext.cpp:636-649 | the binary searches and counts decide exactly the all-pairs rule |
| Containers.ClassifySourceImage | native/core_ext/dexkit_ext.cpp:559-660 | verdicts are exactly the survival rule, the opening flags do not depend on the mode, and the source ends exactly when the image breaks it |
| Containers.ClassifySource | native/core_ext/dexkit_ext.cpp:1022-1042 | cutting, judging and classifying every image of a source with one sequence threaded through gives each slice the verdict and the opening flag that the rules for the whole list give it |
| Containers.RunsCompare | native/core_ext/dexkit_ext.cpp:540-660 | of two such runs the runtime one accepts a subset of the isolated one, and both report the same openings |
| Containers.SourceRuntimeWithinIsolated | native/core_ext/dexkit_ext.cpp:559-660 | over any list of images the runtime mode accepts a subset of the isolated mode, and only what the runtime opens |
| Cache.ResultCache.Lookup | native/dad_cpp/decompiler.cpp:186-195 | a hit returns the stored value and moves its entry to the front, a miss changes nothing; index and list stay consistent |
| Cache.ResultCache.Insert | native/dad_cpp/decompiler.cpp:201-221 | a key that came in meanwhile wins; otherwise the entry goes to the front and the tail is trimmed to the capacity |
| Cache.ResultCache.SetCacheCapacity | native/dad_cpp/decompiler.cpp:446-453 | keeps the most recent entries the capacity allows, zero meaning all |
| Cache.ResultCache.DecompileMethod | native/dad_cpp/decompiler.cpp:184-222 | returns what the pipeline yields, or nothing where the method is not found, and keeps every stored value the pipeline's |
| Cache.CallIsHonest | native/dad_cpp/decompiler.cpp:184-222 | a hit is the uncached result, and neither a hit nor an insertion stores anything else |
| CacheRuns.EveryRunKeeps | native/dad_cpp/decompiler.cpp:184-222 | under any interleaving: no key twice, values from the pipeline, size within a nonzero capacity, recency order, and every call returned its uncached result |
| CacheRuns.HoldsMostRecent | native/dad_cpp/decompiler.cpp:214-219 | with a fixed capacity the cache holds exactly the most recently used keys, as many as fit, in that order |
| SmaliEscape.PointsLosslessIffWellFormed | native/core_ext/smali_render.cpp:100-108 | the code points give the UTF-16 text back if and only if it holds no lone surrogate |
| SmaliEscape.EscapeRoundTrip | native/core_ext/smali_render.cpp:109-122 | unescaping undoes escaping |
| SmaliEscape.EscapedIsSafe | native/core_ext/smali_render.cpp:109-122 | every quote is escaped and no control character is raw |
| SmaliEscape.PrintableStays | native/core_ext/smali_render.cpp:109-122 | text is left as it is if and only if it is printable without quotes and backslashes |
| SmaliEscape.Utf8RoundTrip | native/core_ext/smali_render.cpp:121-135 | the bytes are valid UTF-8 by section 3 of RFC 3629 and decode to the characters |
| SmaliEscape.Mutf8ToUtf16 | native/dad_cpp/mutf8.cpp:69-84 | canonical bytes decode to the units they encode |
| SmaliEscape.EscapeSmaliString | native/core_ext/smali_render.cpp:96-138 | the output is the shortest literal from which exactly the code points of the input are read back, valid UTF-8, without raw controls or bare quotes |

## Left out

- Order of edges and of equal numbers: the fused block's edges are added in some order; the source sorts them by number and name to be reproducible.
- Node attributes that structuring only carries along: latch, loop and follow attributes, `ComputeEnd`, `MarkLoop`, `LoopFollow`, `CatchStruct` and `WhileBlockStruct`.
- LengauerTarjan.DomLt: needs a graph with an entry; the addresses that decide the order of hash sets are not modelled, any order of predecessors and of a bucket is.
- Graphs.Graph.AddEdge: catch edges are in the tables and in every walk over all successors, but setting a block's catch type is not modelled.
- Nodes are numbers and not pointers, and a block is a field of the pass; the C++ objects share them.
- DerivedSequence.DerivedSequenceOf: needs an entry and a fully reachable graph, because without an entry the source never reaches a graph of one node.
- Conditional blocks hold one test each; the source skips negation on blocks with another number of instructions, which it never builds. Tests compare integers.
- Fusion.FaithfulIffClean: needs the two blocks to start with different tests; FusionRuns.DistinctStep keeps that true along a run from tests that are instructions of their own.
- FusionRuns.MeaningIffPrivateAndSpared: meaning is compared from the entry and from plain blocks; a conditional block that normal edges do not come to is seen by neither side, so every one must be come to.
- ShortCircuit.Pass.MergeShortCircuit: exceptions are not part of what walks observe; that a fused condition leaves its try range is stated and not counted as a change of meaning.
- Opcode decoding: an instruction is given by its width, successors and effect on registers. Offsets are in code units, where the source counts bytes.
- OriginSoundness.ReportedIsLastWrite: speaks of single registers; pairs are what PairExact is about. Completeness of the window is not claimed.
- PairExact.UnbrokenIffWide: that the upper half of a pair is reported as a parameter of its own is not counted against it.
- PairTypes.TypedIsUnbroken: code that is never reached is to have widths too, since it takes part in meets; only its first instruction is free.
- FusionDominators.RunTells: says nothing of a run that absorbed a block whose immediate dominator was not its partner, which a caller sees in the map before the fusion.
- Whether a load-time check accepts is modelled; the text of its reason is not.
- VerifyInsns, header, map and checksum checks, and the other sections of a dex; where a modelled check depends on one, its verdict is a parameter.
- EncodedText.DecodeEncodedValueText: numbers, literals and table entries are symbolic pieces, so the digits of a float and the spelling of names are not modelled.
- The window of 64 KiB a handler reader falls back to when no image end is given.
- Bit operations on bytes are written with division and remainder; unit counters and offsets are unbounded, since an image is shorter than 4 GiB.
- Containers.ClassifySourceImage: the gate's verdict on a slice by itself, and what the runtime would make of it alone, enter as the slice's two flags.
- Messages of the image classification, the cap on loaded dexes, and copying out the survivors.
- The pipeline behind the cache is a function of the key; hashing and string views are not modelled.
- Writers of whole classes and methods, the class-file queries, the Python bindings and archive reading.
