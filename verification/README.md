# Verified models of self-contained LLVM algorithms

This project models, in Dafny, the algorithms of the repository that can be understood on their own, and proves
what they are for. Nothing here runs the original programs; every statement below is a theorem about the model.

| module files | original | what is modelled |
|---|---|---|
| `brainf_*.dfy` | `llvm/examples/BrainF/BrainF.cpp` | the one-pass compiler (run merging, loops through phis, bounds checks), a small-step semantics of what it emits, and the language's own semantics |
| `cfg_*.dfy` | `llvm/lib/Analysis/CFG.cpp` | back edges by iterative depth-first search; conservative reachability with dominators, loop skipping and a visit limit |
| `alias_*.dfy` | `llvm/lib/Analysis/AliasSetTracker.cpp` and its header | alias sets with forwarding, path compression, reference counts, must-alias short cuts and saturation |
| `aa_*.dfy` | `llvm/lib/Analysis/AliasAnalysis.cpp` and its header | the meet over component analyses, refined by other queries, against what calls really read and write |
| `eh_*.dfy` | `llvm/examples/ExceptionDemo/ExceptionDemo.cpp` | exception tables as bytes, the personality routine, the generated catch/finally blocks and two-phase unwinding |
| `case_fold.dfy` | `llvm/utils/unicode-case-fold.py` | compression of a sorted table into a chain of tests |
| `abtest*.dfy` | `llvm/utils/abtest.py` | sequential and bisecting search for bad choices; taking functions out of assembly files and replacing them |
| `mca_*.dfy` | `llvm/utils/update_mca_test_checks.py` | block alignment, prefix pruning, breaking blocks down into lines |
| `itanium_*.dfy` | `llvm/utils/extract_symbols.py` | mutually recursive parsing of nested names |
| `rendezvous.dfy` | `llvm/examples/ParallelJIT/ParallelJIT.cpp` | the condition-variable rendezvous, in every interleaving |
| `assumption_*.dfy` | `llvm/lib/Analysis/AssumptionCache.cpp` | the index from values to the assumptions about them, and when replacing values makes it miss some |

Code that changes state in place is modelled by classes and loops, each method proved against a specification
function or a relation between the old and the new state; the theorems are then about those. Code made of
expressions is modelled by functions.

Findings about the original that the proofs made precise:

* A saturated alias set tracker loses the one set that it goes on referring to when a pointer is deleted if and only
  if this pointer is the only thing that it still tracks (`AliasTracker.AliasSetTracker.DeleteValue`);
  `AliasTracker.DeleteAll` is such a run, from an empty tracker with threshold 0.
* Template arguments are skipped by `skip_itanium_template` as they are meant if and only if nothing among them, at any
  place or depth, is closed by an `E` of its own without being opened by `I` or `N`: packs (`J ... E`), function types
  (`F ... E`), local names (`Z ... E`), lambdas (`Ul ... E`), decltype types (`DT ... E`, `Dt ... E`), or any other
  letters so closed, and nested names that begin with a standard abbreviation and have arguments
  (`NSt3fooI ... EE`). The extra `E` is taken for the end of the list (`ItaniumGroups.SkippedIffNoneLoose`; pointers to
  functions and decltypes are instances, `ItaniumRoundTrip.FunctionEndsList`, `ItaniumRoundTrip.DecltypeEndsList`).
  Inside nested names that hold such an argument this is about names without an `E`; with one the skipping can come
  right by accident (`ItaniumGroups.AccidentOfName`).
* A number that follows letters is taken for the length of a name: arrays (`A<n>_`), vectors (`Dv<n>_`), floating types
  (`DF<n>_`), template parameters (`T<n>_`), unnamed types (`Ut<n>_`), and whatever other letters precede it. A number n
  of 2 or more loses the n - 1 characters behind its underscore (`ItaniumRoundTrip.CountedLoses`,
  `ItaniumCounts.CountedIff`; `ItaniumRoundTrip.ArrayLosesEnd` and `ItaniumRoundTrip.WidthLosesEnd` are instances).
* Expressions are refused only where an argument begins with `L` or `X` (`ItaniumCounts.ExpressionRefused`); those in
  decltype types are read on as if they were types.
* A call that one component analysis says never writes and another never reads is still taken to read by the aggregated
  analysis, unless a third or its arguments rule it out: of the two bits only the first is cleared
  (`AAPrecision.CallLocIsPrecise`, `AAPrecision.NeitherYetReads`).
* With bounds checks the compiled program reports an error if and only if some merged run of moves ends off the tape,
  not if a single step does (`BrainFTheorems.ErrorIffRunLeavesTape`): "<>" on a tape of one cell leaves the tape and
  returns without the message (`BrainFTheorems.LeavesUnnoticed`).
* A block that is broken down into lines is checked by a run just as the run printed it if and only if some prefix that
  no other text has is common to all runs of this text, or the run has such a prefix and its first one is the only first
  one of any run that it has (`McaUnique.UniqueBlock`, `McaUnique.ServedByOne`). `McaUnique.CheckedTwice` is a block
  that is broken down although one of its runs then checks some of its lines twice.
* After all uses of a value are replaced, lists of the assumption cache that were exact still name every assumption that
  affects a value if and only if no assumption newly affects one: the patterns look at a value through the new one, or
  through an inversion or a shift by a constant that the new one makes, and did not look at it before
  (`AssumptionCacheModel.AssumptionCache.ReplaceAllUses`, `AssumptionReplacement.MissedIffNew`). That never happens with
  a new value that is an argument, an instruction below which no pattern looks, or a constant that is neither an integer
  nor all ones; with a cast it happens just when its operand, being an argument or instruction, was not affected by some
  assumption above the old value (`AssumptionCacheModel.NothingNewByKind`). It does happen, with a cast
  (`AssumptionCacheModel.CastLooksFurther`) and with an integer that becomes the amount of a shift
  (`AssumptionCacheModel.ConstantLooksFurther`).

## Model

| member | source | states |
|---|---|---|
| `BrainFCompiler.BrainF.Header` | llvm/examples/BrainF/BrainF.cpp:65-190 | the entry block allocates and clears the tape, computes its end when bounds are checked, and puts the head in the middle; end and error blocks are as they should be |
| `BrainFCompiler.BrainF.Fetch` | llvm/examples/BrainF/BrainF.cpp:320-423 | one call returns the next symbol with its whole run merged, leaving in the lookahead the symbol after it, comments skipped |
| `BrainFCompiler.BrainF.WriteCommand` | llvm/examples/BrainF/BrainF.cpp:209-276 | the code written for one read, write, merged change or merged move (with its bounds test) is right at its place, and nothing written before changes |
| `BrainFCompiler.BrainF.ReadLoop` | llvm/examples/BrainF/BrainF.cpp:192-476 | reading on lays out every token up to the bracket that closes the loop or the end of the text, and stops with a bracket error exactly when the rest is unbalanced: an extra `]` only at the top level |
| `BrainFCompiler.BrainF.Parse` | llvm/examples/BrainF/BrainF.cpp:53-63 | an extra `]` is reported if and only if up to some place more brackets are closed than opened, a missing one if and only if that is nowhere so but more are opened in all; otherwise every token of the text is correctly laid out, and all blocks, reached or not, are well formed: each ends with a return or a branch to blocks that exist, and each phi names every predecessor of its block once and no other block |
| `BrainFSource.StepByCommand` | llvm/examples/BrainF/BrainF.cpp:12-22 | what each command but the brackets does to the cell, the head, the input and the output, by the C equivalent that is given for it |
| `BrainFSource.SkipsLoop` | llvm/examples/BrainF/BrainF.cpp:12-22 | at `[` with a zero cell the language goes on at the first place up to which as much has been closed as opened |
| `BrainFSource.ReturnsToLoop` | llvm/examples/BrainF/BrainF.cpp:12-22 | at `]` it goes back to the last place from which on as much has been opened as closed |
| `BrainFWellFormed.CloseUnfinished` | llvm/examples/BrainF/BrainF.cpp:432-464 | closing a loop gives the test block its second predecessor together with the phi's second entry, and the block behind the loop one of each; only the current block and the tests of open loops are left without a terminator |
| `BrainFSource.RunOfChanges` | llvm/examples/BrainF/BrainF.cpp:371-398 | a run of `+` and `-`, comments between, does step by step what one addition of its sum modulo 256 does |
| `BrainFSource.RunOfMoves` | llvm/examples/BrainF/BrainF.cpp:346-370 | a run of `<` and `>` that stays on the tape does step by step what one move by its sum does |
| `BrainFCorrect.SyncStep` | llvm/examples/BrainF/BrainF.cpp:203-312 | from any state in step, the code of one token brings the emitted function in step with the program after that token, whichever token it is |
| `BrainFTheorems.Lockstep` | llvm/examples/BrainF/BrainF.cpp:192-476 | for every n, program and emitted function meet again after at least n steps, or both have come to the same end |
| `BrainFTheorems.ReturnsIffHalts` | llvm/examples/BrainF/BrainF.cpp:12-22 | for every program that stays on the tape, the emitted function returns if and only if the program halts, with the same tape and output |
| `BrainFTheorems.OutputsAgree` | llvm/examples/BrainF/BrainF.cpp:12-22 | halting or not, everything that one side has printed at any time the other prints too, in the same order |
| `BrainFTheorems.CheckedRun` | llvm/examples/BrainF/BrainF.cpp:246-276 | with bounds checks, for every program and input, the emitted function follows the token machine, and ends with the error message where a run leaves the tape |
| `BrainFTheorems.CheckedNeverFaults` | llvm/examples/BrainF/BrainF.cpp:118-127 | with bounds checks no executed load or store, loop tests included, leaves the tape, no undefined register is read and no unfinished block entered |
| `BrainFTheorems.OnTapeNeverFaults` | llvm/examples/BrainF/BrainF.cpp:432-464 | without bounds checks the same holds for programs that stay on the tape |
| `BrainFTheorems.ErrorIffRunLeavesTape` | llvm/examples/BrainF/BrainF.cpp:246-276 | a finished function printed the error message last if some run of moves ended off the tape, and returned the program's own result otherwise |
| `BrainFTheorems.LeavesUnnoticed` | llvm/examples/BrainF/BrainF.cpp:246-276 | a program that leaves the tape with its first character and still returns without the message |
| `BrainFPaths.EveryPathIsSafe` | llvm/examples/BrainF/BrainF.cpp:292-476 | along every path through the emitted blocks, taken by an execution or not: each register is defined before it is used, and each phi has for the edge exactly one value, which is defined there |
| `CfgBackedges.FindFunctionBackedges` | llvm/lib/Analysis/CFG.cpp:27-66 | the loop with its stack reports the same edges in the same order, and finishes blocks in the same order, as depth-first search by recursion |
| `CfgBackedges.ReportedIff` | llvm/lib/Analysis/CFG.cpp:27-66 | an edge is reported if and only if it leaves a reachable block and its target is not finished before that, and then once for each time that it is listed |
| `CfgBackedges.EveryCycleIsCut` | llvm/lib/Analysis/CFG.cpp:27-66 | every cycle through reachable blocks contains a reported edge |
| `CfgBackedges.NoneIffAcyclic` | llvm/lib/Analysis/CFG.cpp:27-66 | nothing is reported if and only if the reachable part has no cycle |
| `CfgReachability.GetOutermostLoop` | llvm/lib/Analysis/CFG.cpp:114-121 | the loop found is the root of the block's loop nest |
| `CfgReachability.LoopContainsBoth` | llvm/lib/Analysis/CFG.cpp:124-129 | true if and only if both blocks have the same outermost loop, in the given nest |
| `CfgReachability.WalkComplete` | llvm/lib/Analysis/CFG.cpp:131-173 | when the worklist runs dry, skipping whole loops by their exits has missed no reachable block |
| `CfgReachability.IsPotentiallyReachableFromMany` | llvm/lib/Analysis/CFG.cpp:131-173 | `false` means that no path exists; `true` means that one does, unless 32 different blocks have been reached none of which is, dominates or shares an outermost loop with the stop block; with fewer than 32 blocks the answer is exact |
| `CfgReachability.IsPotentiallyReachable` | llvm/lib/Analysis/CFG.cpp:175-185 | the same between two blocks |
| `CfgRuns.RunByBlocks` | llvm/lib/Analysis/CFG.cpp:187-237 | an execution from one instruction to another moves down a block or follows an edge |
| `CfgRuns.ExecIffPath` | llvm/lib/Analysis/CFG.cpp:187-237 | an execution leads from one instruction to another if and only if that is further down the block, or some path of at least one edge leads to its block |
| `CfgReachability.IsPotentiallyReachableInst` | llvm/lib/Analysis/CFG.cpp:187-237 | `false` means that no execution leads from the first instruction to the second; `true` means that one does, unless the first stands in the entry block and the second does not, or 32 blocks that the first can reach settled nothing; with fewer than 32 blocks that is all |
| `AliasSets.UnreferencedIsEmpty` | llvm/lib/Analysis/AliasSetTracker.cpp:112-126 | a set with no reference left holds no pointer, so erasing it loses nothing |
| `AliasSets.DropErases` | llvm/lib/Analysis/AliasSetTracker.cpp:112-126 | giving the last reference back erases an empty set and leaves one reference owed to the set it forwarded to, all other counts exact |
| `AliasSets.RedirectKeeps` | llvm/include/llvm/Analysis/AliasSetTracker.h:279-292 | path compression keeps every target, every record and all counts but the one reference it owes |
| `AliasSets.RenameKeeps` | llvm/include/llvm/Analysis/AliasSetTracker.h:114-123 | pointing a record straight at its set keeps every target and all counts but the one reference it owes |
| `AliasChanges.MergeKeeps` | llvm/lib/Analysis/AliasSetTracker.cpp:51-110 | merging two live sets keeps forwarding acyclic, records right and counts exact but for the reference of the merged set's instructions |
| `AliasChanges.PointerAddedKeeps` | llvm/lib/Analysis/AliasSetTracker.cpp:128-164 | adding a pointer keeps all invariants, also for a set just created |
| `AliasChanges.InstAddedKeeps` | llvm/lib/Analysis/AliasSetTracker.cpp:166-185 | adding an instruction keeps all invariants; only the first one of a set counts as a reference |
| `AliasChanges.SetAddedKeeps` | llvm/lib/Analysis/AliasSetTracker.cpp:370-371 | a new set at the end of the list keeps all invariants, its own count being zero |
| `AliasChanges.PointerRemovedKeeps` | llvm/lib/Analysis/AliasSetTracker.cpp:524-545 | unlinking a pointer leaves its set with exactly one reference too many |
| `AliasView.LiveIsShown` | llvm/lib/Analysis/AliasSetTracker.cpp:196-206 | every live set holds a pointer or an instruction, so the assertion against empty must-alias sets holds |
| `AliasView.SweepMeets` | llvm/lib/Analysis/AliasSetTracker.cpp:133-148 | a pointer that is put into a must-alias set is not apart from its first pointer: the assertion in addPointer holds |
| `AliasExact.HitsIffLinked` | llvm/lib/Analysis/AliasSetTracker.cpp:190-252 | testing the first pointer of a must-alias set says the same as testing all its members |
| `AliasExact.SweepMidway` | llvm/lib/Analysis/AliasSetTracker.cpp:295-325 | while sets are merged for a new node, sets stay apart, and the merged one would be connected by the node |
| `AliasExact.AddedExact` | llvm/lib/Analysis/AliasSetTracker.cpp:327-374 | if sets were exact before a pointer or an instruction is added, they are exact afterwards |
| `AliasExact.SetsAreComponents` | llvm/lib/Analysis/AliasSetTracker.cpp:295-374 | in an exact tracker two nodes are in one set if and only if a chain of may-aliases among the tracked nodes joins them |
| `AliasExact.DeletedKeepsSound` | llvm/lib/Analysis/AliasSetTracker.cpp:524-545 | deleting a pointer never lets aliasing pointers end up in different sets |
| `AliasExact.CopiedExact` | llvm/lib/Analysis/AliasSetTracker.cpp:552-569 | copying a pointer to one that the analysis cannot tell from it keeps the sets exact |
| `AliasTracker.AliasSetTracker.RemoveAliasSet` | llvm/lib/Analysis/AliasSetTracker.cpp:112-126 | removing a dead set, and the chain of sets that die with it, restores all invariants and changes no target |
| `AliasTracker.AliasSetTracker.DropRef` | llvm/include/llvm/Analysis/AliasSetTracker.h:190-194 | the reference that was owed is given back; targets, records and live contents stay as they are |
| `AliasTracker.AliasSetTracker.GetForwardedTarget` | llvm/include/llvm/Analysis/AliasSetTracker.h:282-292 | the result is the end of the forwarding chain, and the set now forwards straight to it |
| `AliasTracker.AliasSetTracker.GetAliasSet` | llvm/include/llvm/Analysis/AliasSetTracker.h:114-123 | the record comes to name the live set that holds its pointer |
| `AliasTracker.AliasSetTracker.MergeSetIn` | llvm/lib/Analysis/AliasSetTracker.cpp:51-110 | exactly the two sets are joined, contents in order and kinds as specified, and all invariants hold again |
| `AliasTracker.AliasSetTracker.AddToSet` | llvm/lib/Analysis/AliasSetTracker.cpp:128-164 | the pointer is in this set and no other, the set being demoted to may-alias just when its first pointer need not alias it |
| `AliasTracker.AliasSetTracker.AddUnknownInst` | llvm/lib/Analysis/AliasSetTracker.cpp:166-185 | the instruction is in this set, which becomes a may-alias set |
| `AliasTracker.AliasSetTracker.AliasesPointer` | llvm/lib/Analysis/AliasSetTracker.cpp:190-225 | the answer of the loops with their short cuts is the specified hit test; both assertions hold |
| `AliasTracker.AliasSetTracker.AliasesUnknownInst` | llvm/lib/Analysis/AliasSetTracker.cpp:227-252 | the same for instructions |
| `AliasTracker.AliasSetTracker.MergeAliasSetsFor` | llvm/lib/Analysis/AliasSetTracker.cpp:295-325 | all sets that are hit are merged into the first of them in list order, and nothing else changes |
| `AliasTracker.AliasSetTracker.GetAliasSetFor` | llvm/lib/Analysis/AliasSetTracker.cpp:327-374 | the pointer ends up in the returned live set; a known pointer changes nothing; the saturation assertion holds |
| `AliasTracker.AliasSetTracker.AddPointer` | llvm/lib/Analysis/AliasSetTracker.cpp:608-620 | exactly the pointer is added and its set's access kind widened by the given one, and an exact tracker stays exact unless it is saturated now; it is saturated if and only if the pointers in may-alias sets, less the gap to the total that it keeps, are more than the threshold, and only instructions make a gap |
| `AliasSizes.MayPtrsJoin` | llvm/lib/Analysis/AliasSetTracker.cpp:75-104 | merging two sets puts just the pointers of those that were must-alias sets among the pointers in may-alias sets, if the union is one |
| `AliasTracker.AliasSetTracker.AddUnknown` | llvm/lib/Analysis/AliasSetTracker.cpp:406-433 | exactly the instruction is added, and an exact tracker stays exact |
| `AliasTracker.AliasSetTracker.DeleteValue` | llvm/lib/Analysis/AliasSetTracker.cpp:524-545 | exactly the pointer goes, its set with it if empty; a saturated tracker loses its one set if and only if nothing else was tracked before |
| `AliasSizes.NothingLeft` | llvm/lib/Analysis/AliasSetTracker.cpp:112-126 | deleting a pointer leaves no live set if and only if it is the only thing tracked |
| `AliasTracker.DeleteAll` | llvm/lib/Analysis/AliasSetTracker.cpp:524-620 | a run that ends with a saturated tracker without its set |
| `AliasTracker.AliasSetTracker.CopyValue` | llvm/lib/Analysis/AliasSetTracker.cpp:552-569 | the copy joins the set of the original, unless it is known or the original is not, and nothing else is tracked anew |
| `AliasTracker.AliasSetTracker.MergeAllAliasSets` | llvm/lib/Analysis/AliasSetTracker.cpp:571-606 | one may-alias set remains that holds all that was tracked, every other set forwards to it, all counts are exact |
| `AliasTracker.AliasSetTracker.Add` | llvm/lib/Analysis/AliasSetTracker.cpp:435-488 | the access of one instruction: a pointer that is loaded or stored to, or an instruction; what was known after the accesses before is known with it |
| `AliasTracker.AliasSetTracker.AddBlock` | llvm/lib/Analysis/AliasSetTracker.cpp:490-493 | what the block accesses is tracked besides what was tracked, and exactness is kept |
| `AliasTracker.TrackFunction` | llvm/lib/Analysis/AliasSetTracker.cpp:721-730 | for any accesses and threshold, with a symmetric analysis whose must-alias is a transitive congruence: unless saturated, the live sets are the components of the may-alias graph, may-alias just when they have an instruction or two pointers that need not alias, read and written just as their members are; if saturated, one set is taken to alias and access everything; that happens only with more pointers than the threshold, and after loads and stores alone if and only if more pointers than that share a component with another one that they need not alias |
| `AliasAccesses.MayPtrsAreUnsure` | llvm/lib/Analysis/AliasSetTracker.cpp:608-620 | in an exact tracker of loads and stores the pointers in may-alias sets are those that share a component with another one that they need not alias |
| `AliasAccesses.PointerSums` | llvm/lib/Analysis/AliasSetTracker.cpp:608-620 | what is known after a list of accesses is known after one load or store more |
| `AliasAccesses.OtherSums` | llvm/lib/Analysis/AliasSetTracker.cpp:406-433 | the same after one instruction more |
| `AAAnswers.AliasIsSound` | llvm/lib/Analysis/AliasAnalysis.cpp:101-109 | if all components are right, so is the answer that two locations do not alias |
| `AAAnswers.BehaviorIsSound` | llvm/lib/Analysis/AliasAnalysis.cpp:348-360 | the meet of right behaviours is right about what a call accesses and how it gets there |
| `AAAnswers.ThroughArg` | llvm/lib/Analysis/AliasAnalysis.cpp:179-206 | a call that stays with arguments and hidden memory comes to a location only through an argument that may alias it |
| `AAAnswers.CallLocIsSound` | llvm/lib/Analysis/AliasAnalysis.cpp:155-214 | if all components are right, Mod is answered whenever the call may write the location and Ref whenever it may read it |
| `AAAnswers.CallCallIsSound` | llvm/lib/Analysis/AliasAnalysis.cpp:216-346 | if all components are right, Mod is answered whenever the first call may write what the second touches, Ref whenever it may read what the second writes |
| `AAResultsModel.AAResults.Alias` | llvm/lib/Analysis/AliasAnalysis.cpp:101-109 | the first component that knows decides |
| `AAResultsModel.AAResults.PointsToConstantMemory` | llvm/lib/Analysis/AliasAnalysis.cpp:111-118 | true if and only if some component says so |
| `AAResultsModel.AAResults.GetArgModRefInfo` | llvm/lib/Analysis/AliasAnalysis.cpp:120-132 | each bit is set if and only if every component sets it, early exit or not |
| `AAResultsModel.AAResults.GetModRefBehavior` | llvm/lib/Analysis/AliasAnalysis.cpp:348-360 | the meet over all components, early exit or not |
| `AAResultsModel.AAResults.CallLoc` | llvm/lib/Analysis/AliasAnalysis.cpp:155-214 | both bits exactly, through all refinements; sound in every world where the components are |
| `AAPrecision.CallLocIsPrecise` | llvm/lib/Analysis/AliasAnalysis.cpp:155-214 | Mod and Ref are cleared if and only if single components give a reason: one of them says so, the call never writes or reads, the location is constant, or the call stays with its arguments and each is apart from the location or not written or read |
| `AAPrecision.NeitherYetReads` | llvm/lib/Analysis/AliasAnalysis.cpp:174-177 | a call that one component says never writes and another never reads is still taken to read |
| `AAResultsModel.AAResults.CallCall` | llvm/lib/Analysis/AliasAnalysis.cpp:216-346 | both bits exactly, through both argument branches and the nested query; sound in every world where the components are |
| `AAPrecision.ModIsPrecise` | llvm/lib/Analysis/AliasAnalysis.cpp:216-346 | exactly when the first of two calls is taken not to write what the second accesses, by what single components say of the calls, their arguments and the locations of these |
| `AAPrecision.RefIsPrecise` | llvm/lib/Analysis/AliasAnalysis.cpp:216-346 | exactly when it is taken not to read what the second writes |
| `AAResultsModel.AAResults.ThroughSecond` | llvm/lib/Analysis/AliasAnalysis.cpp:254-301 | leaving the loop when the mask is full loses no bit: the result is the join over all arguments of the second call, cut to the given mask |
| `AAResultsModel.AAResults.ThroughFirst` | llvm/lib/Analysis/AliasAnalysis.cpp:305-343 | the same for the arguments of the first call |
| `AAInstructions.AccessIsSound` | llvm/lib/Analysis/AliasAnalysis.cpp:398-541 | the answers for loads, stores, va_arg and atomics are right about every address of the location |
| `AAInstructions.InstrIsSound` | llvm/include/llvm/Analysis/AliasAnalysis.h:601-629 | the same for any instruction, with or without a location |
| `AAInstructions.InstrLoc` | llvm/include/llvm/Analysis/AliasAnalysis.h:601-629 | for any instruction, with or without a location: Mod is answered if it may write the location and Ref if it may read it, in every world where the components are right |
| `AAInstructions.AnswerIsPrecise` | llvm/lib/Analysis/AliasAnalysis.cpp:398-541 | for each kind of instruction, exactly when each bit is set, by its ordering and what single components say of aliasing and constant memory |
| `AAInstructions.CanInstructionRangeModRef` | llvm/lib/Analysis/AliasAnalysis.cpp:622-636 | true if and only if some instruction of the range is answered to meet the mode; false means that none really does |
| `AAInstructions.InstrCall` | llvm/lib/Analysis/AliasAnalysis.cpp:134-153 | for an access both bits are answered if the call may write or read its location, and none otherwise; a call that really touches the location is never answered with none |
| `ExceptionTables.ReadULEB128` | llvm/examples/ExceptionDemo/ExceptionDemo.cpp:335-351 | the number standing there, and the place after it; no shift leaves the range of an int |
| `ExceptionTables.ReadSLEB128` | llvm/examples/ExceptionDemo/ExceptionDemo.cpp:359-379 | the same for signed numbers of up to four bytes |
| `ExceptionTables.UnsignedRoundTrip` | llvm/examples/ExceptionDemo/ExceptionDemo.cpp:335-351 | every number that is encoded is read back, wherever it stands |
| `ExceptionTables.SignedRoundTrip` | llvm/examples/ExceptionDemo/ExceptionDemo.cpp:359-379 | the same for signed numbers |
| `ExceptionTables.KnownNumbers` | llvm/examples/ExceptionDemo/ExceptionDemo.cpp:335-379 | the examples of section 7.6 of DWARF 3 |
| `Personality.HandleActionValue` | llvm/examples/ExceptionDemo/ExceptionDemo.cpp:502-582 | for an own exception, the place in the chain of the first clause with its type, if there is one; foreign exceptions never match |
| `Personality.HandleLsda` | llvm/examples/ExceptionDemo/ExceptionDemo.cpp:596-765 | the walk over the bytes of the call sites and of the chain of actions gives the answer that the rows below spell out |
| `Personality.AnswerElsewhere` | llvm/examples/ExceptionDemo/ExceptionDemo.cpp:650-691 | where no call site with a landing pad has the place in its range, the exception passes, in both phases |
| `Personality.AnswerAtSite` | llvm/examples/ExceptionDemo/ExceptionDemo.cpp:650-761 | otherwise the first such call site decides: in the search phase a handler is reported if and only if the exception is ours and an offset of its chain leads to the type; in the cleanup phase its landing pad is entered, with the place of the first such offset, or 0 |
| `Personality.AnswerIsVerdict` | llvm/examples/ExceptionDemo/ExceptionDemo.cpp:691-761 | if the chain lists a function's catches in order, the selector is the place of the first catch with the type, or 0 |
| `ExceptionEmit.EmittedVerdict` | llvm/examples/ExceptionDemo/ExceptionDemo.cpp:621-765 | tables written for any call sites and any chains of actions are laid out as the walk expects; where the first call site with a landing pad that has the place in its range leads to a chain for a list of catches, they lead to the verdict for just these |
| `ExceptionEmit.EmittedElsewhere` | llvm/examples/ExceptionDemo/ExceptionDemo.cpp:650-691 | where no call site with a landing pad has the place in its range, as at the resumption, they let the exception pass |
| `ExceptionEmit.EmittedCleanup` | llvm/examples/ExceptionDemo/ExceptionDemo.cpp:673-761 | where the first that has it has no action, nothing is caught and the landing pad is entered for cleanup |
| `ExceptionFrames.CreateCatchWrappedInvokeFunction` | llvm/examples/ExceptionDemo/ExceptionDemo.cpp:1076-1324 | the function that the loops build, run on any exception and selector, catches, runs its finally block, frees the exception once and returns if an own clause is selected, and runs its finally block and resumes otherwise; without an exception it just runs its finally block |
| `ExceptionFrames.ThrownThrough` | llvm/examples/ExceptionDemo/ExceptionDemo.cpp:948-1054 | from the invoke through the switch on the selector to the end block or the resumption: the events of a frame through which an exception is thrown |
| `ExceptionFrames.PassedBy` | llvm/examples/ExceptionDemo/ExceptionDemo.cpp:1193-1204 | without an exception the finally block runs once and nothing is freed |
| `ExceptionStack.FrameAnswers` | llvm/examples/ExceptionDemo/ExceptionDemo.cpp:596-765 | the personality's walk over a frame's tables finds a handler if and only if the frame lists the type, and installs the landing pad with the place of the first clause that does, or 0 |
| `ExceptionStack.SearchFindsCatcher` | llvm/examples/ExceptionDemo/ExceptionDemo.cpp:742-748 | asking the personality frame by frame, the search phase stops at the innermost frame that lists the type |
| `ExceptionStack.Unwinds` | llvm/examples/ExceptionDemo/ExceptionDemo.cpp:596-1324 | for every stack of functions with their tables and blocks: an own exception is caught by the innermost frame that lists its type, by its first clause for it, and freed once, there; others and foreign ones pass all frames; each frame runs its finally block exactly once |
| `ExceptionStack.SeenOfCaught` | llvm/examples/ExceptionDemo/ExceptionDemo.cpp:948-1054 | event by event: the finally blocks of the frames inside; the catch by the first clause that lists the type, the finally block and the freeing in the innermost frame that does; and the finally blocks of the frames outside |
| `ExceptionStack.SeenOfNone` | llvm/examples/ExceptionDemo/ExceptionDemo.cpp:948-1054 | event by event, if no frame lists it: each finally block, from the inside out |
| `ExceptionStack.RaiseException` | llvm/examples/ExceptionDemo/ExceptionDemo.cpp:596-765 | the same of the two phases that call the byte-reading walk for each frame |
| `ExceptionStack.GeneratedDescribes` | llvm/examples/ExceptionDemo/ExceptionDemo.cpp:1076-1324 | a generated function with tables emitted for its invoke and its catches is such a frame |
| `CaseFold.Generator.DumpBlock` | llvm/utils/unicode-case-fold.py:66-99 | if the tests emitted so far fold the keys dumped before, the tests emitted now make them fold the block's keys too: right values for its keys, no key let through, nothing returned beyond the last, in all four patterns |
| `CaseFold.TestsHandle` | llvm/utils/unicode-case-fold.py:66-99 | the tests of a block return the right folding for its keys and let no key through, for every integer |
| `CaseFold.HandlesMore` | llvm/utils/unicode-case-fold.py:101-123 | tests of later blocks never undo what earlier ones decide |
| `CaseFold.Generator.Generate` | llvm/utils/unicode-case-fold.py:35-48 | the generated function maps every key of the table to its value and every other integer to itself; the error is raised exactly for unsorted tables; the tests are those of blocks of one shift and stride, none of which could take in the mapping behind it |
| `AbTest.CheckSequentially` | llvm/utils/abtest.py:111-123 | every name is tried alone, and is known good exactly when it passed |
| `AbTest.Bisection.TestPartition` | llvm/utils/abtest.py:134-151 | one test; what passes is closed, what fails alone is settled, what fails in company is queued; the number announced with it is the worst case for the partition, the one that comes next and those still queued, and covers all tests that are due |
| `AbTest.Bisection.Check` | llvm/utils/abtest.py:126-171 | for any test: each name not known good was tried alone and failed, each known good one passed in some company; the tests are those of the halves of what is split, and what is split is the whole list and then what failed, in the order in which it did; at each announcement the tests still run do not exceed the announced number; if the test fails exactly for b bad names, it takes at most 2b tests, or 2, for each time that the list can be halved |
| `AbTest.BothFindTheSame` | llvm/utils/abtest.py:111-171 | if the test fails exactly when it picks a bad choice, both ways return all other choices |
| `AbTestFunctions.ExtractFunctions` | llvm/utils/abtest.py:174-196 | for any lines, it fails if and only if an end marker comes before any begin marker; otherwise what is found is what the lines say one by one |
| `AbTestFunctions.ReplaceFunctions` | llvm/utils/abtest.py:199-223 | for any lines, each begin of a replaced function gives its replacement, each line between that and the next end marker nothing, and each other line itself |
| `AbTestFunctions.ExtractsFunctions` | llvm/utils/abtest.py:174-196 | from every file of functions and lines between them, all functions are extracted whole and in order |
| `AbTestFunctions.ReplacesFunctions` | llvm/utils/abtest.py:199-223 | exactly the named functions are replaced, in their places, and no other line changes |
| `AbTestFunctions.PickedAreExtracted` | llvm/utils/abtest.py:174-223 | after some functions are replaced, extracting finds the chosen texts for these and the old ones for all others |
| `AbTestFunctions.ReplacedByOwn` | llvm/utils/abtest.py:199-223 | replacing functions by themselves gives back the file |
| `McaAlign.InsertCounts` | llvm/utils/update_mca_test_checks.py:273-277 | an empty block before an unmoved block lowers the number of unmoved blocks by one, a further one leaves it |
| `McaAlign.Aligner.RecordFarthest` | llvm/utils/update_mca_test_checks.py:252-260 | no recorded index is short of the first place of its block in any list, and each that has grown is that place in some list |
| `McaAlign.Aligner.AlignMatchingBlocks` | llvm/utils/update_mca_test_checks.py:225-284 | a change moves the first block that is short of its farthest recorded index to just that index, keeps the non-empty blocks of every list in order and lowers the number of unmoved blocks; no change means that all are settled |
| `McaAlign.Aligner.AlignAll` | llvm/utils/update_mca_test_checks.py:339-342 | the loop ends for all block lists, by moves of the first short block to its recorded index alone; then no unmoved block stands before the first place of the same block in any list, and the lists are unchanged if and only if that, and the same of the indexes recorded earlier, was so before |
| `McaBlocks.PruneText` | llvm/utils/update_mca_test_checks.py:364-398 | kept is the least prefix that is common to all runs of the text and belongs to no other text; without one, the least prefix of each run that belongs to no other text; nothing else, in order and once each |
| `McaBlocks.PruneBlock` | llvm/utils/update_mca_test_checks.py:358-398 | the error is raised exactly when some non-empty text has no prefix of its own; otherwise just these prefixes are kept for each text |
| `McaBreakDown.CheckedFlush` | llvm/utils/update_mca_test_checks.py:173-179 | flushing the batches in sorted order gives each prefix just its own lines |
| `McaBreakDown.BreakDownBlock` | llvm/utils/update_mca_test_checks.py:143-202 | the lines for one prefix together with the common ones are exactly its text, when no two texts share a prefix; breaking down fails exactly when the first lines differ or lines differ without prefixes |
| `McaUnique.KeptIsClear` | llvm/utils/update_mca_test_checks.py:358-398 | with several texts, what pruning keeps is shared by no two of them and never contains the common prefix |
| `McaUnique.ChecksItsText` | llvm/utils/update_mca_test_checks.py:143-202 | a run that printed a text checks, of the lines that the block is broken down into, just this text if and only if it has exactly one of the prefixes kept for it |
| `McaUnique.ServedByOne` | llvm/utils/update_mca_test_checks.py:386-398 | a run has exactly one of the prefixes kept for its text if and only if an exclusive prefix is common to all runs of the text, or it has one and no other first one of a run |
| `McaUnique.UniqueBlock` | llvm/utils/update_mca_test_checks.py:358-411 | pruning followed by breaking down, for any block: an error exactly when a non-empty text has no prefix of its own; broken down exactly when there are several texts with equally many lines, the same first line and a common prefix; then a run checks just its text if and only if it is so served, which is said of the runs alone |
| `McaUnique.CheckedTwice` | llvm/utils/update_mca_test_checks.py:386-411 | a block that is broken down, any two texts of equal length and first line, in which a run does not check just its text |
| `ItaniumNames.ParseName` | llvm/utils/extract_symbols.py:224-242 | a parsed name is not empty and leaves a proper suffix |
| `ItaniumNames.SkipItaniumTemplate` | llvm/utils/extract_symbols.py:246-276 | the mutually recursive loops end and compute the specified function, whose remainder is a proper suffix |
| `ItaniumNames.ParseItaniumNestedName` | llvm/utils/extract_symbols.py:280-318 | the same for nested names |
| `ItaniumRoundTrip.SkipsTokens` | llvm/utils/extract_symbols.py:246-276 | written template arguments of the kinds that open with `I` or `N`, however nested, are skipped to the `E` that ends them |
| `ItaniumRoundTrip.GroupEndsList` | llvm/utils/extract_symbols.py:270-275 | a pack, function type, local name, lambda, decltype or whatever else is opened by other letters than `I` and `N`, coming first, ends the whole list with its own `E` |
| `ItaniumRoundTrip.CountedLoses` | llvm/utils/extract_symbols.py:252-256 | with anything after it, a number n behind letters loses exactly n - 1 characters behind the underscore |
| `ItaniumRoundTrip.FunctionEndsList` | llvm/utils/extract_symbols.py:270-275 | a pointer to a function as the only argument: the list is taken to end one `E` early |
| `ItaniumRoundTrip.ArrayLosesEnd` | llvm/utils/extract_symbols.py:252-256 | an array of nine characters as the only argument: the list has no end |
| `ItaniumRoundTrip.WidthLosesEnd` | llvm/utils/extract_symbols.py:252-256 | a floating type of width 16, or the unnamed type 4 with another argument behind it: neither list has an end |
| `ItaniumRoundTrip.DecltypeEndsList` | llvm/utils/extract_symbols.py:270-275 | a decltype as the only argument: the list is taken to end one `E` early |
| `ItaniumGroups.ReadsArguments` | llvm/utils/extract_symbols.py:246-276 | from any place between arguments, whatever lists and names are open there, reading on to the end of a list closes no more than one of the `E` that are left over |
| `ItaniumGroups.ReadsNames` | llvm/utils/extract_symbols.py:280-318 | the same of reading on to the end of a nested name, from any place where an early end may have left it |
| `ItaniumGroups.SkippedIffNoneLoose` | llvm/utils/extract_symbols.py:246-276 | template arguments are skipped right if and only if nothing that is closed by an `E` but opened by other letters than `I` and `N`, and no abbreviated name with arguments, is among them, at any place and any depth; each of them leaves at least one character over |
| `ItaniumGroups.ParsedIffNoneLoose` | llvm/utils/extract_symbols.py:280-318 | a nested name is parsed into its names if and only if it does not begin with a standard abbreviation and there is none of these among its arguments, at any depth |
| `ItaniumCounts.CountedIff` | llvm/utils/extract_symbols.py:252-256 | at any depth of argument lists and nested names, a number behind letters is skipped right whatever arguments follow if and only if it is at most 1 |
| `ItaniumCounts.CountedLanding` | llvm/utils/extract_symbols.py:252-256 | with given arguments behind it, a list that begins with such a number is skipped right if and only if what is left of their characters is; so it is if whole arguments are lost, and never if more is lost than there is |
| `ItaniumCounts.ExpressionRefused` | llvm/utils/extract_symbols.py:267-269 | after any well-behaved arguments, one that begins with `L` or `X` makes the whole list too complex |
| `ItaniumCounts.NameRefused` | llvm/utils/extract_symbols.py:280-318 | in the arguments of any component of a nested name that makes the whole name too complex |
| `ItaniumCounts.NoListWithoutE` | llvm/utils/extract_symbols.py:246-276 | no list of arguments is ever taken to end in a text without an `E` |
| `ItaniumCounts.NoNameWithoutE` | llvm/utils/extract_symbols.py:280-318 | nor is a nested name |
| `ItaniumGroups.AccidentOfName` | llvm/utils/extract_symbols.py:224-242 | a pack in a nested name that is skipped right, because an identifier contains an `E` |
| `ItaniumGroups.AccidentOfConstructor` | llvm/utils/extract_symbols.py:224-242 | the same because of the name of a constructor |
| `ItaniumRoundTrip.ParsesNested` | llvm/utils/extract_symbols.py:280-318 | every written nested name of identifiers, constructors and destructors with arguments of these kinds, with anything after it, is parsed into exactly its names and template flags, and what follows is left |
| `ItaniumRoundTrip.ParsesStd` | llvm/utils/extract_symbols.py:237-240 | one that begins with a standard abbreviation and has no arguments is read to its end, but as one name |
| `Rendezvous.WaitForThreads.Block` | llvm/examples/ParallelJIT/ParallelJIT.cpp:166-191 | the critical section counts the thread, and resets both counters when it is the last one waited for |
| `Rendezvous.WaitForThreads.ReleaseThreads` | llvm/examples/ParallelJIT/ParallelJIT.cpp:196-215 | the critical section releases if enough threads wait, and records how many it waits for otherwise |
| `Rendezvous.StepInv` | llvm/examples/ParallelJIT/ParallelJIT.cpp:166-233 | every step of every thread keeps the invariant: all gather, counted, or all have been released; the assertion on n and waitFor holds |
| `Rendezvous.NoneLeavesEarly` | llvm/examples/ParallelJIT/ParallelJIT.cpp:166-233 | in every interleaving, once one thread is through, every worker has entered and the release has been called |
| `Rendezvous.EveryRunFinishes` | llvm/examples/ParallelJIT/ParallelJIT.cpp:166-233 | no run is longer than five steps per thread, and a run that cannot go on has brought every thread back and reset the object |
| `AssumptionPatterns.AddAffectedFromEq` | llvm/lib/Analysis/AssumptionCache.cpp:87-106 | what is collected from an operand of an equality is what the patterns look at below it |
| `AssumptionPatterns.AffectedValues` | llvm/lib/Analysis/AssumptionCache.cpp:57-111 | the values collected are exactly those that the condition affects |
| `AssumptionPatterns.AffectsIffPart` | llvm/lib/Analysis/AssumptionCache.cpp:57-111 | those are the arguments and instructions that are a part of the condition, or that a part casts or inverts: itself, both sides of a comparison, and on both sides of an equality what is inverted, combined bit by bit or shifted by a constant there, or so combined in what is inverted |
| `AssumptionCacheModel.AssumptionCache.UpdateAffectedValues` | llvm/lib/Analysis/AssumptionCache.cpp:113-118 | the lists stay free of duplicates and list the new assumption for just the values it affects |
| `AssumptionCacheModel.AssumptionCache.ScanFunction` | llvm/lib/Analysis/AssumptionCache.cpp:150-167 | after the scan every assumption in the function is cached once, and listed for just the values it affects |
| `AssumptionCacheModel.AssumptionCache.RegisterAssumption` | llvm/lib/Analysis/AssumptionCache.cpp:169-204 | before the scan nothing changes, after it the assumption is added to the cache and the lists, whatever has been replaced before; complete lists stay complete and exact ones exact |
| `AssumptionCacheModel.AssumptionCache.CopyAffectedValues` | llvm/lib/Analysis/AssumptionCache.cpp:127-136 | the new value's list becomes the union of both, without duplicates, and no other list changes |
| `AssumptionReplacement.AffectsAfter` | llvm/lib/Analysis/AssumptionCache.cpp:61-111 | after all uses of a value are replaced a condition affects just what is looked at where the replacement shows, and, renamed, what was looked at aside of it |
| `AssumptionReplacement.MissedIffNew` | llvm/lib/Analysis/AssumptionCache.cpp:61-148 | a value is affected afterwards and neither was before nor takes over the old value's list if and only if it is newly affected: looked at where the replacement shows, not before, and not the new value itself |
| `AssumptionReplacement.NewByLevel` | llvm/lib/Analysis/AssumptionCache.cpp:61-111 | with an argument, instruction or plain constant, newly affected is just what the patterns look at below it at a level at which the old value stood, if it was not affected already |
| `AssumptionReplacement.NewByKind` | llvm/lib/Analysis/AssumptionCache.cpp:61-111 | with a value that no pattern looks below nothing is newly affected, with a cast just its operand, where the old value stood and unless it was affected already |
| `AssumptionReplacement.NewWhereShown` | llvm/lib/Analysis/AssumptionCache.cpp:61-111 | with any new value, a condition in which the replacement does not show affects nothing new |
| `AssumptionReplacement.AffectsAfterOpaque` | llvm/lib/Analysis/AssumptionCache.cpp:61-111 | after a replacement by a value that no pattern looks below, a condition affects just what it affected aside of the old value, and the new value where the old one stood |
| `AssumptionCacheModel.AssumptionCache.ReplaceAllUses` | llvm/lib/Analysis/AssumptionCache.cpp:138-148 | nothing is cached twice or lost; lists that were exact are complete for the program as it is then if and only if nothing is newly affected, and complete ones stay so in that case |
| `AssumptionCacheModel.NothingNewByKind` | llvm/lib/Analysis/AssumptionCache.cpp:138-148 | with a value that no pattern looks below nothing is newly affected; with a cast nothing is if and only if each assumption above the old value affects the operand of the cast already |
| `AssumptionCacheModel.CastLooksFurther` | llvm/lib/Analysis/AssumptionCache.cpp:138-148 | a replacement by a cast after which an assumption affects a value that does not list it |
| `AssumptionCacheModel.ConstantLooksFurther` | llvm/lib/Analysis/AssumptionCache.cpp:138-148 | a replacement by an integer, as the amount of a shift, after which the same holds |
| `AssumptionCacheModel.ListedIffLed` | llvm/lib/Analysis/AssumptionCache.cpp:113-148 | an assumption is listed for a value if and only if it affected, when it was registered, a value that replacements have led to this one since |
| `AssumptionCacheModel.Follow` | llvm/lib/Analysis/AssumptionCache.cpp:127-204 | whatever calls are added and registered, values replaced and assumptions asked for, in any order: each assumption in the function ends up cached once, those registered before the scan too, and listed once for just the values above; without replacements, for just those it affects |

## Left out

- Stream, file and process input and output, argument parsing and printing: texts are sequences of characters, lines or bytes, and test runs are functions.
- BrainF: printing modules, JIT execution and IR construction as such; only instructions whose meaning matters exist, and SSA names are numbers. Run lengths are 32-bit integers there, which the model wraps as the original does when it emits a constant; runs themselves are not bounded. The allocated tape is assumed not to wrap around the end of the address space.
- CFG analyses: dominator trees and loop information are given by what they promise (dominance; blocks of an outermost loop reach each other; exits are the successors outside), not computed.
- Alias set tracker: each pointer has one access size and one metadata tag, so the case of a grown size (lines 351-361) does not arise; which accesses an instruction makes (lines 376-488) is given with it; the instruction handles that become null when an instruction is deleted, `getUniqueInstruction`, `clear` and adding another tracker are not modelled.
- Alias set tracker: sets are named by numbers instead of addresses, and what they hold is a sequence, so the linking of list nodes is not captured.
- AliasTracker.TrackFunction: once other instructions than loads and stores are among the accesses, the total that decides about saturation falls short of the pointers in may-alias sets by an amount that depends on their order, so that only the one direction is stated, that no more pointers than the threshold never saturate. After deletions nothing is claimed of the total.
- AliasTracker.AliasSetTracker.DeleteValue: keeps sets apart but not connected, because deleting a pointer does not split its set.
- Alias analysis: nothing is claimed of the Must bit, and `callCapturesBefore` is not modelled.
- Exception demo: encoded numbers stay within what the source's shifts in a 32-bit int can hold (below 2^31, or four bytes for signed ones); longer encodings are undefined there. Pointers in tables are absolute offsets in two formats; pc-relative and indirect ones, a landing pad base, and the lookup of type information by address are not modelled. The unwinder is the two-phase procedure of the ABI with a harness outside that catches everything.
- Case folding: the comment texts and number formats of the generated source are not modelled.
- abtest: the sanity check before the search; finding a marker within a line, which is given with the line here.
- update_mca_test_checks: running the tool, splitting its output into blocks, padding the lists to one length, and writing the checks.
- extract_symbols: names are read by the code's own rules, digits being those of ASCII. No written form exists here for operator names, which the code takes up to the next `E`, ABI tags, unnamed types and decltypes as parts of nested names, qualifiers before a substitution, expressions that begin with `L` or `X` inside others, and numbers with no letter before them, such as that of a lambda; deciding which symbols to keep is not modelled.
- ItaniumGroups.SkippedIffNoneLoose: in nested names that hold an argument with an `E` of its own, or begin with an abbreviation, identifiers and substitutions contain no `E`, no constructors occur, and neither a single letter nor the letters before a number or a group are just `C` or `D`, because otherwise the skipping may come right by accident, as ItaniumGroups.AccidentOfName and ItaniumGroups.AccidentOfConstructor show. Numbers behind letters are at most 1 there; ItaniumCounts.CountedIff is about the others.
- Rendezvous: no spurious wake-ups, which the original does not guard against.
- Assumption cache: handles that become null when a call is deleted, and deletion of values and of the whole cache.
