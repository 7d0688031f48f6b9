# A verified model of parts of the compiler's middle end and support code

The project models five parts of the compiler in Dafny and proves what they are meant to keep. All
state that the C++ code changes in place is changed in place here too: nodes, edges, tokens, values
and ids are objects on linked lists, and every method is proved against a function on values or a
predicate on the heap, about which the laws are then proved as lemmas.

* **The call graph** (`cgraph.cc`, `cgraph.h`). `CallGraphTypes` has the objects. A `Graph` value
  records the order of all lists and the fields of all edges; `Represents(g, hs)` says that the heap
  shows it. A `Site` is what one caller holds for one call statement: its direct edges in list order,
  its indirect edge, its speculative references. `WellFormed` is what the verifier of speculative
  calls accepts (`CallGraphVerify`), and that speculative references are to functions that are there.
  The class `SymbolTables.SymbolTable` has the operations; each one takes the graph value to the one
  its specification function gives, and its contract says exactly when the graph stays well formed.
  `CallGraphRuns` carries this over to whole runs.
* **The clone forest** (`cgraph.cc`): the traversal without a stack, and taking a node out.
* **Diagnostics** (`diagnostic.cc`): the history of pragmas as a flat list with jumps against a stack
  of settings, the protocol of diagnostic groups, and counters and buffers.
* **The pretty-printer** (`pretty-print.cc`): the UTF-8 encoder and decoder, quoting, identifiers in
  the locale, the token list and its passes, and the line wrapper.
* **Templates of the machine description** (`read-rtl.cc`) and **collected constructors**
  (`collect2.cc`).

`dafny verify dfyconfig.toml` checks everything.

## Where the code falls short of what it promises

For each of these the exact condition is proved, so that a caller can see what to check, and an input
or a run from the beginning that fails it.

* A further speculative target keeps the call well formed only while the targets it has stand at the
  front of the caller's list (`MakeSpeculativeKeeps`, `SpeculateBehind`); resolving in favour of one
  target only when it is the last one (`ResolveKeeps`, `ResolveAmongSeveral`); making direct only if
  at most one target matches (`MakeDirectKeeps`, `DirectToBoth`); a new statement for a single
  component never (`LoneComponentKeeps`, `RenameAlone`).
* Removing a function does harm exactly if another function calls it speculatively or holds a
  speculative reference to it (`RemoveNodeKeeps`, `RemoveGuessed`). A reference may be left when the
  call itself has been redirected, so that nobody calls the function any more (`RemoveRedirected`).
* `assign_summary_id` forgets the id the edge had before (`AssignKeeps`, `AssignTwice`).
* The verifier of speculative calls follows a null pointer when a speculative indirect edge has no
  direct edge (`VerifySpeculativeCall`, `NoTargetLeft`).
* `update_effective_level_from_pragmas` stops at the first inlining location with a setting, even if
  that is "unspecified"; its comment says that it goes on (`CommentHoldsIff`, `CommentFails`).
* When the active buffer is moved into one without per-sink buffers, later reports are counted in the
  one and kept in the other (`ReportAfterMove`, `MoveActiveBuffer`). A buffer that is moved to itself
  loses its reports exactly if it counted any (`MoveBuffer`, `MoveToItself`).
* The clone checks of the verifier of nodes do not see that a clone is on nobody's list
  (`CheckedIsForest`, `RingPasses`), and follow a null pointer when a clone that is not the first one
  has no previous sibling (`VerifyClonePointers`).
* Expansions of custom tokens come out in reverse (`ExpandKeepsOrder`, `ExpansionReversed`).
* `sort_ids` does not update the pointer to the last id (`SortIds`, `LastStays`, `LastMoves`).
* A newline given to `pp_character` or `pp_append_text` is counted as part of the line (`Character`,
  `AppendText`, `NewlineCounted`).
* Without destructors and frame tables the emitted finalization does not count, so that an
  initialization after as many finalizations does nothing (`SetUpAgainIff`, `NotSetUpAgain`).

## Model

| member | source | states |
|---|---|---|
| `CallSiteHash.FindOnList` | src/gcc/cgraph.cc:782-795 | the loop finds the first edge for the statement, and how many edges stand before it |
| `CallSiteHash.AddEdgeToCallSiteHash` | src/gcc/cgraph.cc:742-762 | which edge has the slot afterwards: a speculative indirect edge never takes it, a direct edge takes it from the others only as the first of its run |
| `CallSiteHash.BuildCallSiteHash` | src/gcc/cgraph.cc:797-804 | the table built from both lists answers every statement like the scan |
| `CallSiteHash.GetEdge` | src/gcc/cgraph.cc:767-807 | with or without a table, built now or before, the answer is the first direct edge of the statement, else its indirect edge |
| `CallSiteHash.HashesAfter` | src/gcc/cgraph.cc:742-762 | when one call site has changed, all tables are right again as soon as its slot is |
| `CallGraphHeap.SetCallee` | src/gcc/cgraph.h:3282-3290 | the edge is first on the callers list of its new callee; no other list and no field of another edge changes |
| `CallGraphHeap.RemoveCallee` | src/gcc/cgraph.h:3307-3317 | the edge is off its callee's callers list, its neighbours are joined, all else is as before |
| `CallGraphHeap.PrependOut` | src/gcc/cgraph.cc:1047-1050 | the edge is in front of its caller's list |
| `CallGraphHeap.CutOut` | src/gcc/cgraph.cc:1060-1070 | the edge's neighbours on its caller's list are joined, or the list's head is moved on |
| `CallGraphResolve.RemoveCaller` | src/gcc/cgraph.cc:1057-1075 | the heap shows the graph with the edge off its caller's list, and the table without it if it had the slot |
| `CallGraphWalks.NextSpeculativeCallTarget` | src/gcc/cgraph.h:1768-1778 | of target i of a call, target i + 1, or null after the last |
| `CallGraphWalks.FirstSpeculativeCallTarget` | src/gcc/cgraph.cc:1170-1194 | from any component of a speculative call, its first target |
| `CallGraphWalks.SpeculativeCallIndirectEdge` | src/gcc/cgraph.h:1782-1794 | from any component, the one indirect edge |
| `CallGraphWalks.TargetRefIndex` | src/gcc/cgraph.h:1804-1815 | the search ends, and at the first reference with the target's statement and id |
| `CallGraphInvariants.CreateEdgeKeeps` | src/gcc/cgraph.cc:899-993 | a new direct call keeps the graph well formed if and only if its statement had no edge |
| `CallGraphInvariants.CreateIndirectEdgeKeeps` | src/gcc/cgraph.cc:1013-1053 | the same for a new indirect call |
| `CallGraphInvariants.RemoveKeeps` | src/gcc/cgraph.cc:1093-1108 | removing an edge keeps the graph well formed if and only if it is not speculative |
| `CallGraphInvariants.MakeSpeculativeKeeps` | src/gcc/cgraph.cc:1131-1162 | a further target keeps the graph well formed if and only if its id is new at the site and below 256 and the site's targets stand at the front of the caller's list |
| `CallGraphInvariants.DropTargetKeeps` | src/gcc/cgraph.cc:1234-1299 | giving up any one target keeps the graph well formed |
| `CallGraphInvariants.KeepTargetKeeps` | src/gcc/cgraph.cc:1234-1299 | keeping one target and giving up the indirect edge does so if and only if it was the only target |
| `CallGraphInvariants.BecomeDirectKeeps` | src/gcc/cgraph.cc:1365-1392 | turning an indirect edge direct does so if and only if it is not speculative |
| `CallGraphInvariants.RedirectKeeps` | src/gcc/cgraph.cc:1397-1406 | redirecting a direct edge always does, speculative or not |
| `CallGraphSettle.ResolveKeeps` | src/gcc/cgraph.cc:1234-1299 | a resolution keeps the graph well formed if and only if no other target is left when it succeeds |
| `CallGraphRename.RenameKeeps` | src/gcc/cgraph.cc:831-864 | giving all components of a call a new statement does so if and only if the call or the new statement has no edge, or they are the same |
| `CallGraphUpdates.SetCallStmtKeeps` | src/gcc/cgraph.cc:815-892 | a new statement keeps the graph well formed if and only if no other call of the function has it, also when the call turns direct on the way |
| `CallGraphUpdates.SetCallStmtReturns` | src/gcc/cgraph.cc:815-892 | the edge returned has the new statement; it is the edge asked for if that is the indirect edge of a call that stays speculative, and else the one that stands for the new statement; a call that turns direct is left as that one edge with the whole count, and otherwise exactly the edges of the call get the new statement |
| `CallGraphUpdates.LoneComponentKeeps` | src/gcc/cgraph.cc:869-891 | a new statement for one component alone breaks every speculative call |
| `CallGraphMakeDirect.MakeDirectKeeps` | src/gcc/cgraph.cc:1321-1392 | making a call direct keeps the graph well formed if and only if at most one target is equivalent to the callee |
| `CallGraphMakeDirect.MakeDirectLeavesOne` | src/gcc/cgraph.cc:1321-1392 | whatever component it is asked for and however many targets there are, one plain direct edge is left at the site, the matching target or else the former indirect edge, with the count of the whole call; no other site changes |
| `CallGraphDirect.DropOthersSite` | src/gcc/cgraph.cc:1334-1354 | the loop over the targets leaves the matching ones, in order, and keeps the sum of the counts |
| `CallGraphDirect.SpeculatedCount` | src/gcc/cgraph.cc:1143-1154 | a further target leaves the total count of the call as it was |
| `CallGraphNodes.AddNodeKeeps` | src/gcc/cgraph.cc:505-525 | a new function keeps the graph well formed and all call sites as they are |
| `CallGraphRemoval.RemoveCallersKeeps` | src/gcc/cgraph.cc:1813-1829 | removing all calls of a function keeps the graph well formed if and only if none of them is speculative |
| `CallGraphRemoval.RemoveCalleesKeeps` | src/gcc/cgraph.cc:1776-1809 | removing all calls made by a function likewise: the references of a speculative one would be left over |
| `CallGraphRemoval.RemoveNodeKeeps` | src/gcc/cgraph.cc:1914-1940 | removing a function keeps the graph well formed if and only if no other function calls it speculatively or holds a speculative reference to it, whatever it calls itself |
| `CallGraphRemoval.RemoveNodeLists` | src/gcc/cgraph.cc:1914-1940 | exactly the edges from and to the function are gone, all others are as they were |
| `CallGraphRemovalHeap.RemoveAllIs` | src/gcc/cgraph.cc:1782-1784 | removing edges properly one after the other comes to the same as leaving them out of all lists at once |
| `CallGraphRemovalHeap.RemoveAllCallers` | src/gcc/cgraph.cc:1813-1829 | unlinking at the callers' side and dropping the list as a whole shows the graph from which every call was removed properly |
| `CallGraphRemovalHeap.RemoveAllCallees` | src/gcc/cgraph.cc:1776-1809 | likewise at the callees' side |
| `CallGraphRemovalHeap.RemoveNodeHashes` | src/gcc/cgraph.cc:1914-1940 | afterwards the tables of all other functions still answer like the scan |
| `CallGraphRuns.StepKeeps` | src/gcc/cgraph.cc:3388-3520 | each of the twelve operations keeps the graph well formed if and only if the condition stated for it holds before |
| `CallGraphRuns.RunKeeps` | src/gcc/cgraph.cc:3388-3520 | every graph that such operations reach from a well-formed one is well formed |
| `CallGraphRuns.RunCounts` | src/gcc/cgraph.cc:1143-1154 | speculating, resolving, making direct, moving calls to new statements and redirecting, in any order and number, keep the total count of every call, wherever its statement has gone |
| `CallGraphRuns.CallsStayApart` | src/gcc/cgraph.cc:836-893 | two statements of a function are never brought together by such a run, so that the counts of two calls cannot be either |
| `CallGraphRuns.SpeculationIsFree` | src/gcc/cgraph.cc:1321-1392 | an indirect call that goes through any such run, new statements included, and is made direct in the end is left as one plain edge with the count it started with |
| `CallGraphVerify.VerifySpeculativeCall` | src/gcc/cgraph.cc:3388-3520 | the verdict in all cases: for the indirect edge, fine if and only if the checks of targets, table, references and number hold; a null pointer without a direct edge; for the other components, whether a speculative indirect edge is there |
| `CallGraphVerify.ScanDirects` | src/gcc/cgraph.cc:3426-3462 | the loop over the direct edges finds nothing wrong if and only if they are adjacent and speculative with different ids in range |
| `CallGraphVerify.ScanRefs` | src/gcc/cgraph.cc:3472-3492 | the loop over the references finds nothing wrong if and only if their ids are different and in range |
| `CallGraphVerify.CompareTables` | src/gcc/cgraph.cc:3494-3510 | the two tables agree if and only if edges and references have the same ids, and the number is that of the references |
| `CallGraphVerify.AcceptedIsSpeculative` | src/gcc/cgraph.cc:3388-3520 | for the only indirect edge of a statement, the full check accepts exactly the well-formed speculative calls with adjacent targets and the right slot |
| `CallGraphVerify.ContentIff` | src/gcc/cgraph.cc:3721-3762 | with all calls of the routine for one statement, the verifier is content if and only if nothing there is speculative or the call is a well-formed speculative one |
| `CallGraphVerify.WellFormedIsVerified` | src/gcc/cgraph.cc:3721-3762 | it is content with every statement of a well-formed graph with right tables |
| `CallGraphExamples.GuessedReached` | src/gcc/cgraph.cc:1131-1162 | a run from the empty graph reaches the example of a speculative call |
| `CallGraphExamples.SpeculateBehind` | src/gcc/cgraph.cc:1131-1162 | a careful run after which a further target does harm |
| `CallGraphExamples.ResolveAmongSeveral` | src/gcc/cgraph.cc:1234-1299 | a careful run after which a successful resolution does harm |
| `CallGraphExamples.DirectToBoth` | src/gcc/cgraph.cc:1321-1392 | a careful run after which making the call direct does harm |
| `CallGraphExamples.RemoveTarget` | src/gcc/cgraph.cc:1093-1108 | a careful run after which removing an edge does harm |
| `CallGraphExamples.NoTargetLeft` | src/gcc/cgraph.cc:3464-3465 | after it a speculative indirect edge has no direct edge, where the verifier follows a null pointer |
| `CallGraphExamples.RemoveGuessed` | src/gcc/cgraph.cc:1914-1940 | a careful run after which removing the guessed function does harm |
| `CallGraphExamples.RemoveRedirected` | src/gcc/cgraph.cc:1397-1406 | a careful run after which removing a function does harm that nobody calls: the call was redirected, the reference was not |
| `CallGraphExamples.RenameAlone` | src/gcc/cgraph.cc:869-891 | a careful run after which a new statement for one component does harm |
| `CallGraphExamples.AssignTwice` | src/gcc/cgraph.h:2457-2465 | a second id for one edge loses the first |
| `SymbolTables.SymbolTable.constructor` | src/gcc/cgraph.cc:277-287 | an empty graph, well formed and with all ids accounted for |
| `SymbolTables.SymbolTable.GetEdge` | src/gcc/cgraph.cc:767-807 | in every valid state the answer is the first edge for the statement on the list of direct edges, and if there is none, the first on the other list; the graph is unchanged |
| `CallGraphOutcomes.RepresentativeAnswers` | src/gcc/cgraph.cc:767-807 | the edge that stands for a site is the first on the caller's lists |
| `SymbolTables.SymbolTable.CreateNode` | src/gcc/cgraph.cc:505-525 | the graph with a new function without calls |
| `SymbolTables.SymbolTable.CreateEdge` | src/gcc/cgraph.cc:899-993 | the new edge is first on both lists and has the callee, the statement and the count it was given, no other edge changes, the tables stay right, and the state is valid if and only if the statement had no edge |
| `SymbolTables.SymbolTable.CreateIndirectEdge` | src/gcc/cgraph.cc:1013-1053 | the new edge is first on indirect_calls, with call info, the tables stay right, also when the statement has a speculative call, and the state is valid if and only if it had no edge |
| `SymbolTables.SymbolTable.MakeSpeculative` | src/gcc/cgraph.cc:1131-1162 | the new edge is a speculative one to the target, with the id and the count given, which the indirect edge loses; the heap shows the graph with it and its reference; the tables stay right; valid if and only if the id is new and the targets stand in front |
| `SymbolTables.SymbolTable.Remove` | src/gcc/cgraph.cc:1093-1108 | the edge is off all lists and freed; valid if and only if it was not speculative |
| `SymbolTables.SymbolTable.ResolveSpeculation` | src/gcc/cgraph.cc:1234-1299 | asked for at a target, it is about that one, and at the indirect edge about the first target: the target is left with the count of both if its reference stands for the declaration, and else the indirect edge is; the edge left is returned, the tables stay right; valid unless a target is kept while others are left |
| `CallGraphOutcomes.ResolutionSite` | src/gcc/cgraph.cc:1234-1299 | what is left of targets, indirect edge, counts and references, by position at the site |
| `SymbolTables.SymbolTable.MakeDirect` | src/gcc/cgraph.cc:1321-1392 | one plain edge with the whole count is left and returned: the target whose reference stands for the callee if there is one, else the former indirect edge, leading to the callee now; all freed edges are accounted for, and the state is valid |
| `CallGraphOutcomes.SurvivorIsLeft` | src/gcc/cgraph.cc:1321-1392 | the edge left is a target if and only if one has a reference for the callee |
| `SymbolTables.SymbolTable.SetCallStmt` | src/gcc/cgraph.cc:815-892 | edges, references and tables move to the new statement, the call is made direct first if the statement says so, the edge returned is the one that stands for the new statement, or the indirect edge it was asked for while the call stays speculative, and the state is valid |
| `SymbolTables.SymbolTable.RedirectCallee` | src/gcc/cgraph.cc:1397-1406 | the edge moves to the callers of the new callee, no other field of an edge changes, and the state is valid |
| `SymbolTables.SymbolTable.RemoveCallers` | src/gcc/cgraph.cc:1813-1829 | the heap shows the graph without the calls of the function; valid if and only if none was speculative |
| `SymbolTables.SymbolTable.RemoveCallees` | src/gcc/cgraph.cc:1776-1809 | the heap shows the graph without the calls made by the function, its table is gone and the others are right; valid if and only if none was speculative |
| `SymbolTables.SymbolTable.RemoveNode` | src/gcc/cgraph.cc:1914-1940 | the heap shows the graph without the function; valid if and only if no other function calls it speculatively or holds a speculative reference to it |
| `SymbolTables.SymbolTable.AssignSummaryId` | src/gcc/cgraph.h:2457-2465 | the edge has an id that no other edge has, the one released last if there is any and else a new one, and the state is valid if and only if it had none before |
| `SummaryIds.AllocateKeeps` | src/gcc/cgraph.cc:918-941 | a new edge without an id keeps all ids distinct and none lost |
| `SummaryIds.FreeKeeps` | src/gcc/cgraph.cc:1079-1089 | a freed edge gives back its id, ids in use and released ids stay disjoint and none is lost |
| `SummaryIds.AssignKeeps` | src/gcc/cgraph.h:2457-2465 | the new id is nobody else's, and none is lost if and only if the edge had none before; a new id is made if and only if all that there are are in use |
| `SummaryIds.LastReleasedFirst` | src/gcc/cgraph.h:2457-2465 | the id that was released last is the first to be used again |
| `EdgePools.EdgePool.Register` | src/gcc/cgraph.cc:918-941 | the count is that of the live edges and the ids are accounted for, with the new edge |
| `EdgePools.EdgePool.FreeEdge` | src/gcc/cgraph.cc:1079-1089 | the same without the freed edge |
| `EdgePools.EdgePool.AssignSummaryId` | src/gcc/cgraph.h:2457-2465 | a released id is used again, else a new one; the account stays complete if and only if the edge had no id |
| `CloneForest.ShownIsVerified` | src/gcc/cgraph.cc:3776-3814 | in a heap that shows a forest the list of a node ends and holds its clones in order, with the links and the origin that the forest says |
| `CloneForest.VerifyClonePointers` | src/gcc/cgraph.cc:3776-3814 | the clone checks of one node: no error if and only if the pointers of the node and the origins on its list of clones are as they ask; a null pointer is followed if and only if a clone that is not the first one has no previous sibling |
| `CloneForest.CheckedIsForest` | src/gcc/cgraph.cc:3776-3814 | all nodes pass the checks, and every clone is on its origin's list, if and only if the pointers show a forest; that the clone is on the list is not checked |
| `CloneForest.ShownIsDescribed` | src/gcc/cgraph.cc:3776-3814 | so every node of a heap that shows a forest passes |
| `CloneForest.RingPasses` | src/gcc/cgraph.cc:3776-3814 | two clones linked in a ring, on the list of nobody, and their origin pass all checks |
| `CloneForest.PreorderMembers` | src/gcc/cgraph.cc:1752-1770 | the traversal order lists exactly the node and its descendants |
| `CloneForest.PreorderDistinct` | src/gcc/cgraph.cc:1752-1770 | it lists none of them twice |
| `CloneForest.UpdateClones` | src/gcc/cgraph.cc:1743-1770 | the walk without a stack ends and updates every node of the tree that is not a thunk once, in preorder, even when its root has siblings |
| `CloneForest.SpliceValid` | src/gcc/cgraph.cc:1941-1991 | taking out any node leaves a forest |
| `CloneForest.SpliceUnder` | src/gcc/cgraph.cc:1941-1991 | all other nodes are descendants of each other exactly as before |
| `CloneForest.SplicePreorder` | src/gcc/cgraph.cc:1941-1991 | a later walk from any other node visits what it did before, but for the removed node |
| `CloneForest.SpliceRoots` | src/gcc/cgraph.cc:1980-1990 | the clones of a removed root are roots |
| `CloneForest.RemoveClone` | src/gcc/cgraph.cc:1941-1991 | the pointers show the forest without the node |
| `DiagnosticPragmas.ScanIsReplay` | src/gcc/diagnostic.cc:1206-1248 | for any pushes, pops and classifications in location order, any location and any option, the backward scan with jumps gives the setting after replaying the pragmas up to that location on a stack |
| `DiagnosticPragmas.UpToMeans` | src/gcc/diagnostic.cc:1206-1248 | the pragmas replayed are exactly those at or in front of the location |
| `DiagnosticPragmas.PopRestores` | src/gcc/diagnostic.cc:196-217 | whatever is nested in between, a pop brings back the settings of its push |
| `DiagnosticPragmas.ClassifiedSets` | src/gcc/diagnostic.cc:1041-1087 | a pragma sets its option, or all options at once, and leaves the others |
| `DiagnosticPragmas.OptionClassifier.Push` | src/gcc/diagnostic.cc:196-201 | the flat list and the stack of jumps are those of the events with one more push |
| `DiagnosticPragmas.OptionClassifier.PopTo` | src/gcc/diagnostic.cc:205-217 | likewise for a pop; an unmatched one goes back to no setting at all |
| `DiagnosticPragmas.OptionClassifier.Classify` | src/gcc/diagnostic.cc:1041-1087 | which of the two states changes, how, and the kind that is returned, out-of-range arguments included |
| `DiagnosticPragmas.LastAboutMeans` | src/gcc/diagnostic.cc:1041-1087 | the kind found for a pragma is that of the last entry with the option, and the default without one |
| `DiagnosticPragmas.OptionClassifier.LookUp` | src/gcc/diagnostic.cc:1219-1244 | the loop over the history finds the setting of the replay |
| `DiagnosticPragmas.OptionClassifier.UpdateEffectiveLevel` | src/gcc/diagnostic.cc:1206-1248 | the first location with a setting decides, and the diagnostic gets that kind unless it is unspecified |
| `DiagnosticPragmas.CommentFails` | src/gcc/diagnostic.cc:1213-1243 | an input for which stopping there differs from what the comment says |
| `DiagnosticPragmas.CommentHoldsIff` | src/gcc/diagnostic.cc:1213-1243 | they agree if and only if the first setting found is a kind, or the option has no kind at any later location |
| `DiagnosticOutput.PhaseMeans` | src/gcc/diagnostic.cc:1479-1483 | a call sequence accepted by the automaton is a sequence of groups with at least one report each, plus at most one open group |
| `DiagnosticContexts.Context.BeginGroup` | src/gcc/diagnostic.cc:1760-1764 | nothing is sent, the state stays valid |
| `DiagnosticContexts.Context.EndGroup` | src/gcc/diagnostic.cc:1766-1779 | the sinks are told exactly when the outermost group had a report, and the count of reports is zero whenever no group is open |
| `DiagnosticContexts.Context.ReportDiagnostic` | src/gcc/diagnostic.cc:1463-1512 | the first report of a group is preceded by its beginning; every sink, or every per-sink buffer, gets it; it is counted once, in the active buffer or the context, an error that was a warning as such and any other as its own kind; counts and contents agree afterwards if and only if the sinks write to the active buffer |
| `DiagnosticOutput.CountOfMeans` | src/gcc/diagnostic.cc:1465-1477 | over any run the errors counted are those that were not warnings, and the promoted warnings are counted apart |
| `DiagnosticContexts.Context.ErrorsAreCounted` | src/gcc/diagnostic.cc:1465-1477 | so the counts of context and buffers, with what was discarded, add up to them |
| `DiagnosticContexts.Context.SetDiagnosticBuffer` | src/gcc/diagnostic.cc:1892-1922 | every sink writes to its part of the buffer, or straight out, and nothing is lost |
| `DiagnosticContexts.Context.ClearDiagnosticBuffer` | src/gcc/diagnostic.cc:1926-1938 | exactly what the buffer had counted is discarded |
| `DiagnosticContexts.Context.FlushDiagnosticBuffer` | src/gcc/diagnostic.cc:1942-1955 | every sink has written what the buffer held for it, in order, and the counts have moved to the context |
| `DiagnosticContexts.Context.MoveBuffer` | src/gcc/diagnostic.cc:2036-2068 | counts and contents move, behind what is there already, and none is lost, unless a buffer is moved to itself: then both are cleared, and none is lost if and only if it counted nothing; valid if and only if none is lost and it was not the active buffer that gave its parts away, and then the sinks write to the other one |
| `OtherExamples.MoveToItself` | src/gcc/diagnostic.cc:2036-2068 | from a new context with one sink, a report is lost when its buffer is moved to itself |
| `OtherExamples.ReportAfterMove` | src/gcc/diagnostic.cc:2036-2068 | a report after a move: counts and contents agree if and only if it was not the active buffer that gave its parts away; else it is counted in the one and kept in the other |
| `OtherExamples.MoveActiveBuffer` | src/gcc/diagnostic.cc:2036-2068 | from a new context with one sink, that happens |
| `DiagnosticOutput.Counters.MoveTo` | src/gcc/diagnostic.cc:1982-1988 | the counts are added to those of the other object; if it is the same object they are lost |
| `Utf8.EncodeChar` | src/gcc/pretty-print.cc:2690-2714 | for every code point below 2^31, the bytes of its shortest form |
| `Utf8.EncodeForms` | src/gcc/pretty-print.cc:2690-2714 | the bytes of up to four-byte forms, as the standard has them |
| `Utf8.EncodeLongForms` | src/gcc/pretty-print.cc:2690-2714 | and those of five and six |
| `Utf8.DecodeChar` | src/gcc/pretty-print.cc:2833-2882 | accepts exactly the shortest forms of code points that are not surrogates, and returns code point and length; rejects where no such form stands |
| `Utf8.DecodeEncode` | src/gcc/pretty-print.cc:2833-2882 | decoding the encoding gives back the code point, whatever follows, unless it is a surrogate |
| `Utf8.StartUnique` | src/gcc/pretty-print.cc:2833-2882 | no two code points have encodings that stand at the beginning of the same bytes |
| `Quoting.QuotedString` | src/gcc/pretty-print.cc:2720-2763 | the output is that of the tokens of the input: printable characters, whole sequences, escaped bytes |
| `Quoting.InputsAreAll` | src/gcc/pretty-print.cc:2720-2763 | every input byte belongs to exactly one token |
| `Quoting.QuoteIsSafe` | src/gcc/pretty-print.cc:2720-2763 | the output reads as printable ASCII and accepted sequences only |
| `Quoting.QuoteIdempotent` | src/gcc/pretty-print.cc:2720-2763 | quoting the output again changes nothing |
| `Quoting.QuoteReadsBack` | src/gcc/pretty-print.cc:2720-2763 | from the output the input can be read back, if it has no backslash |
| `Quoting.QuoteUnchanged` | src/gcc/pretty-print.cc:2720-2763 | exactly printable ASCII and accepted sequences come out as they are |
| `LocaleIdentifiers.Inspect` | src/gcc/pretty-print.cc:2903-2921 | the first loop accepts exactly the encodings of texts without control characters |
| `LocaleIdentifiers.OneCharacter` | src/gcc/pretty-print.cc:2903-2921 | one character is accepted unless it is a control character |
| `LocaleIdentifiers.IdentifierToLocale` | src/gcc/pretty-print.cc:2900-3048 | invalid identifiers in octal, valid ones unchanged or with named characters; printable ASCII where the locale asks for it, within 10 bytes for each |
| `LocaleIdentifiers.OctalShown` | src/gcc/pretty-print.cc:2927-2943 | octal escapes leave only printable ASCII, at most 4 bytes for each |
| `LocaleIdentifiers.OctalReadsBack` | src/gcc/pretty-print.cc:2927-2943 | reading every escape as the byte its digits stand for gives the identifier back, if it has no backslash |
| `LocaleIdentifiers.OctalAmbiguous` | src/gcc/pretty-print.cc:2895-2898 | with a backslash two identifiers may come out the same |
| `LocaleIdentifiers.NamedShown` | src/gcc/pretty-print.cc:3029-3048 | character names likewise, at most 10 bytes for each |
| `LocaleIdentifiers.NamedReadsBack` | src/gcc/pretty-print.cc:3029-3048 | reading every name as the character it stands for gives the text back, if it has no backslash |
| `LocaleIdentifiers.UcnNames` | src/gcc/pretty-print.cc:3029-3048 | the eight digits of a name stand for the code point |
| `TokenLists.TokenList.PushBack` | src/gcc/pretty-print.cc:1349-1365 | the token is last on a valid list |
| `TokenLists.TokenList.PopFront` | src/gcc/pretty-print.cc:1375-1396 | the first token comes off, detached, and the rest is a valid list |
| `TokenLists.TokenList.RemoveToken` | src/gcc/pretty-print.cc:1398-1426 | the token comes off, detached, its neighbours are joined |
| `TokenLists.TokenList.InsertAfter` | src/gcc/pretty-print.cc:1431-1455 | the new token stands right after the other |
| `TokenLists.TokenList.PushBackList` | src/gcc/pretty-print.cc:1368-1373 | all tokens of the other list, in order, which is left empty |
| `TokenListPasses.MergeConsecutiveTextTokens` | src/gcc/pretty-print.cc:1487-1543 | the valid list holds the merged tokens |
| `TokenPasses.MergeSeparates` | src/gcc/pretty-print.cc:1487-1543 | no two text tokens are next to each other |
| `TokenPasses.MergeKeepsStream` | src/gcc/pretty-print.cc:1487-1543 | the text and its order with the other tokens are unchanged |
| `TokenPasses.StreamDetermines` | src/gcc/pretty-print.cc:1487-1543 | a list without adjacent or empty texts is determined by that |
| `TokenPasses.MergeUnique` | src/gcc/pretty-print.cc:1487-1543 | without empty texts, the result of merging is the only list that says the same and has no adjacent or empty texts |
| `TokenListPasses.ApplyUrlifier` | src/gcc/pretty-print.cc:1549-1578 | the valid list holds the tokens with the urls around the quoted texts that have one, and the urlifier has been asked about those quoted texts, in order, and nothing else |
| `TokenPasses.UrlifyOnlyAdds` | src/gcc/pretty-print.cc:1549-1578 | without its url tokens, the list is as it was without them |
| `TokenPasses.UrlifyRestores` | src/gcc/pretty-print.cc:1549-1578 | a list that had none is restored by taking them out again |
| `TokenPasses.UrlsEnclose` | src/gcc/pretty-print.cc:1549-1578 | every url is around a quoted text, within the quotation, and is what the urlifier has for that text |
| `TokenPasses.QueriesMatter` | src/gcc/pretty-print.cc:1549-1578 | two urlifiers give the same result if and only if they agree on the texts asked about |
| `TokenPasses.QueriesAreQuotedTexts` | src/gcc/pretty-print.cc:2259-2264 | after merging those texts are all quoted regions of text, each as one string, in order |
| `TokenListPasses.ReplaceCustomTokens` | src/gcc/pretty-print.cc:1457-1482 | the valid list holds the expansions, each in reverse |
| `TokenPasses.ExpandKeepsOrder` | src/gcc/pretty-print.cc:1470-1477 | the order is kept if and only if every expansion reads the same in both directions |
| `OtherExamples.ExpansionReversed` | src/gcc/pretty-print.cc:1470-1477 | an expansion into two tokens comes out in reverse |
| `LineWrapping.Printer.Character` | src/gcc/pretty-print.cc:2653-2667 | a full line is broken, white space at the break dropped, and no UTF-8 sequence broken; the length is right afterwards if and only if no newline was put out as a character |
| `LineWrapping.Printer.AppendText` | src/gcc/pretty-print.cc:2551-2564 | the text, without its leading spaces at the beginning of a wrapped line; the length is right afterwards if and only if it has no newline |
| `LineWrapping.TrimmedMeans` | src/gcc/pretty-print.cc:2551-2564 | only spaces are dropped, and all of them |
| `OtherExamples.NewlineCounted` | src/gcc/pretty-print.cc:2653-2667 | a newline printed as a character makes the length wrong |
| `LineWrapping.Printer.WrapText` | src/gcc/pretty-print.cc:1109-1140 | the output of the rounds of the wrapper, and the right line length |
| `LineWrapping.WrappingKeepsWords` | src/gcc/pretty-print.cc:1109-1140 | the words put out are those of the text: none is lost, split or joined with another |
| `LineWrapping.WrappedLines` | src/gcc/pretty-print.cc:1109-1140 | no line is longer than the maximum or the longest word |
| `LineWrapping.FittingStays` | src/gcc/pretty-print.cc:1109-1140 | text that fits on the line is not broken |
| `LineBreaks.BreaksAreNeeded` | src/gcc/pretty-print.cc:1109-1140 | in text without newlines a line is broken only where the line so far and the next word reach the maximum |
| `LineBreaks.UnfittingBegin` | src/gcc/pretty-print.cc:1109-1140 | every word put out stands at the beginning of a line, or is shorter than what was left of its line |
| `LineBreaks.LinesAreWrapped` | src/gcc/pretty-print.cc:1109-1140 | a newline of the text ends the line, and the text on both sides is wrapped by itself |
| `LineBreaks.WrappedSays` | src/gcc/pretty-print.cc:1109-1140 | but for line breaks, and tabs that become spaces, the text is put out as it is |
| `RtxTemplates.Mapping.AddMapValue` | src/gcc/read-rtl.cc:1029-1042 | the value is added at the end of the list |
| `RtxTemplates.Copy` | src/gcc/read-rtl.cc:583-632 | the copy says the same as the original and consists of new nodes only |
| `RtxTemplates.MarkIterators` | src/gcc/read-rtl.cc:916-931 | the iterators in use, in order of definition, each at its first value |
| `RtxTemplates.UsedInOrder` | src/gcc/read-rtl.cc:916-931 | the iterators in use come in the order of their definition |
| `RtxTemplates.Advance` | src/gcc/read-rtl.cc:983-998 | the loop over the iterators shows the next combination, or says that there is none |
| `RtxTemplates.ApplyUses` | src/gcc/read-rtl.cc:940-951 | every node gets the numbers of the current values, all uses of an iterator the same |
| `RtxTemplates.AppliedSame` | src/gcc/read-rtl.cc:940-951 | what earlier rounds left in the fields does not matter |
| `RtxTemplates.LastUseWins` | src/gcc/read-rtl.cc:940-951 | a field has the number of the iterator that uses it last |
| `RtxTemplates.EmitAll` | src/gcc/read-rtl.cc:938-998 | the loop ends with as many outputs as there are combinations, the k-th for the k-th combination, and no two of them share a node |
| `RtxTemplates.ApplyIterators` | src/gcc/read-rtl.cc:894-998 | the same from the beginning, for the iterators in use; without uses the template itself |
| `Odometer.AllAt` | src/gcc/read-rtl.cc:983-998 | every combination stands in the enumeration, at its rank |
| `Odometer.RankIsOrder` | src/gcc/read-rtl.cc:983-998 | the enumeration is in lexicographic order, the last iterator fastest |
| `Odometer.RankInjective` | src/gcc/read-rtl.cc:983-998 | no combination stands there twice |
| `Odometer.IncrementIsNext` | src/gcc/read-rtl.cc:983-998 | the step goes to the next combination, and says that there is none exactly after the last |
| `NameLists.Collector.AddToList` | src/gcc/collect2.cc:1858-1886 | a new name goes to the end with the next number, a known one changes nothing, and no name is there twice |
| `NameLists.Collector.SortIds` | src/gcc/collect2.cc:1921-1958 | the list in place holds the sorted names, numbered on in order; it can be appended to again if and only if no name has a lower priority than the one that was last |
| `NameLists.LastStays` | src/gcc/collect2.cc:1921-1958 | the last name is last again if and only if none has a lower priority |
| `OtherExamples.LastMoves` | src/gcc/collect2.cc:1921-1958 | two names of which the last does not stay last |
| `StableSort.ExtractInitPriority` | src/gcc/collect2.cc:1891-1916 | the number that stands after the marker, or the default |
| `StableSort.PriorityOf` | src/gcc/collect2.cc:1891-1916 | white space, sign and digits after the marker are read as the number they spell, anything else as none; 0 and none give the default |
| `StableSort.NumberParts` | src/gcc/collect2.cc:1891-1916 | and there is no other form that the text after the marker can have |
| `StableSort.NoPriority` | src/gcc/collect2.cc:1891-1916 | a name without a number, or without anything, after the marker has priority 65535 |
| `StableSort.ValueOfDecimal` | src/gcc/collect2.cc:1891-1916 | a number written in decimal is read as that number |
| `StableSort.PriorityRead` | src/gcc/collect2.cc:1891-1916 | digits written after the marker are read back, 0 as the default |
| `StableSort.SortIsStable` | src/gcc/collect2.cc:1918-1958 | a permutation in descending order, with names of equal priority in their old order |
| `StableSort.StableIsUnique` | src/gcc/collect2.cc:1918-1958 | there is only one such order |
| `StableSort.SortPairs` | src/gcc/collect2.cc:1918-1958 | lists that pair up with equal priorities still pair up when sorted |
| `InitTables.Program.Init` | src/gcc/collect2.cc:2134-2149 | on the first call frames are registered and then the constructors run from the last to the first |
| `InitTables.Program.Fini` | src/gcc/collect2.cc:2151-2165 | on the last call destructors run from the first to the last and then frames are deregistered |
| `InitTables.ConstructorOrder` | src/gcc/collect2.cc:2134-2149 | constructors run in the order of their priority numbers, after the frames |
| `InitTables.AllConstructorsRun` | src/gcc/collect2.cc:2134-2149 | each constructor runs as often as it was collected, and nothing else but the frames does |
| `InitTables.FiniReversesInit` | src/gcc/collect2.cc:2134-2165 | constructors and destructors collected in pairs: finalization undoes initialization in the reverse order |
| `InitTables.WorkAlternates` | src/gcc/collect2.cc:2134-2165 | in every balanced run of nested calls, work and its undoing take turns |
| `InitTables.SetUpOnce` | src/gcc/collect2.cc:2148-2165 | without destructors and frames the constructors run once in any run |
| `InitTables.SetUpAgainIff` | src/gcc/collect2.cc:2134-2165 | after as many finalizations as initializations the next one sets up again if and only if there is something to finalize |
| `OtherExamples.NotSetUpAgain` | src/gcc/collect2.cc:2148-2165 | initialized, finalized and initialized without destructors: set up once |

## Left out

Of the call graph:

- Statements, declarations and symbols are opaque; every edge has a call statement, so that `lto_stmt_uid` is not modelled. Dump output, hooks, streaming, garbage collection and the AET callbacks are left out.
- Inlined callees, `redirect_call_stmt_to_callee`, `remove_symbol_and_inline_clones`, `release_body`, `speculative_call_for_target`, aliases and thunks other than the thunk test of the walk.
- Counts are integers; `profile-count.h` is not part of this model, so that quality and saturation are not either.
- References are a sequence in the order of creation; `symtab.cc` and `ipa-ref.cc` are not part of this model. Unregistering a node is therefore not either: references to a removed function stay, and make the graph not well formed.
- Edges that an operation takes out are freed at its end, not in its middle; a summary id is kept in a map beside the edges instead of a field.
- SymbolTables.SymbolTable.SetCallStmt: on the heap the new statement has to be free, and a component of a speculative call is updated together with the others; the other cases are in `SetCallStmtKeeps` and `LoneComponentKeeps`.
- CallGraphVerify.VerifySpeculativeCall: the table that its lookup may build on the way is not built; the other checks of the verifier of nodes are left out.
- SymbolTables.SymbolTable.MakeDirect: on the heap at most one target matches, as the verifier of speculative calls demands; the other case is in `MakeDirectKeeps`.
- Creation of clones, and the other fields that `cgraph_node::remove` resets.

Of diagnostics:

- Formatting, locations, metadata, the inhibition of warnings, limits on errors and aborting; the count of a report goes by the kind it ends up with.
- A per-sink buffer holds the reports in order; `diagnostic-buffer.h` and the output formats are not part of this model.
- DiagnosticContexts.Context.MoveBuffer: that a per-sink buffer moved to itself is appended to itself and then cleared is an assumption, since `diagnostic-buffer.h` and the output formats are not part of this model.
- DiagnosticPragmas.OptionClassifier.Classify: the kind returned for a pragma is that of the code's own scan, which does not follow pops; it is not claimed to be the effective one. A new kind that is the mark of pops is excluded.
- Nesting levels only as the condition for changing buffers.

Of the pretty-printer:

- LocaleIdentifiers.IdentifierToLocale: without the conversion by iconv, as on hosts that do not have it; iconv is a library.
- The printf-style formatting, colours, prefixes, and the obstack as anything but a sequence of bytes; `pp_quoted_string` with wrapping off.
- The order of tokens within the printf phases, and the callback that mangles names.

Of the machine description:

- RtxTemplates.Copy: not the replacement of iterator names in strings, which `read-md.cc` and tables of attributes take part in.
- RtxTemplates.ApplyIterators: without attributes, conditions, overloaded names and `define_subst`; a field that an iterator sets is a number.
- Parsing, and the digits of wide integers. `read-md.cc` is not part of this model.

Of collect2:

- Scanning, linking and running programs, the AIX and COFF variants, shared objects; names shorter than the marker, which the code would read past, have the default priority.
