# A verified model of the step runner and the automation driver helpers

This project models, in Dafny, the core of a VS Code automation toolkit:

- **the step orchestration engine** (`StepsRunner`). A runner holds a list of step instances, a watermark
  `lastStepIdx` (the last step whose result is current), a target index and a stack of compensation tasks.
  When the pipeline is redefined, `update` diffs the old and new step definitions, marks the replaced
  instances stale, and then either rewinds the changed steps with their undo actions, falls back to the
  nearest reset action, or gives up. The processing loop `_process` drains the compensation stack and then
  runs pending steps forward, one index at a time (module `StepsRunner`, a `Runner` class and a
  `StepInstance` class whose fields the methods update in place);
- **the pipeline value** it consumes: `steps(...)`, `composedStep()(...)` and `step(...)` (module
  `StepsPipeline`);
- **the budgeted pretty-printer** `formatValue` for step results (module `FormatValue`);
- **the UI tree and process tree** of the automation driver: `find`, `findLast`, sibling navigation,
  `toJson` and `getAllWindows` (module `AutomationDriver`);
- **the Windows process forest**: `CreateSnapshot`, `GetProcessTrees`, `CreateFrom`, `GetAll` and
  `ToString(depth)`, over the list of enumerated `(pid, name, parent pid)` records (module
  `ProcessWithChildren`);
- **three pieces of the Windows automation service**: the two-tier expiring `Cache<T>` (module
  `ExpiringCache`, a class), the key-name table `ConvertStringToKey` and the escaping chain of `SendText`
  (modules `SendKeys` and `SendKeysSyntax`);
- **the artifact names and URLs** of `getDownloadUrl.ts` (module `DownloadUrl`).

`Wrappers` (Option and Result), `Text` (decimal text of integers, upper-casing, character replacement,
joining) and `Seqs` (flattening and first match) are shared helpers.

Code that works by updating state is modelled imperatively. `Runner` and `StepInstance` are classes with
the source's fields, and `update`, the loop of `_process` and the transactions are methods with `modifies`
clauses. Each of these methods is proved against a pure function of the old state: `Compensation` for the
rewind and reset paths, `Outdated`, `RewindAll`, `ResetAll` and `Final`. Properties of the engine are
lemmas about those functions. The asynchronous loop of `_process` is a state machine. Its `phase` records
the `await` it is suspended in, and the environment resumes it with `TaskSettled` or `StepSettled`. After
that, the loop head (`Dispatch`) runs before anything else can happen. The loops of `compareSteps`,
`formatCompositeWithEstimation`, `CreateSnapshot`, `CreateFrom`, `GetAll`, `ToString(depth)` and the cache
are methods with loop invariants, each proved equal to a recursive reference function. The recursive
searches and conversions of the UI tree, the pipeline value and the artifact names are functions with
lemmas.

## Model

| member | source | states |
|---|---|---|
| StepsRunner.CompareSteps | src/steps/StepsRunner.ts:365-379 | the equal prefix and the equal suffix never overlap; every position in them holds equal definitions; the prefix stops only at the end of a list or at the first unequal pair; the suffix stops at the first unequal pair from the end or where it would meet the prefix |
| StepsRunner.DiffUnique | src/steps/StepsRunner.ts:365-379 | only one (prefix, suffix) pair has those properties, so they determine what `compareSteps` returns |
| StepsRunner.SpliceMatchesNew | src/steps/StepsRunner.ts:105-111 | the old prefix, then the new middle, then the old suffix has the new list's length, and every position holds a definition equal to the new one there |
| StepsRunner.SpliceDefs | src/steps/StepsRunner.ts:205-210 | the spliced instance list carries, position by position, definitions equal to the new definitions |
| StepsRunner.SpliceDistinct | src/steps/StepsRunner.ts:205-210 | splicing fresh instances between a prefix and a suffix of a list without repeats gives a list without repeats |
| StepsRunner.StepInstance.constructor | src/steps/StepsRunner.ts:307-318 | a new instance keeps its definition and starts pending, without result, not stale, with no undo or reset actions and no side effect |
| StepsRunner.StepInstance.MarkAsStale | src/steps/StepsRunner.ts:352-354 | sets `stale` and changes nothing else |
| StepsRunner.StepInstance.Dispose | src/steps/StepsRunner.ts:118-120 | sets `disposed` and changes nothing else |
| StepsRunner.CreateInstances | src/steps/StepsRunner.ts:110-111 | one fresh, distinct, initial instance per new definition, in order |
| StepsRunner.MarkOutdated | src/steps/StepsRunner.ts:113-121 | the instances of the changed middle become stale, those not done are disposed, and no other instance changes |
| StepsRunner.OutdatedKeepsCompensations | src/steps/StepsRunner.ts:114-132 | marking and disposing changes neither which instances block a rewind nor which instance a reset would use |
| StepsRunner.MarkingKeepsDecision | src/steps/StepsRunner.ts:114-170 | marking before compensating changes neither the path taken, nor the new watermark, nor the compensation tasks pushed |
| StepsRunner.ScanForBlocker | src/steps/StepsRunner.ts:124-132 | the feasibility scan finds a blocker (a side effect without undo actions) in the range exactly when one exists; it reads past the list (and throws) exactly when the watermark is at or past its end |
| StepsRunner.FindResetIndex | src/steps/StepsRunner.ts:162-170 | returns the nearest index at or below the first change whose instance has reset actions, or -1 |
| StepsRunner.ResetIndex | src/steps/StepsRunner.ts:162-170 | the index found has reset actions, no index between it and the start has any, and -1 means none has |
| StepsRunner.RewindRange | src/steps/StepsRunner.ts:137-158 | every instance from the first change up to the watermark waits for its rewind and loses its undo actions; one task per instance is pushed, from the top down; other instances are unchanged |
| StepsRunner.RewindTasksPopOrder | src/steps/StepsRunner.ts:137-157 | popped from the stack's end, the rewind tasks of one update run from the lowest index up, each with that instance's undo actions |
| StepsRunner.ResetRange | src/steps/StepsRunner.ts:176-202 | the reset instance waits for its reset and loses its reset actions; every later instance up to the watermark dies if stale and is pending otherwise; one reset task is pushed |
| StepsRunner.NothingToUndo | src/steps/StepsRunner.ts:124-159 | when no step at or after the first change has run, the rewind path is taken with no task, no change to any instance, and the watermark just below the first change |
| StepsRunner.CompensationFrame | src/steps/StepsRunner.ts:123-203 | compensation touches only the instances from where it restarts up to the old watermark, and none when it throws or gives up |
| StepsRunner.CompensationRerunsUndoneSteps | src/steps/StepsRunner.ts:123-203 | after a rewind or reset no instance between the new and the old watermark is still done; a reset restarts at the nearest instance with reset actions at or below the first change, only when a blocker exists, and hands exactly those actions to its one task |
| StepsRunner.RewindMovesUndoActions | src/steps/StepsRunner.ts:137-157 | a rewind hands each undone instance's undo actions to exactly one task, clears them on the instance, and the k-th task popped is that of the k-th changed step |
| StepsRunner.Compensate | src/steps/StepsRunner.ts:123-203 | the outcome, the new fields of every instance, the new watermark and the compensation tasks pushed are those `Compensation` gives for the old fields |
| StepsRunner.Revise | src/steps/StepsRunner.ts:103-203 | the diff is `compareSteps`'s; the instances end as `Compensation` of the marked old fields; fresh initial instances are created for exactly the new middle |
| StepsRunner.Runner.constructor | src/steps/StepsRunner.ts:28-35 | without steps: empty list, watermark -1, target 0, idle; with steps: one fresh instance per step, the target is the last step, and the first step is already running with no input |
| StepsRunner.Runner.Start | src/steps/StepsRunner.ts:31-34 | `update` followed by `_process` on an empty runner: the instances are the given steps and the first one starts running |
| StepsRunner.Runner.Update | src/steps/StepsRunner.ts:99-213 | the new state is the compensation of the marked old state; tasks are pushed on the stack; on rewind or reset the list is old prefix + fresh middle + old suffix and the target is the last new step; when rejected or thrown, the list, target and phase are unchanged |
| StepsRunner.Runner.Commit | src/steps/StepsRunner.ts:205-212 | splices the list, sets the watermark and the stack, targets the given index and wakes an idle loop |
| StepsRunner.Runner.Process | src/steps/StepsRunner.ts:218-222 | entering `_process` starts an idle loop and does nothing to a running one |
| StepsRunner.Runner.RunAfter | src/steps/StepsRunner.ts:301-304 | sets the target (it may lower it) and enters `_process` |
| StepsRunner.Runner.Dispatch | src/steps/StepsRunner.ts:226-262 | the loop head: with tasks on the stack it pops the most recent and marks its instance rewinding; otherwise, below the target with the next step pending, it starts that step with the result of `steps.at(lastStepIdx)` as input; otherwise it goes idle |
| StepsRunner.Runner.TaskSettled | src/steps/StepsRunner.ts:143-154 | a compensation task logs its actions up to the one that threw; when all complete, a rewound instance dies if stale and is pending otherwise, and a reset instance becomes pending; a failure is swallowed and the loop goes on |
| StepsRunner.Runner.OnRewind | src/steps/StepsRunner.ts:266-268 | appends the callback to the running step's undo actions |
| StepsRunner.Runner.OnReset | src/steps/StepsRunner.ts:269-271 | appends the callback to the running step's reset actions |
| StepsRunner.Runner.ReportSideEffect | src/steps/StepsRunner.ts:272-274 | marks the running step as having a side effect |
| StepsRunner.Runner.StepSettled | src/steps/StepsRunner.ts:276-288 | as written: on success the watermark becomes the captured index + 1 and the step is done with its result; on failure the step is in error and the loop stops |
| StepsRunner.Runner.StepSettledIntended | src/steps/StepsRunner.ts:276-280 | corrected: the watermark moves only when the settled instance is still the one just above the watermark, so it never covers a step that did not run |
| StepsRunner.Final | src/steps/StepsRunner.ts:47-63 | settles with an error exactly when some step is in error; with the last step's result exactly when none is in error and the last is done; an empty list throws |
| StepsRunner.Runner.GetFinalResult | src/steps/StepsRunner.ts:45-66 | targets the last step and reports `Final` of the current instances |
| StepsRunner.PreviousStepIndex | src/steps/StepsRunner.ts:257 | `at` of the watermark: the step at the watermark when it is in range, an index counted from the end when it is negative |
| StepsRunner.FirstStepReadsLastResult | src/steps/StepsRunner.ts:257-265 | as written, with two or more steps and the watermark at -1, the first step reads the last step's result |
| StepsRunner.IntendedPreviousStepIndex | src/steps/StepsRunner.ts:257-265 | corrected: the input is the step at the watermark, and none below 0 |
| StepsRunner.IntendedInputPrecedes | src/steps/StepsRunner.ts:257-265 | with the corrected rule the first step gets no input, any other step gets the step just before it, and both rules agree from index 0 on |
| StepsRunner.RewoundWatermarkSkipsFailedStep | src/steps/StepsRunner.ts:158 | as written: from a sound watermark -1 over [error, pending, pending], a rewind from index 2 sets it to 1, which covers the failed step and a step that never ran |
| StepsRunner.IntendedRewoundWatermark | src/steps/StepsRunner.ts:158 | corrected: the watermark only moves down, to just below the first change |
| StepsRunner.IntendedWatermarkSound | src/steps/StepsRunner.ts:158 | with the corrected rule a sound watermark (every step at or below it done) stays sound after any edit |
| StepsRunner.FirstOfThreeFailed | src/steps/StepsRunner.ts:28-35 | three steps where the first one failed: idle, watermark -1, first step in error |
| StepsRunner.EditThirdAfterFailure | src/steps/StepsRunner.ts:99-213 | editing the third step then raises the watermark to 1 with the first step still in error |
| StepsRunner.RewindRaisesWatermarkScenario | src/steps/StepsRunner.ts:124-158 | end to end: the loop then runs the edited third step on top of a failed first step |
| StepsRunner.EditWhileRunning | src/steps/StepsRunner.ts:99-121 | editing the only step while it runs replaces it with a fresh pending instance while the old run is still awaited |
| StepsRunner.LateCompletionSkipsEditScenario | src/steps/StepsRunner.ts:276-280 | as written, the old run's late success moves the watermark over the new instance; the edited step never runs and the final result never settles |
| StepsRunner.LateCompletionIntendedScenario | src/steps/StepsRunner.ts:276-280 | with the corrected settling, the edited step runs next |
| StepsPipeline.Defined | src/lib/steps/steps.ts:85 | keeps exactly the defined arguments and never grows the list |
| StepsPipeline.DefinedAppend | src/lib/steps/steps.ts:85 | the filter keeps the order of the arguments |
| StepsPipeline.StepsAppend | src/lib/steps/steps.ts:73-87 | the steps of concatenated arguments are the concatenation of their steps |
| StepsPipeline.StepsSingle | src/lib/steps/steps.ts:85-86 | a missing argument gives nothing, a composite gives its sub-steps in place, any other step gives itself |
| StepsPipeline.StepsLength | src/lib/steps/steps.ts:85-86 | the number of steps is the sum over defined arguments of the sub-step count, or 1 |
| StepsPipeline.NestedCompositeKept | src/lib/steps/steps.ts:86 | flattening goes one level only: a composite inside a composite is kept as one step |
| StepsPipeline.ComposedStep | src/lib/steps/steps.ts:47-54 | the defined arguments become the sub-steps; name and run stay empty |
| StepsPipeline.ComposedStepFlattens | src/lib/steps/steps.ts:47-54 | passed to `steps`, a composed step contributes exactly its defined arguments |
| StepsPipeline.MakeStep | src/lib/steps/steps.ts:94-106 | `step(run)` has no name and that run; `step(options, run)` takes the name from the options and the second argument as run; neither is composite |
| StepsPipeline.MadeStepIsLeaf | src/lib/steps/steps.ts:94-106 | a step made by `step` contributes itself to `steps` |
| FormatValue.GetClassName | src/lib/steps/formatValue.ts:231-240 | the constructor's name, except when there is none or it is `Object` |
| FormatValue.NumberText | src/lib/steps/formatValue.ts:4-5 | a number prints as its decimal text, which reads back as the number, whatever the budget and the depth |
| FormatValue.ScalarWords | src/lib/steps/formatValue.ts:12-19 | booleans, `undefined` and `null` print as their keywords, at top level and nested |
| FormatValue.StringFits | src/lib/steps/formatValue.ts:7-8 | a string that fits with its quotes prints quoted verbatim, within the budget |
| FormatValue.StringTruncated | src/lib/steps/formatValue.ts:10 | a string that does not fit, with a budget of at least 7, prints as a quote, its first budget-7 characters, then `"+...`, one character under the budget |
| FormatValue.StringTooNarrow | src/lib/steps/formatValue.ts:10 | below a budget of 7 the text is `""+...`, which overruns any budget under 6 |
| FormatValue.CustomToStringCut | src/lib/steps/formatValue.ts:32-38 | a custom `toString` text is returned as is when it fits; otherwise it is cut to budget-3 characters plus `...`, exactly the budget long |
| FormatValue.NestedIgnoresCustomToString | src/lib/steps/formatValue.ts:158-179 | a nested object goes straight to the entry printer: its custom `toString` is used only at top level |
| FormatValue.BracketsByKind | src/lib/steps/formatValue.ts:45-49 | arrays use `[ ` and ` ]`; objects with a class name use `Name(` and `)`; other objects use `{ ` and ` }` |
| FormatValue.CompositeEnclosed | src/lib/steps/formatValue.ts:51-65 | a composite's text always starts with its open bracket and ends with its close bracket; with no room it is open + `...` + close, and with no entries it is open + close |
| FormatValue.DepthCutoff | src/lib/steps/formatValue.ts:176-178 | at or below the depth limit a nested composite prints as `[...]` or `{...}` |
| FormatValue.MinimumSizeOfScalars | src/lib/steps/formatValue.ts:136-156 | the minimum size estimate is exact for numbers, booleans, `undefined` and `null`, and a lower bound for functions and for strings that fit |
| FormatValue.EstimateSizes | src/lib/steps/formatValue.ts:67-77 | the per-entry estimates (key part plus minimum value size) and their sum |
| FormatValue.StepShape | src/lib/steps/formatValue.ts:91-129 | one pass of the entry loop either stops with `...` (alone, after the separator, or after the separator and key part), or appends the separator, the key part and the value printed at its budget and depth, spends exactly their length, and stops exactly when the budget is used up |
| FormatValue.EmitShape | src/lib/steps/formatValue.ts:89-130 | from any entry on, the loop appends some entries in full, comma-separated, then a tail; a non-empty tail is `...` (possibly after the next separator and key part) and comes only while entries remain and budget is left; an empty tail means every entry was printed or the printed entries used up the budget |
| FormatValue.CompositeShape | src/lib/steps/formatValue.ts:44-133 | a composite with room inside its brackets prints the open bracket, its first k entries in full and comma-separated, then `...` or nothing, then the close bracket; `...` only when entries are left out, and entries left out without it only when the budget is used up |
| FormatValue.EmitEntries | src/lib/steps/formatValue.ts:86-130 | the entry loop produces exactly the text of the recursive entry printer `Emit` |
| FormatValue.EstimateAndEmit | src/lib/steps/formatValue.ts:67-130 | both passes together: the entries printed with the extra budget spread over the first five entries |
| FormatValue.FormatCompositeWithEstimation | src/lib/steps/formatValue.ts:44-134 | the method's text is the recursive `CompositeText` that nested values are printed with |
| FormatValue.EmitNumbers | src/lib/steps/formatValue.ts:89-130 | when the remaining numbers fit, each is printed in full, separated by `, ` |
| FormatValue.NumberArrayFits | src/lib/steps/formatValue.ts:44-134 | a non-empty array of numbers whose joined text fits prints as `[ n1, n2, ... ]` |
| FormatValue.FormatNumberArray | src/lib/steps/formatValue.ts:2-42 | the same through `formatValue` |
| AutomationDriver.FindIsFirstInPreOrder | src/automationDriver.ts:104-114 | `find` returns the first node of the subtree's pre-order walk that satisfies the predicate, and nothing when none does |
| AutomationDriver.FindLastIsFirstInMirrorOrder | src/automationDriver.ts:116-128 | `findLast` returns the first match of the mirrored walk (the node, then its children from right to left) |
| AutomationDriver.SameNodesBothOrders | src/automationDriver.ts:104-128 | both walks visit the same nodes, the same number of times |
| AutomationDriver.FindAndFindLastAgree | src/automationDriver.ts:104-128 | `find` finds a node exactly when `findLast` does |
| AutomationDriver.IndexOf | src/automationDriver.ts:75 | `indexOf`: the first position holding the node, and -1 exactly when it is absent |
| AutomationDriver.PreviousSibling | src/automationDriver.ts:70-79 | nothing without a parent; any result is one of the parent's children |
| AutomationDriver.NextSibling | src/automationDriver.ts:81-90 | nothing without a parent; any result is one of the parent's children |
| AutomationDriver.PreviousSiblingAt | src/automationDriver.ts:70-79 | with distinct children, child i has child i-1 before it, and the first child has none |
| AutomationDriver.NextSiblingAt | src/automationDriver.ts:81-90 | with distinct children, child i has child i+1 after it, and the last child has none |
| AutomationDriver.SiblingsInverse | src/automationDriver.ts:70-90 | previous and next sibling are inverse to each other |
| AutomationDriver.DetachedNodeSiblings | src/automationDriver.ts:70-90 | a node missing from its parent's children (`indexOf` -1) has no previous sibling, and the first child as next sibling |
| AutomationDriver.JsonRoundTrip | src/automationDriver.ts:131-140 | the JSON of a node, children converted recursively, decodes back to the same node |
| AutomationDriver.ToJsonInjective | src/automationDriver.ts:131-140 | two nodes with the same JSON are the same node |
| AutomationDriver.GetAllWindows | src/automationDriver.ts:24-37 | the list built is `AllWindows` of the tree |
| AutomationDriver.AddFromProcessTree | src/automationDriver.ts:27-34 | appends the tree's own windows, then each child's, to what was collected |
| AutomationDriver.AllWindowsLength | src/automationDriver.ts:24-37 | one entry per window in the whole tree |
| AutomationDriver.AllWindowsByProcessPreOrder | src/automationDriver.ts:24-37 | the entries are the windows of each process, in process pre-order, each paired with its own process |
| ProcessWithChildren.CollectNodes | windowsAutomationDriver/src/ProcessWithChildren.cs:24-38 | the dictionary's keys are exactly the enumerated pids and parent pids, without repeats and in insertion order; each node holds the last record for its pid, that record's parent, and its children in enumeration order |
| ProcessWithChildren.AddRecord | windowsAutomationDriver/src/ProcessWithChildren.cs:26-37 | one record creates its node and its parent's node when missing, stores the record, links the parent and appends the child |
| ProcessWithChildren.KeyOrderMembers | windowsAutomationDriver/src/ProcessWithChildren.cs:26-35 | a pid is a key exactly when some record names it as its own pid or as its parent pid |
| ProcessWithChildren.CreateSnapshot | windowsAutomationDriver/src/ProcessWithChildren.cs:20-66 | the forest is one tree per node without a parent, in dictionary order, each built recursively |
| ProcessWithChildren.RootsAreUnenumeratedParents | windowsAutomationDriver/src/ProcessWithChildren.cs:56-63 | the roots are exactly the parent pids that were never enumerated themselves |
| ProcessWithChildren.SnapshotRoots | windowsAutomationDriver/src/ProcessWithChildren.cs:41-63 | each tree of the forest is built for one root, whose record is the placeholder `<unknown>` with parent pid 0 |
| ProcessWithChildren.ChildHasParent | windowsAutomationDriver/src/ProcessWithChildren.cs:36-37 | with one record per pid, every child listed under a pid has a record naming that pid as parent |
| ProcessWithChildren.ChainBound | windowsAutomationDriver/src/ProcessWithChildren.cs:41-54 | the recursion from a root never visits a pid twice, so it is at most one deeper than the number of records |
| ProcessWithChildren.CycleUnreachable | windowsAutomationDriver/src/ProcessWithChildren.cs:41-63 | a pid on a parent cycle (such as a process that is its own parent) appears in no tree of the forest |
| ProcessWithChildren.ForestRoot | windowsAutomationDriver/src/ProcessWithChildren.cs:56-63 | every tree of the forest is built for a pid without a record |
| ProcessWithChildren.AncestorsEndBelowRoot | windowsAutomationDriver/src/ProcessWithChildren.cs:41-63 | going up from any pid in a root's tree, the parent chain runs out |
| ProcessWithChildren.GetAll | windowsAutomationDriver/src/ProcessWithChildren.cs:181-189 | the list is the tree's pre-order walk |
| ProcessWithChildren.PreOrderSize | windowsAutomationDriver/src/ProcessWithChildren.cs:181-189 | `GetAll` lists every node once, the tree itself first |
| ProcessWithChildren.FindMatchingProcesses | windowsAutomationDriver/src/ProcessWithChildren.cs:111-121 | appends the converted matches of the subtree, in pre-order |
| ProcessWithChildren.MatchesArePreOrderFiltered | windowsAutomationDriver/src/ProcessWithChildren.cs:111-121 | the matches are exactly the nodes of the pre-order walk whose record passes the filter, in that order |
| ProcessWithChildren.GetProcessTrees | windowsAutomationDriver/src/ProcessWithChildren.cs:106-127 | every node of the snapshot forest whose record passes the filter, in pre-order, converted to a process tree |
| ProcessWithChildren.NestedMatchesOverlap | windowsAutomationDriver/src/ProcessWithChildren.cs:102-127 | as written, a matching process under a matching process is returned twice (on its own and inside its parent), against the documented disjointness |
| ProcessWithChildren.MaximalMatchesCountOnce | windowsAutomationDriver/src/ProcessWithChildren.cs:102-105 | corrected: the maximal matches together hold as many matching nodes as the tree |
| ProcessWithChildren.MaximalMatchesPartition | windowsAutomationDriver/src/ProcessWithChildren.cs:102-105 | corrected: walking the maximal matches one after another meets exactly the tree's matching nodes, in pre-order, each as often as the tree holds it |
| ProcessWithChildren.MaximalMatchesCover | windowsAutomationDriver/src/ProcessWithChildren.cs:102-105 | corrected: every matching node of the tree lies in one of the maximal matches |
| ProcessWithChildren.NotInsideAnother | windowsAutomationDriver/src/ProcessWithChildren.cs:102-105 | in a forest whose walk meets no matching node twice, a tree with a matching root lies inside no other tree of the forest |
| ProcessWithChildren.MaximalMatchesApart | windowsAutomationDriver/src/ProcessWithChildren.cs:102-105 | corrected: in a tree where no subtree occurs twice, no maximal match lies inside another |
| ProcessWithChildren.MaximalMatchesDisjoint | windowsAutomationDriver/src/ProcessWithChildren.cs:102-105 | corrected: in a tree where no subtree occurs twice, every matching node lies in some maximal match and no maximal match lies inside another, as the doc comment promises |
| ProcessWithChildren.MaximalMatchesAreMatches | windowsAutomationDriver/src/ProcessWithChildren.cs:102-105 | corrected: every maximal match is a subtree of the forest whose record passes the filter |
| ProcessWithChildren.ToStringAt | windowsAutomationDriver/src/ProcessWithChildren.cs:86-97 | the text built is the node's line followed by each child's text at depth + 1, each after a new line |
| ProcessWithChildren.RenderedJoinsLines | windowsAutomationDriver/src/ProcessWithChildren.cs:86-97 | the text is the tree's lines in pre-order joined by new lines |
| ProcessWithChildren.LinesIndented | windowsAutomationDriver/src/ProcessWithChildren.cs:88-89 | one line per node, and every line of a tree printed at depth d starts with 2d spaces |
| ProcessWithChildren.LineIndents | windowsAutomationDriver/src/ProcessWithChildren.cs:88-89 | the line of a node printed at depth d starts with 2d spaces |
| ProcessWithChildren.ChildIdsMembers | windowsAutomationDriver/src/ProcessWithChildren.cs:132-145 | a pid is listed under a parent exactly when some record names it with that parent |
| ProcessWithChildren.BuildChildrenMap | windowsAutomationDriver/src/ProcessWithChildren.cs:131-145 | the table has an entry exactly for each non-zero parent pid with children, listing them in enumeration order |
| ProcessWithChildren.BuildProcessTree | windowsAutomationDriver/src/ProcessWithChildren.cs:147-162 | the tree's root is the process, and its children are built for the listed child pids, in order |
| ProcessWithChildren.BuildTreeFrom | windowsAutomationDriver/src/ProcessWithChildren.cs:147-162 | the recursive build over the table gives `BuildProcessTree` |
| ProcessWithChildren.CreateFrom | windowsAutomationDriver/src/ProcessWithChildren.cs:129-165 | the tree below a process is built from the table of parent-to-children pids |
| ProcessWithChildren.ParentZeroRecordsIgnored | windowsAutomationDriver/src/ProcessWithChildren.cs:134 | records whose parent pid is 0 do not change any tree `CreateFrom` builds |
| ExpiringCache.Oldest | windowsAutomationDriver/src/WindowsAutomationService.cs:700-702 | a key of the table with the smallest timestamp |
| ExpiringCache.RemoveExpired | windowsAutomationDriver/src/WindowsAutomationService.cs:649-657 | leaves exactly the entries at most `expiry` old |
| ExpiringCache.RemoveOldest | windowsAutomationDriver/src/WindowsAutomationService.cs:660-671 | removes n entries, all of them no newer than any entry kept, and changes none of the kept ones |
| ExpiringCache.Cache.constructor | windowsAutomationDriver/src/WindowsAutomationService.cs:630-634 | both tables start empty |
| ExpiringCache.Cache.Set | windowsAutomationDriver/src/WindowsAutomationService.cs:636-675 | stores the entry in the short-term table; on overflow, first the expired entries are dropped, then the oldest ones down to the maximum; the long-term table is untouched; both stay within their bounds |
| ExpiringCache.Promote | windowsAutomationDriver/src/WindowsAutomationService.cs:693-705 | the entry is added to the long-term table; when that takes it past its maximum, one entry with the smallest timestamp (possibly the new one) is removed and nothing else changes; the table stays within its maximum |
| ExpiringCache.LookUpLongTerm | windowsAutomationDriver/src/WindowsAutomationService.cs:709-722 | a long-term entry at most ten minutes old is served and kept; an older one is removed and nothing is served; a missing key serves nothing and changes nothing |
| ExpiringCache.GetFrom | windowsAutomationDriver/src/WindowsAutomationService.cs:677-724 | the result and both new tables are those `GetSpec` describes; the short-term table never grows and the long-term one stays within its maximum |
| ExpiringCache.Cache.Get | windowsAutomationDriver/src/WindowsAutomationService.cs:677-724 | `GetSpec`: a short-term entry at most one minute old is served and nothing changes; otherwise the short-term entry is removed; an expired one moves to the long-term table if the key is not there, evicting an oldest entry on overflow; then a long-term entry at most ten minutes old is served and kept, an older one removed and nothing served; a key in neither table serves nothing and changes neither table; no other long-term entry is touched except the one evicted |
| ExpiringCache.GetServesOnlyFresh | windowsAutomationDriver/src/WindowsAutomationService.cs:677-724 | any value `Get` serves is the key's entry in one of the tables and at most ten minutes old; after a miss the key is in neither table |
| ExpiringCache.Cache.Contains | windowsAutomationDriver/src/WindowsAutomationService.cs:726-756 | true exactly when a short-term entry is at most one minute old or a long-term one at most ten; expired entries met are removed and nothing is promoted |
| ExpiringCache.Cache.Cleanup | windowsAutomationDriver/src/WindowsAutomationService.cs:758-786 | both tables keep exactly their unexpired entries |
| ExpiringCache.ContainsDropsWhatGetWouldServe | windowsAutomationDriver/src/WindowsAutomationService.cs:682-740 | an entry two minutes old is served by `Get` (through promotion), but `Contains` reports it absent and removes it, after which `Get` finds nothing |
| SendKeys.ConvertStringToKey | windowsAutomationDriver/src/WindowsAutomationService.cs:470-516 | a named key (matched on its upper-cased name) maps through the table; any other one-character key is kept; anything else is wrapped in braces |
| SendKeys.NamedKeyIgnoresCase | windowsAutomationDriver/src/WindowsAutomationService.cs:473 | two spellings of a named key that differ only in case give the same code |
| SendKeys.KeyNamesAreWords | windowsAutomationDriver/src/WindowsAutomationService.cs:475-513 | every named key is at least two characters long, so no one-character key is ever looked up in the table |
| SendKeys.UnknownKeyKeepsCase | windowsAutomationDriver/src/WindowsAutomationService.cs:514 | a one-character key is sent as it is, case kept |
| SendKeys.UnknownNameBraced | windowsAutomationDriver/src/WindowsAutomationService.cs:514 | an unknown longer name is wrapped in braces as written |
| SendKeys.NamedKeyExamples | windowsAutomationDriver/src/WindowsAutomationService.cs:487-488 | `enter` and `Return` both give `{ENTER}` |
| SendKeys.NamedKeyExamplesMore | windowsAutomationDriver/src/WindowsAutomationService.cs:490-510 | `space` gives a blank and `ctrl+s` gives `^s` |
| SendKeys.EscapeTextAppend | windowsAutomationDriver/src/WindowsAutomationService.cs:451-460 | the escaping chain distributes over concatenation |
| SendKeys.EscapeTextIsPerCharacter | windowsAutomationDriver/src/WindowsAutomationService.cs:451-460 | the ten replacements in a row amount to rewriting each character on its own |
| SendKeys.EscapeTextOneChar | windowsAutomationDriver/src/WindowsAutomationService.cs:451-460 | what the chain does to one character: a modifier or bracket becomes `{{{}}c{}}`, `{` becomes `{{{}}`, `}` becomes `{}}`, anything else stays |
| SendKeys.EscapePlainChar | windowsAutomationDriver/src/WindowsAutomationService.cs:451-460 | a character the chain does not mention comes through unchanged |
| SendKeysSyntax.EscapeTextPlainTypesText | windowsAutomationDriver/src/WindowsAutomationService.cs:451-462 | text without special characters is sent unchanged and types itself |
| SendKeysSyntax.EscapeTextPlusNotLiteral | windowsAutomationDriver/src/WindowsAutomationService.cs:451-460 | as written, `+` is escaped to `{{{}}+{}}`, which does not type a literal `+` |
| SendKeysSyntax.EscapeTextOpenBraceNotLiteral | windowsAutomationDriver/src/WindowsAutomationService.cs:459-460 | as written, `{` is escaped to `{{{}}`, which does not type a literal `{` |
| SendKeysSyntax.EscapeTextIntendedTypesText | windowsAutomationDriver/src/WindowsAutomationService.cs:450-462 | corrected: wrapping every special character in braces once makes SendKeys type exactly the original text |
| SendKeysSyntax.EscapeTextIntendedPlus | windowsAutomationDriver/src/WindowsAutomationService.cs:451 | corrected: `+` becomes `{+}`, which types `+` |
| DownloadUrl.Build | src/getDownloadUrl.ts:67-78 | succeeds exactly when the name formed from type prefix, os, arch and flavor suffix is a published name, keeping that name and the props; otherwise fails with `Invalid artifact name: ` and the name |
| DownloadUrl.ParseFormName | src/getDownloadUrl.ts:69-72 | a formed name parses back into the props it was formed from |
| DownloadUrl.FormNameInjective | src/getDownloadUrl.ts:69-72 | different props never form the same name |
| DownloadUrl.BuildDeterminesProps | src/getDownloadUrl.ts:67-78 | two successful builds with the same name came from the same props |
| DownloadUrl.UnparsedNeverFormed | src/getDownloadUrl.ts:69-72 | a name the parser rejects is formed from no props |
| DownloadUrl.DarwinNamesUnparsed | src/getDownloadUrl.ts:80-128 | the published names `darwin` and `server-darwin` have no os-arch part the name parser accepts |
| DownloadUrl.DarwinX64Unbuildable | src/getDownloadUrl.ts:80-128 | no props form the published names `darwin` and `server-darwin`, so those entries can never be built |
| DownloadUrl.DarwinX64Unpublished | src/getDownloadUrl.ts:80-128 | `darwin-x64` is not a published name |
| DownloadUrl.BuildRejectsDarwinX64 | src/getDownloadUrl.ts:67-78 | a desktop darwin x64 build fails with `Invalid artifact name: darwin-x64` |
| DownloadUrl.BuildAcceptsWin32UserInstaller | src/getDownloadUrl.ts:67-78 | a desktop win32 x64 user build succeeds with the name `win32-x64-user` |
| DownloadUrl.DownloadInfoUrlInjective | src/getDownloadUrl.ts:11-13 | for commits and names without `/` or `_`, the download-info URL determines the commit, the artifact name and the stability |
| DownloadUrl.RefToStringInjective | src/getDownloadUrl.ts:53-55 | under the same conditions the reference's id string determines them too |
| DownloadUrl.GetArch | src/getDownloadUrl.ts:141-146 | arm64 exactly when the platform arch is `arm64`, x64 otherwise |
| DownloadUrl.GetOs | src/getDownloadUrl.ts:148-159 | succeeds exactly for `win32`, `darwin` and `linux`, returning that platform; otherwise fails with `Unsupported platform: ` and the platform |
| DownloadUrl.GetOsRoundTrip | src/getDownloadUrl.ts:148-159 | each supported OS is recognised from its own name |
| Text.IntToStringRoundTrip | src/lib/steps/formatValue.ts:5 | the decimal text of an integer is well formed and reads back as that integer |
| Text.IntToStringInjective | src/lib/steps/formatValue.ts:5 | different integers have different texts |
| Text.ToUpper | windowsAutomationDriver/src/WindowsAutomationService.cs:473 | upper-casing keeps the length and maps each character on its own |
| Text.ReplaceCharAppend | windowsAutomationDriver/src/WindowsAutomationService.cs:451 | replacing a character distributes over concatenation |
| Text.ReplaceCharAbsent | windowsAutomationDriver/src/WindowsAutomationService.cs:451 | replacing a character that does not occur changes nothing |

## Left out

- Observables, transactions, autoruns and disposables become plain fields and method bodies. The debug
  state string `_getSteps` and the `view` observable that shows each step's state are not modelled.
- Asynchrony: every `await` in `_process` is a suspension point. The caller settles it with
  `TaskSettled` or `StepSettled` and chooses how it settles. Step bodies, undo callbacks and reset
  callbacks are not modelled beyond their identity. Invoked callbacks are logged in `performed`.
- `console` output is left out. The "No reset action found" warning is the `Rejected` outcome. The
  missing `return` after "No next step found" is modelled as the loop stopping: the next line would
  throw inside `_process`, and `finally` leaves it idle.
- `getFinalResult` reports what the awaited predicate gives at the moment it is called. The waiting
  itself is not modelled.
- `StepDefinition.equals` compares the text of the run functions. The model compares an opaque code
  text, and `uses` is not compared, as in the source.
- The `steps(...)` and `composedStep()(...)` argument lists are not bounded to ten and nine. The model
  takes a list of any length with `None` for `undefined`.
- `step(...)`: the view created by `createView_$show2FramesUp` is not modelled.
- `formatValue`: numbers are integers. Floating-point text (`NaN`, exponents, fractions) is not modelled.
  A symbol's text is its description, and only a function's name is kept.
- `formatCompositeOld` (src/lib/steps/formatValue.ts:189-229) is unused by the rest of the source and
  is not part of this model.
- FormatValue.EmitNumbers, NumberArrayFits and FormatNumberArray: the full-text results are proved for
  arrays of numbers that fit. For other composites the properties proved are the brackets, the cut-offs
  and the equality of the loops to the recursive printer.
- `UINode.toString`, `Rect`, `IProcess` and the driver interface are not part of this model. The parent
  link is an argument of the sibling functions, and nodes are compared by value. The property bag of a
  node is a list of integer, string and object fields.
- `getDownloadInfo`, `getDownloadUrl`, `download` and `downloadToDir` fetch from the network and write
  files. They are not modelled. `getArch` and `getOs` take `process.arch` and `process.platform` as
  parameters.
- Process enumeration (`EnumerateProcessInfos`) is the input list of records. `Process.GetProcessById`
  is replaced by the pid, and `DebugPrint` and `ToProcess` are not modelled.
- ProcessWithChildren.CreateSnapshot requires one record per pid. With duplicate pids the source can
  build a parent cycle reachable from a root, and its recursion would not end.
- ProcessWithChildren.CreateFrom requires a rank certificate (each child ranked below its parent). The
  certificate covers the whole parent-to-children table, not only the pids reachable from the process,
  so a cycle elsewhere in the table also rules a call out. With a parent cycle below the process, the
  source's recursion would not end.
- `Dictionary` enumeration order is taken to be insertion order, which holds for a dictionary with no
  removals.
- The cache's clock is the parameter `now` in ticks. The lock and the 30-second cleanup timer are not
  modelled: `Cleanup` is a method the caller invokes, and concurrency is out of scope.
- ExpiringCache.RemoveOldest: among entries with equal timestamps, any may be removed. The source's
  stable `OrderBy` removes them in dictionary order.
- ExpiringCache.Promote and Cache.Get: when a promotion overflows the long-term table, any entry with
  the smallest timestamp may be evicted. The source's stable `OrderBy` evicts the first such entry in
  dictionary order.
- FormatValue.FormatString, StringFits, StringTruncated, CustomToStringCut and SendKeys.ConvertStringToKey:
  strings are sequences of Unicode characters, and their lengths count characters. JavaScript's `length`
  and `substr` and C#'s `Length` count UTF-16 code units, so the results differ for text outside the
  Basic Multilingual Plane. For example, three U+1F600 characters are 6 code units, so at a budget of 7 the
  source truncates them while the model prints them in full, and `ConvertStringToKey("😀")` is wrapped
  in braces by the source but kept as it is by the model.
- `ToUpper` is ASCII only. The culture-sensitive upper-casing of .NET is not modelled. `SendKeys.SendWait`
  is replaced by `TypedText`, a reading of the SendKeys brace syntax for literal text.
- Four behaviours of the code that the model keeps as they are:
  - rewind tasks run in ascending index order, because they are pushed from the top down onto a stack
    that is popped from its end;
  - a rejected update still marks the replaced instances stale and disposes them;
  - `update`'s call to `runAfter` can lower the target;
  - `darwin` and `server-darwin` are listed but can never be built.

## Findings

| source | as written | input that shows it | evidently intended | confidence | as-written member | corrected member |
|---|---|---|---|---|---|---|
| windowsAutomationDriver/src/WindowsAutomationService.cs:451-460 | the braces are escaped after the other special characters, so the braces just added around `+` are escaped again | text `+` is sent as `{{{}}+{}}`, and text `{` as `{{{}}` | every special character wrapped in braces once (`+` as `{+}`) | high, not executed | SendKeysSyntax.EscapeTextPlusNotLiteral | SendKeysSyntax.EscapeTextIntendedTypesText |
| windowsAutomationDriver/src/ProcessWithChildren.cs:102-127 | the search adds a matching process and keeps searching below it | a `Code.exe` process started by another `Code.exe` process: both are returned, and the child is inside the parent's tree too | disjoint, maximal subtrees, as the doc comment says | high, not executed | ProcessWithChildren.NestedMatchesOverlap | ProcessWithChildren.MaximalMatchesDisjoint |
| src/steps/StepsRunner.ts:158 | a rewind sets the watermark to just below the first change even when it was lower | three steps, the first failed (watermark -1), then the third is edited: the watermark becomes 1, and the edited step runs on top of the failed one | the watermark only moves down | medium, not executed | StepsRunner.RewoundWatermarkSkipsFailedStep | StepsRunner.IntendedWatermarkSound |
| src/steps/StepsRunner.ts:257 | `steps.at(lastStepIdx)` with the watermark at -1 reads the last step | two or more steps after a rewind to the start: the first step receives the last step's old result as input | no input for the first step | medium, not executed | StepsRunner.FirstStepReadsLastResult | StepsRunner.IntendedInputPrecedes |
| src/steps/StepsRunner.ts:276-280 | a run that settles after an update replaced its step still moves the watermark over the new instance | one running step edited before it finishes: the new step never runs and the final result never settles | the watermark moves only if the settled instance is still the next step | medium, not executed | StepsRunner.LateCompletionSkipsEditScenario | StepsRunner.LateCompletionIntendedScenario |
