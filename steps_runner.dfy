/**
 * The step orchestration engine. A runner holds a list of step instances, a watermark `lastStepIdx` (the
 * last step whose result is current), a target index and a stack of compensation tasks. When the pipeline
 * is redefined, `Update` diffs the old and new definitions and either rewinds the changed steps with their
 * undo actions, falls back to the nearest reset action, or rejects the change; the processing loop then
 * drains the compensation stack and runs pending steps forward one index at a time.
 *
 * The observables become plain fields and each transaction one method body. The asynchronous loop of
 * `_process` is a state machine whose phase records the await it is suspended in; the environment
 * resumes it by settling that await (`TaskSettled`, `StepSettled`), after which the loop head
 * (`Dispatch`) runs before anything else can happen. Step bodies and callbacks are opaque: a run settles
 * with a value or a failure chosen by the caller, and undo/reset callbacks are identifiers whose
 * invocations are logged in `performed`.
 */
module StepsRunner {
  import opened Wrappers

  /** The source text of a step's `run` function. */
  type CodeId = string
  /** A step result; `None` is `undefined`. */
  type Value = int
  /** An undo or reset callback. */
  type ActionId = nat

  /** A `StepDefinition`: the step's name, the text of its run function and its `uses` value. */
  datatype StepDef = StepDef(name: Option<string>, code: CodeId, uses: Option<Value>)

  /** `StepDefinition.equals`: two definitions are equal when their run functions have the same text. */
  predicate Equals(a: StepDef, b: StepDef)
  {
    a.code == b.code
  }

  datatype State = Pending | Running | Done | Error | PendingRewind | Rewinding | Dead

  /** The mutable fields of a step instance, as a value. */
  datatype InstanceFields = InstanceFields(
    state: State, result: Option<Value>, stale: bool,
    undoActions: seq<ActionId>, resetActions: seq<ActionId>, hasSideEffect: bool, disposed: bool)

  /** The fields of a freshly created instance. */
  const Initial := InstanceFields(Pending, None, false, [], [], false, false)

  /** One occurrence of a step in the runner's list. */
  class StepInstance {
    const definition: StepDef
    var state: State
    var result: Option<Value>
    var stale: bool
    var undoActions: seq<ActionId>
    var resetActions: seq<ActionId>
    var hasSideEffect: bool
    var disposed: bool

    constructor(definition: StepDef)
      ensures this.definition == definition
      ensures FieldsOf(this) == Initial
    {
      this.definition := definition;
      state := Pending;
      result := None;
      stale := false;
      undoActions := [];
      resetActions := [];
      hasSideEffect := false;
      disposed := false;
    }

    method MarkAsStale()
      modifies this
      ensures FieldsOf(this) == old(FieldsOf(this)).(stale := true)
    {
      stale := true;
    }

    method Dispose()
      modifies this
      ensures FieldsOf(this) == old(FieldsOf(this)).(disposed := true)
    {
      disposed := true;
    }
  }

  ghost function FieldsOf(x: StepInstance): InstanceFields
    reads x
  {
    InstanceFields(x.state, x.result, x.stale, x.undoActions, x.resetActions, x.hasSideEffect, x.disposed)
  }

  /** The fields of every instance of a list, in order. */
  ghost function Snapshot(xs: seq<StepInstance>): seq<InstanceFields>
    reads set x | x in xs
  {
    seq(|xs|, i requires 0 <= i < |xs| reads set x | x in xs => FieldsOf(xs[i]))
  }

  /** The definitions of the instances of a list. */
  function Defs(xs: seq<StepInstance>): seq<StepDef>
  {
    seq(|xs|, i requires 0 <= i < |xs| => xs[i].definition)
  }

  predicate Distinct(xs: seq<StepInstance>)
  {
    forall i, j :: 0 <= i < j < |xs| ==> xs[i] != xs[j]
  }

  function Min(a: int, b: int): int
  {
    if a <= b then a else b
  }

  /** The element `i` places from the end. */
  function Back<T>(s: seq<T>, i: int): T
    requires 0 <= i < |s|
  {
    s[|s| - 1 - i]
  }

  /**
   * The diff `compareSteps` computes: the equal prefix and the equal suffix do not overlap, the prefix
   * ends at the end of a list or at the first unequal pair, and the suffix ends at the first unequal pair
   * counted from the end or where it would meet the prefix.
   */
  ghost predicate IsDiff(before: seq<StepDef>, after: seq<StepDef>, s: int, e: int)
  {
    && 0 <= s && 0 <= e && s + e <= Min(|before|, |after|)
    && (forall i :: 0 <= i < s ==> Equals(before[i], after[i]))
    && (forall i :: 0 <= i < e ==> Equals(Back(before, i), Back(after, i)))
    && (s < Min(|before|, |after|) ==> !Equals(before[s], after[s]))
    && (s + e < Min(|before|, |after|) ==> !Equals(Back(before, e), Back(after, e)))
  }

  /** `compareSteps`: the length of the equal prefix, then of the equal suffix that does not overlap it. */
  method CompareSteps(before: seq<StepDef>, after: seq<StepDef>) returns (equalStartCount: nat, equalEndCount: nat)
    ensures IsDiff(before, after, equalStartCount, equalEndCount)
  {
    equalStartCount := 0;
    equalEndCount := 0;
    while equalStartCount < |before| && equalStartCount < |after| && Equals(before[equalStartCount], after[equalStartCount])
      invariant equalStartCount <= |before| && equalStartCount <= |after|
      invariant forall i :: 0 <= i < equalStartCount ==> Equals(before[i], after[i])
    {
      equalStartCount := equalStartCount + 1;
    }
    while equalStartCount + equalEndCount < Min(|before|, |after|) && equalEndCount < |before| && equalEndCount < |after|
      && Equals(Back(before, equalEndCount), Back(after, equalEndCount))
      invariant equalStartCount + equalEndCount <= Min(|before|, |after|)
      invariant forall i :: 0 <= i < equalEndCount ==> Equals(Back(before, i), Back(after, i))
    {
      equalEndCount := equalEndCount + 1;
    }
  }

  /** The diff is determined by the two lists: there is only one prefix/suffix pair with those properties. */
  lemma DiffUnique(before: seq<StepDef>, after: seq<StepDef>, s1: int, e1: int, s2: int, e2: int)
    requires IsDiff(before, after, s1, e1) && IsDiff(before, after, s2, e2)
    ensures s1 == s2 && e1 == e2
  {
  }

  /**
   * After a diff, splicing `mid` between the old prefix and the old suffix gives a list of the new length
   * whose every position holds a definition equal to the new one there.
   */
  lemma SpliceMatchesNew(before: seq<StepDef>, after: seq<StepDef>, s: int, e: int, mid: seq<StepDef>)
    requires IsDiff(before, after, s, e)
    requires mid == after[s..|after| - e]
    ensures |before[..s] + mid + before[|before| - e..]| == |after|
    ensures forall i :: 0 <= i < |after| ==> Equals((before[..s] + mid + before[|before| - e..])[i], after[i])
  {
    var spliced := before[..s] + mid + before[|before| - e..];
    forall i | 0 <= i < |after|
      ensures Equals(spliced[i], after[i])
    {
      if i >= |after| - e {
        var k := |after| - 1 - i;
        assert spliced[i] == Back(before, k);
      }
    }
  }

  // ---- What `update` does to the instances, as functions of their fields ----

  /** Lines 114-121: every old instance of the changed middle is marked stale; those not done are disposed. */
  function Outdated(fs: seq<InstanceFields>, lo: int, hi: int): seq<InstanceFields>
  {
    seq(|fs|, i requires 0 <= i < |fs| =>
      if lo <= i < hi then fs[i].(stale := true, disposed := fs[i].disposed || fs[i].state != Done) else fs[i])
  }

  /** An instance that reported a side effect and registered no undo action cannot be rewound. */
  predicate Blocker(f: InstanceFields)
  {
    f.hasSideEffect && |f.undoActions| == 0
  }

  predicate HasBlocker(fs: seq<InstanceFields>, lo: int, hi: int)
  {
    exists i :: lo <= i <= hi && 0 <= i < |fs| && Blocker(fs[i])
  }

  /** The rewind transaction: every instance in `[lo, hi]` waits for its rewind and loses its undo actions. */
  function RewindAll(fs: seq<InstanceFields>, lo: int, hi: int): seq<InstanceFields>
  {
    seq(|fs|, i requires 0 <= i < |fs| =>
      if lo <= i <= hi then fs[i].(state := PendingRewind, undoActions := []) else fs[i])
  }

  /** Marking instances stale and disposing them changes neither who blocks a rewind nor who can reset. */
  lemma OutdatedKeepsCompensations(fs: seq<InstanceFields>, lo: int, hi: int, a: int, b: int)
    ensures HasBlocker(Outdated(fs, lo, hi), a, b) == HasBlocker(fs, a, b)
    ensures -1 <= b < |fs| ==> ResetIndex(Outdated(fs, lo, hi), b) == ResetIndex(fs, b)
  {
    var marked := Outdated(fs, lo, hi);
    assert forall i :: 0 <= i < |fs| ==> Blocker(marked[i]) == Blocker(fs[i]);
    if -1 <= b < |fs| {
      OutdatedKeepsResetIndex(fs, marked, b);
    }
  }

  lemma {:induction false} OutdatedKeepsResetIndex(fs: seq<InstanceFields>, marked: seq<InstanceFields>, b: int)
    requires |marked| == |fs| && -1 <= b < |fs|
    requires forall i :: 0 <= i < |fs| ==> marked[i].resetActions == fs[i].resetActions
    ensures ResetIndex(marked, b) == ResetIndex(fs, b)
    decreases b + 1
  {
    if b >= 0 {
      OutdatedKeepsResetIndex(fs, marked, b - 1);
    }
  }

  /** The compensation tasks the rewind pushes, from index `hi` down to `lo`, each with its undo actions. */
  function RewindTasks(xs: seq<StepInstance>, fs: seq<InstanceFields>, lo: int, hi: int): (r: seq<Task>)
    requires |xs| == |fs| && 0 <= lo && hi < |xs|
    ensures |r| == if lo <= hi then hi - lo + 1 else 0
    decreases hi - lo
  {
    if lo > hi then [] else RewindTasks(xs, fs, lo + 1, hi) + [Rewind(xs[lo], fs[lo].undoActions)]
  }

  /** The nearest index at or below `i` whose instance has reset actions, or -1. */
  function ResetIndex(fs: seq<InstanceFields>, i: int): (r: int)
    requires -1 <= i < |fs|
    ensures -1 <= r <= i
    ensures r >= 0 ==> |fs[r].resetActions| > 0
    ensures forall j :: r < j <= i && 0 <= j ==> |fs[j].resetActions| == 0
    decreases i + 1
  {
    if i < 0 then -1 else if |fs[i].resetActions| > 0 then i else ResetIndex(fs, i - 1)
  }

  /**
   * The reset transaction: the reset instance waits for its reset and loses its reset actions; every
   * instance after it up to `last` becomes dead and disposed when stale, pending otherwise.
   */
  function ResetAll(fs: seq<InstanceFields>, r: int, last: int): seq<InstanceFields>
  {
    seq(|fs|, i requires 0 <= i < |fs| =>
      if i == r then fs[i].(state := PendingRewind, resetActions := [])
      else if r < i <= last then ResetOne(fs[i])
      else fs[i])
  }

  /** What the reset transaction does to one instance after the reset one. */
  function ResetOne(f: InstanceFields): InstanceFields
  {
    if f.stale then f.(state := Dead, disposed := true) else f.(state := Pending)
  }

  /** A compensation task on the runner's stack, with the actions it will invoke. */
  datatype Task = Rewind(instance: StepInstance, actions: seq<ActionId>) | Reset(instance: StepInstance, actions: seq<ActionId>)

  /**
   * The compensation stack is popped from its end, so the rewind tasks of one update run from the lowest
   * index up: the first one popped is that of `lo`, and the k-th one popped that of `lo + k`.
   */
  lemma {:induction false} RewindTasksPopOrder(xs: seq<StepInstance>, fs: seq<InstanceFields>, lo: int, hi: int, k: int)
    requires |xs| == |fs| && 0 <= lo && hi < |xs|
    requires 0 <= k <= hi - lo
    ensures RewindTasks(xs, fs, lo, hi)[hi - lo - k] == Rewind(xs[lo + k], fs[lo + k].undoActions)
    decreases hi - lo
  {
    if k > 0 {
      RewindTasksPopOrder(xs, fs, lo + 1, hi, k - 1);
    }
  }

  // ---- The step the loop feeds a result to ----

  /**
   * `steps.at(lastStepIdx)`: JavaScript's `Array.prototype.at` counts a negative index from the end, so
   * at -1 it is the last element of a non-empty list.
   */
  function PreviousStepIndex(count: nat, lastStepIdx: int): (r: Option<nat>)
    ensures r.Some? ==> r.value < count
    ensures 0 <= lastStepIdx < count ==> r == Some(lastStepIdx)
    ensures lastStepIdx < 0 && count + lastStepIdx >= 0 ==> r == Some(count + lastStepIdx)
    ensures lastStepIdx + count < 0 || lastStepIdx >= count ==> r.None?
  {
    if lastStepIdx >= 0 then (if lastStepIdx < count then Some(lastStepIdx) else None)
    else if count + lastStepIdx >= 0 then Some(count + lastStepIdx) else None
  }

  /** The intended input source: the step before the next one, and none for the first step. */
  function IntendedPreviousStepIndex(count: nat, lastStepIdx: int): (r: Option<nat>)
    ensures r.Some? ==> r.value == lastStepIdx && r.value < count
    ensures lastStepIdx < 0 ==> r.None?
  {
    if 0 <= lastStepIdx < count then Some(lastStepIdx) else None
  }

  /**
   * As written, the first step of a list of two or more reads the result of the last step: with the
   * watermark at -1 the previous step is the last one, which is not before the step about to run.
   */
  lemma FirstStepReadsLastResult(count: nat)
    requires count >= 2
    ensures PreviousStepIndex(count, -1) == Some(count - 1)
    ensures IntendedPreviousStepIndex(count, -1).None?
  {
  }

  /** With the intended rule, the input always comes from the step just before the one that runs. */
  lemma IntendedInputPrecedes(count: nat, lastStepIdx: int)
    requires -1 <= lastStepIdx && lastStepIdx + 1 < count
    ensures IntendedPreviousStepIndex(count, lastStepIdx) == if lastStepIdx == -1 then None else Some(lastStepIdx)
    ensures lastStepIdx >= 0 ==> IntendedPreviousStepIndex(count, lastStepIdx) == PreviousStepIndex(count, lastStepIdx)
  {
  }

  // ---- The watermark after a rewind ----

  /** The watermark is sound when every step at or below it is done. */
  ghost predicate WatermarkSound(states: seq<State>, watermark: int)
  {
    forall i :: 0 <= i <= watermark && i < |states| ==> states[i] == Done
  }

  /** Line 158 as written: the watermark moves to just below the first changed step. */
  function RewoundWatermark(lastStepIdx: int, equalStartCount: nat): int
  {
    equalStartCount - 1
  }

  /** The intended rule: move the watermark back to just below the first changed step, never forward. */
  function IntendedRewoundWatermark(lastStepIdx: int, equalStartCount: nat): (r: int)
    ensures r <= lastStepIdx && r < equalStartCount
    ensures r == lastStepIdx || r == equalStartCount - 1
  {
    Min(lastStepIdx, equalStartCount - 1)
  }

  /**
   * As written, editing the third step after the first failed moves the watermark over the failed step
   * and the second step, which never ran.
   */
  lemma RewoundWatermarkSkipsFailedStep()
    ensures WatermarkSound([Error, Pending, Pending], -1)
    ensures RewoundWatermark(-1, 2) == 1
    ensures !WatermarkSound([Error, Pending, Pending], RewoundWatermark(-1, 2))
  {
    assert [Error, Pending, Pending][0] == Error;
  }

  /**
   * With the intended rule, a rewind keeps the watermark sound: every step at or below the new watermark
   * lies in the unchanged prefix, whose states the rewind does not touch.
   */
  lemma IntendedWatermarkSound(states: seq<State>, after: seq<State>, lastStepIdx: int, equalStartCount: nat)
    requires WatermarkSound(states, lastStepIdx)
    requires |after| >= equalStartCount && |states| >= equalStartCount
    requires forall i :: 0 <= i < equalStartCount ==> after[i] == states[i]
    ensures WatermarkSound(after, IntendedRewoundWatermark(lastStepIdx, equalStartCount))
  {
    var w := IntendedRewoundWatermark(lastStepIdx, equalStartCount);
    forall i | 0 <= i <= w && i < |after|
      ensures after[i] == Done
    {
      assert i < equalStartCount && i <= lastStepIdx;
    }
  }

  // ---- getFinalResult ----

  /** What awaiting the final result gives at a moment: an error, the last step's result, or nothing yet. */
  datatype FinalState = Waiting | HasError | Finished(result: Option<Value>) | NoSteps

  /**
   * The predicate `getFinalResult` waits on: any step in error settles with an error; otherwise the last
   * step being done settles with its result. An empty list makes the predicate throw (`NoSteps`).
   */
  function Final(fs: seq<InstanceFields>): (r: FinalState)
    ensures r == HasError <==> exists i :: 0 <= i < |fs| && fs[i].state == Error
    ensures r.Finished? <==> (forall i :: 0 <= i < |fs| ==> fs[i].state != Error) && |fs| > 0 && fs[|fs| - 1].state == Done
    ensures r.Finished? ==> r.result == fs[|fs| - 1].result
    ensures r == NoSteps <==> |fs| == 0
  {
    if exists i :: 0 <= i < |fs| && fs[i].state == Error then HasError
    else if |fs| == 0 then NoSteps
    else if fs[|fs| - 1].state != Done then Waiting
    else Finished(fs[|fs| - 1].result)
  }

  // ---- The runner ----

  /** Where the processing loop of `_process` stands. */
  datatype Phase =
    | Idle                                   // not processing
    | Ready                                  // processing, at the loop head (`Dispatch` runs next)
    | AwaitingTask(task: Task)               // awaiting a popped compensation task
    | AwaitingStep(captured: int, step: StepInstance, input: Option<Value>)
                                             // awaiting a step's run; `captured` is the watermark read before it

  /** How a step's run settled: with a result, or by throwing. */
  datatype StepOutcome = Succeeded(value: Option<Value>) | Failed

  /** How a compensation task settled: all its actions completed, or the one at `index` threw. */
  datatype TaskOutcome = Completed | FailedAt(index: nat)

  /** The result of the rewind feasibility scan; `OutOfRange` is the scan reading past the list and throwing. */
  datatype Scan = Clear | Blocked | OutOfRange

  /** Which way `update` went; `Threw` is the feasibility scan throwing, `Rejected` the "no reset action" warning. */
  datatype UpdateOutcome = Rewound | ResetFrom(index: nat) | Rejected | Threw

  /** Fresh pending instances for the given definitions (`newInstancesDefs.map(def => new StepInstance(def))`). */
  method CreateInstances(defs: seq<StepDef>) returns (xs: seq<StepInstance>)
    ensures Defs(xs) == defs
    ensures Distinct(xs)
    ensures forall i :: 0 <= i < |xs| ==> fresh(xs[i]) && FieldsOf(xs[i]) == Initial
  {
    xs := [];
    for k := 0 to |defs|
      invariant |xs| == k && Defs(xs) == defs[..k]
      invariant Distinct(xs)
      invariant forall i :: 0 <= i < k ==> fresh(xs[i]) && FieldsOf(xs[i]) == Initial
    {
      var x := new StepInstance(defs[k]);
      xs := xs + [x];
    }
  }

  /** Lines 114-121: mark the instances in `[lo, hi)` stale and dispose those that are not done. */
  method MarkOutdated(cur: seq<StepInstance>, lo: nat, hi: nat)
    requires Distinct(cur) && lo <= hi <= |cur|
    modifies set x | x in cur
    ensures Snapshot(cur) == Outdated(old(Snapshot(cur)), lo, hi)
  {
    ghost var before := Snapshot(cur);
    for k := lo to hi
      invariant forall j :: 0 <= j < |cur| ==> FieldsOf(cur[j]) == Outdated(before, lo, k)[j]
    {
      var oldInstance := cur[k];
      oldInstance.MarkAsStale();
      if oldInstance.state != Done {
        oldInstance.Dispose();
      }
    }
    assert forall j :: 0 <= j < |cur| ==> Snapshot(cur)[j] == Outdated(before, lo, hi)[j];
  }

  /** Lines 124-132: scan `[lo, hi]` downwards for a rewind blocker; reading past the list throws. */
  method ScanForBlocker(cur: seq<StepInstance>, lo: nat, hi: int) returns (scan: Scan)
    ensures scan == OutOfRange <==> lo <= hi && hi >= |cur|
    ensures scan == Blocked <==> hi < |cur| && HasBlocker(Snapshot(cur), lo, hi)
  {
    scan := Clear;
    var i := hi;
    while i >= lo
      invariant i <= hi
      invariant i < hi ==> hi < |cur|
      invariant forall j :: i < j <= hi && lo <= j ==> j < |cur| && !Blocker(Snapshot(cur)[j])
      decreases i - lo
    {
      if i >= |cur| {
        return OutOfRange;
      }
      var stepInstance := cur[i];
      if stepInstance.hasSideEffect && |stepInstance.undoActions| == 0 {
        assert Blocker(Snapshot(cur)[i]);
        return Blocked;
      }
      i := i - 1;
    }
  }

  /** Lines 163-170: the nearest instance at or below `start` with reset actions, or -1. */
  method FindResetIndex(cur: seq<StepInstance>, start: nat) returns (resetIdx: int)
    requires start < |cur|
    ensures resetIdx == ResetIndex(Snapshot(cur), start)
  {
    resetIdx := -1;
    var i := start;
    while i >= 0
      invariant -1 <= i <= start
      invariant ResetIndex(Snapshot(cur), start) == ResetIndex(Snapshot(cur), i)
      decreases i
    {
      var stepInstance := cur[i];
      if |stepInstance.resetActions| > 0 {
        resetIdx := i;
        return;
      }
      i := i - 1;
    }
  }

  /** Splicing fresh instances between a prefix and a suffix of a list without repeats gives a list without repeats. */
  lemma SpliceDistinct(cur: seq<StepInstance>, s: nat, t: nat, mid: seq<StepInstance>)
    requires Distinct(cur) && Distinct(mid) && s <= t <= |cur|
    requires forall i, j :: 0 <= i < |mid| && 0 <= j < |cur| ==> mid[i] != cur[j]
    ensures Distinct(cur[..s] + mid + cur[t..])
  {
    var r := cur[..s] + mid + cur[t..];
    forall i, j | 0 <= i < j < |r|
      ensures r[i] != r[j]
    {
      if j < s {
        assert r[i] == cur[i] && r[j] == cur[j];
      } else if j < s + |mid| {
        if i >= s {
          assert r[i] == mid[i - s] && r[j] == mid[j - s];
        } else {
          assert r[i] == cur[i] && r[j] == mid[j - s];
        }
      } else {
        assert r[j] == cur[j - s - |mid| + t];
        if i < s {
          assert r[i] == cur[i];
        } else if i < s + |mid| {
          assert r[i] == mid[i - s];
        } else {
          assert r[i] == cur[i - s - |mid| + t];
        }
      }
    }
  }

  /** The spliced instance list carries, position by position, definitions equal to the new ones. */
  lemma SpliceDefs(cur: seq<StepInstance>, mid: seq<StepInstance>, curDefs: seq<StepDef>, newDefs: seq<StepDef>, s: nat, e: nat)
    requires curDefs == Defs(cur) && IsDiff(curDefs, newDefs, s, e)
    requires Defs(mid) == newDefs[s..|newDefs| - e]
    ensures var spliced := cur[..s] + mid + cur[|cur| - e..];
      && |spliced| == |newDefs|
      && (forall i :: 0 <= i < |newDefs| ==> Equals(spliced[i].definition, newDefs[i]))
  {
    var spliced := cur[..s] + mid + cur[|cur| - e..];
    assert Defs(spliced) == curDefs[..s] + Defs(mid) + curDefs[|curDefs| - e..];
    SpliceMatchesNew(curDefs, newDefs, s, e, Defs(mid));
    forall i | 0 <= i < |newDefs|
      ensures Equals(spliced[i].definition, newDefs[i])
    {
      assert spliced[i].definition == Defs(spliced)[i];
    }
  }

  /**
   * Lines 137-157: rewind `[lo, hi]` from the top down: each instance waits for its rewind and hands its
   * undo actions to a compensation task; these come back in push order.
   */
  method RewindRange(cur: seq<StepInstance>, lo: nat, hi: int) returns (tasks: seq<Task>)
    requires Distinct(cur) && -1 <= hi < |cur|
    modifies set x | x in cur
    ensures Snapshot(cur) == RewindAll(old(Snapshot(cur)), lo, hi)
    ensures tasks == RewindTasks(cur, old(Snapshot(cur)), lo, hi)
  {
    ghost var before := Snapshot(cur);
    assert RewoundAbove(cur, before, hi, hi);
    tasks := RewindDown(cur, before, lo, hi);
    if hi < lo {
      RewoundIsRewindAll(cur, before, hi, lo, hi);
      assert RewindTasks(cur, before, hi + 1, hi) == [] == RewindTasks(cur, before, lo, hi);
    } else {
      RewoundIsRewindAll(cur, before, lo - 1, lo, hi);
    }
  }

  /** The loop of lines 137-157, from `hi` down to `lo`. */
  method RewindDown(cur: seq<StepInstance>, ghost before: seq<InstanceFields>, lo: nat, hi: int) returns (tasks: seq<Task>)
    requires Distinct(cur) && -1 <= hi < |cur| && RewoundAbove(cur, before, hi, hi)
    modifies set x | x in cur
    ensures RewoundAbove(cur, before, if hi < lo then hi else lo - 1, hi)
    ensures tasks == RewindTasks(cur, before, if hi < lo then hi + 1 else lo, hi)
  {
    tasks := [];
    var i := hi;
    while i >= lo
      invariant i <= hi && (i >= lo - 1 || i == hi)
      invariant RewoundAbove(cur, before, i, hi)
      invariant tasks == RewindTasks(cur, before, i + 1, hi)
      decreases i - lo
    {
      var task := RewindOne(cur, before, i, hi);
      tasks := tasks + [task];
      i := i - 1;
    }
  }

  /** The instances in `(i, hi]` are rewound and every other instance is as it was. */
  ghost predicate RewoundAbove(cur: seq<StepInstance>, before: seq<InstanceFields>, i: int, hi: int)
    reads set x | x in cur
  {
    |before| == |cur| &&
    forall j :: 0 <= j < |cur| ==>
      FieldsOf(cur[j]) == if i < j <= hi then before[j].(state := PendingRewind, undoActions := []) else before[j]
  }

  lemma RewoundIsRewindAll(cur: seq<StepInstance>, before: seq<InstanceFields>, i: int, lo: nat, hi: int)
    requires RewoundAbove(cur, before, i, hi) && i < lo && (i >= lo - 1 || i == hi)
    ensures Snapshot(cur) == RewindAll(before, lo, hi)
  {
    assert forall j :: 0 <= j < |cur| ==> Snapshot(cur)[j] == RewindAll(before, lo, hi)[j];
  }

  method RewindOne(cur: seq<StepInstance>, ghost before: seq<InstanceFields>, i: nat, hi: int) returns (task: Task)
    requires Distinct(cur) && i <= hi < |cur| && RewoundAbove(cur, before, i, hi)
    modifies cur[i]
    ensures RewoundAbove(cur, before, i - 1, hi)
    ensures task == Rewind(cur[i], before[i].undoActions)
  {
    var stepInstance := cur[i];
    var undoActions := stepInstance.undoActions;
    stepInstance.undoActions := [];
    task := Rewind(stepInstance, undoActions);
    stepInstance.state := PendingRewind;
    assert forall j :: 0 <= j < |cur| && j != i ==> cur[j] != cur[i];
  }

  /**
   * Lines 176-202: the reset instance waits for its reset; every instance after it up to `last` dies when
   * stale and is pending otherwise; the reset actions are taken into one compensation task.
   */
  method ResetRange(cur: seq<StepInstance>, r: nat, last: int) returns (task: Task)
    requires Distinct(cur) && r < |cur| && last < |cur|
    modifies set x | x in cur
    ensures Snapshot(cur) == ResetAll(old(Snapshot(cur)), r, last)
    ensures task == Reset(cur[r], old(Snapshot(cur))[r].resetActions)
  {
    ghost var before := Snapshot(cur);
    var resetStep := cur[r];
    resetStep.state := PendingRewind;
    assert forall j :: 0 <= j < |cur| && j != r ==> cur[j] != cur[r];
    var i := last;
    while i > r
      invariant i <= last && (i >= r || i == last)
      invariant ResetAbove(cur, before, r, i, last)
      decreases i - r
    {
      ResetOneAt(cur, before, r, i, last);
      i := i - 1;
    }
    var resetActions := resetStep.resetActions;
    resetStep.resetActions := [];
    task := Reset(resetStep, resetActions);
    assert forall j :: 0 <= j < |cur| ==> Snapshot(cur)[j] == ResetAll(before, r, last)[j];
  }

  /** The reset instance `r` waits for its reset, the instances in `(i, last]` are reset, and the rest are as they were. */
  ghost predicate ResetAbove(cur: seq<StepInstance>, before: seq<InstanceFields>, r: nat, i: int, last: int)
    reads set x | x in cur
  {
    |before| == |cur| && r < |cur| &&
    forall j :: 0 <= j < |cur| ==>
      FieldsOf(cur[j]) == if j == r then before[r].(state := PendingRewind)
                          else if i < j <= last then ResetOne(before[j])
                          else before[j]
  }

  method ResetOneAt(cur: seq<StepInstance>, ghost before: seq<InstanceFields>, r: nat, i: nat, last: int)
    requires Distinct(cur) && r < i <= last < |cur| && ResetAbove(cur, before, r, i, last)
    modifies cur[i]
    ensures ResetAbove(cur, before, r, i - 1, last)
  {
    var stepInstance := cur[i];
    if stepInstance.stale {
      stepInstance.state := Dead;
      stepInstance.Dispose();
    } else {
      stepInstance.state := Pending;
    }
    assert forall j :: 0 <= j < |cur| && j != i ==> cur[j] != cur[i];
  }

  /** What compensating an edit does: the outcome, the instances' new fields, the new watermark and the compensation tasks pushed. */
  datatype Effect = Effect(outcome: UpdateOutcome, fields: seq<InstanceFields>, watermark: int, pushed: seq<Task>)

  /**
   * Lines 123-203 over the fields `fs` of the instances `xs` after marking, with the watermark at `last` and
   * the first change at `s`: a watermark past the list makes the scan throw; with no rewind blocker in
   * `[s, last]` those instances are rewound and the watermark moves below `s`; otherwise the nearest
   * instance at or below `s` with reset actions is reset and the watermark moves below it, and with none
   * the update is rejected.
   */
  function Compensation(xs: seq<StepInstance>, fs: seq<InstanceFields>, last: int, s: nat): (r: Effect)
    requires |xs| == |fs| && s <= |fs| && last >= -1
    ensures |r.fields| == |fs| && r.watermark >= -1
  {
    if last >= |fs| then Effect(Threw, fs, last, [])
    else if !HasBlocker(fs, s, last) then
      Effect(Rewound, RewindAll(fs, s, last), RewoundWatermark(last, s), RewindTasks(xs, fs, s, last))
    else
      var r := ResetIndex(fs, s);
      if r == -1 then Effect(Rejected, fs, last, [])
      else Effect(ResetFrom(r), ResetAll(fs, r, last), r - 1, [Reset(xs[r], fs[r].resetActions)])
  }

  /**
   * When no step at or after the first change has run, the rewind path is taken with nothing to undo: no
   * task is pushed, no instance changes, and the watermark becomes `s - 1`.
   */
  lemma NothingToUndo(xs: seq<StepInstance>, fs: seq<InstanceFields>, last: int, s: nat)
    requires |xs| == |fs| && s <= |fs| && -1 <= last < s
    ensures Compensation(xs, fs, last, s) == Effect(Rewound, fs, s - 1, [])
  {
    assert RewindAll(fs, s, last) == fs;
  }

  /** Two field lists with the same undo actions give the same rewind tasks. */
  lemma {:induction false} SameUndoSameTasks(xs: seq<StepInstance>, fs: seq<InstanceFields>, gs: seq<InstanceFields>, lo: int, hi: int)
    requires |xs| == |fs| == |gs| && 0 <= lo && hi < |xs|
    requires forall i :: 0 <= i < |fs| ==> fs[i].undoActions == gs[i].undoActions
    ensures RewindTasks(xs, fs, lo, hi) == RewindTasks(xs, gs, lo, hi)
    decreases hi - lo
  {
    if lo <= hi {
      SameUndoSameTasks(xs, fs, gs, lo + 1, hi);
    }
  }

  /**
   * Marking the replaced instances stale and disposing them (lines 116-121) before compensating changes
   * neither the outcome, nor the new watermark, nor the compensation tasks pushed.
   */
  lemma MarkingKeepsDecision(xs: seq<StepInstance>, fs: seq<InstanceFields>, last: int, s: nat, lo: int, hi: int)
    requires |xs| == |fs| && s <= |fs| && last >= -1
    ensures var m, u := Compensation(xs, Outdated(fs, lo, hi), last, s), Compensation(xs, fs, last, s);
      m.outcome == u.outcome && m.watermark == u.watermark && m.pushed == u.pushed
  {
    var marked := Outdated(fs, lo, hi);
    OutdatedKeepsCompensations(fs, lo, hi, s, last);
    if last < |fs| && HasBlocker(fs, s, last) {
      OutdatedKeepsCompensations(fs, lo, hi, s, s);
    } else if last < |fs| {
      SameUndoSameTasks(xs, marked, fs, s, last);
    }
  }

  /**
   * Compensation touches only the instances from where it restarts up to the old watermark: from the first
   * change `s` on a rewind, from the reset instance `r` on a reset, and none when it throws or gives up.
   */
  lemma CompensationFrame(xs: seq<StepInstance>, fs: seq<InstanceFields>, last: int, s: nat, i: int)
    requires |xs| == |fs| && s <= |fs| && last >= -1 && 0 <= i < |fs|
    ensures var r := Compensation(xs, fs, last, s);
      && (r.outcome == Threw || r.outcome == Rejected ==> r.fields == fs)
      && (r.outcome == Rewound && (i < s || last < i) ==> r.fields[i] == fs[i])
      && (r.outcome.ResetFrom? && (i < r.outcome.index || last < i) ==> r.fields[i] == fs[i])
  {
  }

  /**
   * After a rewind or a reset no instance between the new watermark and the old one is still done, so
   * `_process` runs each of them again; a reset restarts at or below the first change, at the nearest
   * instance with reset actions, and hands those actions to the single task it pushes.
   */
  lemma CompensationRerunsUndoneSteps(xs: seq<StepInstance>, fs: seq<InstanceFields>, last: int, s: nat)
    requires |xs| == |fs| && s <= |fs| && last >= -1
    ensures var r := Compensation(xs, fs, last, s);
      && (r.outcome == Rewound || r.outcome.ResetFrom? ==>
            forall i :: r.watermark < i <= last ==> r.fields[i].state in {PendingRewind, Pending, Dead})
      && (r.outcome.ResetFrom? ==>
            var k := r.outcome.index;
            && k <= s && r.watermark == k - 1 && HasBlocker(fs, s, last)
            && |fs[k].resetActions| > 0 && r.fields[k].resetActions == []
            && (forall j :: k < j <= s ==> |fs[j].resetActions| == 0)
            && r.pushed == [Reset(xs[k], fs[k].resetActions)])
  {
  }

  /**
   * A rewind hands each undone instance's undo actions to exactly one task and clears them on the
   * instance; the k-th task popped is that of `s + k`.
   */
  lemma RewindMovesUndoActions(xs: seq<StepInstance>, fs: seq<InstanceFields>, last: int, s: nat, k: int)
    requires |xs| == |fs| && s <= |fs| && last >= -1
    requires Compensation(xs, fs, last, s).outcome == Rewound && 0 <= k <= last - s
    ensures var r := Compensation(xs, fs, last, s);
      && r.pushed[|r.pushed| - 1 - k] == Rewind(xs[s + k], fs[s + k].undoActions)
      && r.fields[s + k].undoActions == [] && r.fields[s + k].state == PendingRewind
      && !Blocker(fs[s + k])
  {
    RewindTasksPopOrder(xs, fs, s, last, k);
  }

  /** Lines 123-203, proved against `Compensation`. */
  method Compensate(cur: seq<StepInstance>, ghost fs: seq<InstanceFields>, s: nat, last: int)
    returns (outcome: UpdateOutcome, tasks: seq<Task>, newLast: int)
    requires Distinct(cur) && last >= -1 && s <= |cur| && fs == Snapshot(cur)
    modifies set x | x in cur
    ensures Effect(outcome, Snapshot(cur), newLast, tasks) == Compensation(cur, fs, last, s)
  {
    var scan := ScanForBlocker(cur, s, last);
    if scan == OutOfRange {
      return Threw, [], last;
    }
    if scan == Clear {
      tasks := RewindRange(cur, s, last);
      return Rewound, tasks, RewoundWatermark(last, s);
    }
    var resetIdx := FindResetIndex(cur, s);
    if resetIdx == -1 {
      return Rejected, [], last;
    }
    var task := ResetRange(cur, resetIdx, last);
    return ResetFrom(resetIdx), [task], resetIdx - 1;
  }

  /**
   * Lines 99-203 on the instance list `cur` with the watermark at `last`: diff the definitions, create
   * instances for the new middle, mark the replaced ones stale (disposing those not done), then compensate.
   */
  method Revise(cur: seq<StepInstance>, newDefs: seq<StepDef>, last: int)
    returns (outcome: UpdateOutcome, s: nat, e: nat, tasks: seq<Task>, newLast: int, added: seq<StepInstance>)
    requires Distinct(cur) && last >= -1
    modifies set x | x in cur
    ensures IsDiff(Defs(cur), newDefs, s, e)
    ensures Effect(outcome, Snapshot(cur), newLast, tasks) == Compensation(cur, Outdated(old(Snapshot(cur)), s, |cur| - e), last, s)
    ensures Defs(added) == newDefs[s..|newDefs| - e] && Distinct(added)
    ensures forall i :: 0 <= i < |added| ==> fresh(added[i]) && FieldsOf(added[i]) == Initial
  {
    var curDefs := Defs(cur);
    var equalStartCount, equalEndCount := CompareSteps(curDefs, newDefs);
    s, e := equalStartCount, equalEndCount;
    var outdatedInstancesLength := |curDefs| - equalStartCount - equalEndCount;
    var newInstancesLength := |newDefs| - equalStartCount - equalEndCount;
    ghost var before := Snapshot(cur);
    added := CreateInstances(newDefs[equalStartCount..equalStartCount + newInstancesLength]);
    assert Snapshot(cur) == before;
    MarkOutdated(cur, equalStartCount, equalStartCount + outdatedInstancesLength);
    ghost var marked := Snapshot(cur);
    assert marked == Outdated(before, s, |cur| - e);
    outcome, tasks, newLast := Compensate(cur, marked, equalStartCount, last);
  }

  /** A `StepsRunner`. */
  class Runner {
    var instances: seq<StepInstance>
    var targetStepIdx: int
    var lastStepIdx: int
    /** The compensation stack; its end is its top. */
    var queue: seq<Task>
    var phase: Phase
    /** The undo and reset callbacks invoked so far, in order. */
    var performed: seq<ActionId>

    predicate Valid()
      reads this
    {
      lastStepIdx >= -1 && Distinct(instances) && (phase.AwaitingStep? ==> phase.captured >= -1)
    }

    /**
     * The constructor (lines 29-35): an empty runner with the watermark at -1 and the target at 0; given
     * steps, it runs `update` and enters `_process`, which starts the first step.
     */
    constructor(steps: Option<seq<StepDef>>)
      ensures Valid()
      ensures steps.None? ==>
        instances == [] && lastStepIdx == -1 && targetStepIdx == 0 && queue == [] && phase == Idle && performed == []
      ensures steps.Some? ==>
        && Defs(instances) == steps.value && lastStepIdx == -1 && targetStepIdx == |steps.value| - 1
        && queue == [] && performed == []
        && (forall i :: 0 <= i < |instances| ==> fresh(instances[i]))
        && (forall i :: 1 <= i < |instances| ==> FieldsOf(instances[i]) == Initial)
        && (|instances| == 0 ==> phase == Idle)
        && (|instances| > 0 ==>
              phase == AwaitingStep(-1, instances[0], None) && FieldsOf(instances[0]) == Initial.(state := Running))
    {
      instances := [];
      targetStepIdx := 0;
      lastStepIdx := -1;
      queue := [];
      phase := Idle;
      performed := [];
      new;
      if steps.Some? {
        Start(steps.value);
      }
    }

    /** Lines 33-34: the empty runner takes the given steps with `update`, which enters `_process`. */
    method Start(steps: seq<StepDef>)
      requires Valid() && instances == [] && lastStepIdx == -1 && targetStepIdx == 0
      requires queue == [] && phase == Idle && performed == []
      modifies this
      ensures Valid()
      ensures Defs(instances) == steps && lastStepIdx == -1 && targetStepIdx == |steps| - 1
      ensures queue == [] && performed == []
      ensures forall i :: 0 <= i < |instances| ==> fresh(instances[i])
      ensures forall i :: 1 <= i < |instances| ==> FieldsOf(instances[i]) == Initial
      ensures |instances| == 0 ==> phase == Idle
      ensures |instances| > 0 ==>
        phase == AwaitingStep(-1, instances[0], None) && FieldsOf(instances[0]) == Initial.(state := Running)
    {
      var outcome, s, e, pushed, added := Update(steps);
      assert s == 0 && e == 0;
      assert instances == added;
      if phase.Ready? {
        assert |instances| > 0 ==> PreviousStepIndex(|instances|, -1) == Some(|instances| - 1);
        Dispatch();
      }
    }

    /**
     * `update` (lines 99-213). The instance list is diffed against the new definitions; the old instances
     * of the changed middle are marked stale (and disposed unless done) whatever happens next. Then, when no
     * instance from the first change up to the watermark is a rewind blocker, those instances are rewound
     * and the watermark moves below the first change; otherwise the nearest instance at or below the first
     * change with reset actions is reset and the watermark moves below it; when there is none the update
     * is rejected. A rewind or reset splices fresh instances for the new middle between the kept prefix and
     * suffix and targets the last new instance. A watermark at or past the end of the list makes the scan
     * read past it and throw.
     */
    method Update(newDefs: seq<StepDef>) returns (outcome: UpdateOutcome, ghost s: nat, ghost e: nat, ghost pushed: seq<Task>,
                                         ghost added: seq<StepInstance>)
      requires Valid() && !phase.Ready?
      modifies this, set x | x in instances
      ensures Valid()
      ensures IsDiff(Defs(old(instances)), newDefs, s, e)
      ensures performed == old(performed)
      ensures Effect(outcome, Snapshot(old(instances)), lastStepIdx, pushed)
        == Compensation(old(instances), Outdated(old(Snapshot(instances)), s, |old(instances)| - e), old(lastStepIdx), s)
      ensures queue == old(queue) + pushed
      ensures outcome == Rejected || outcome == Threw ==>
        instances == old(instances) && targetStepIdx == old(targetStepIdx) && phase == old(phase)
      ensures outcome == Rewound || outcome.ResetFrom? ==>
        && instances == old(instances)[..s] + added + old(instances)[|old(instances)| - e..]
        && Defs(added) == newDefs[s..|newDefs| - e]
        && (forall i :: 0 <= i < |added| ==> fresh(added[i]) && FieldsOf(added[i]) == Initial)
        && targetStepIdx == |newDefs| - e - 1
        && phase == if old(phase).Idle? then Ready else old(phase)
    {
      ghost var before, last := Snapshot(instances), lastStepIdx;
      var curInstances := instances;
      var equalStartCount, equalEndCount, tasks, newLast, newInstances;
      outcome, equalStartCount, equalEndCount, tasks, newLast, newInstances := Revise(curInstances, newDefs, lastStepIdx);
      s, e, pushed, added := equalStartCount, equalEndCount, tasks, [];
      ghost var after := Snapshot(curInstances);
      assert Effect(outcome, after, newLast, tasks) == Compensation(curInstances, Outdated(before, s, |curInstances| - e), last, s);
      if outcome == Threw || outcome == Rejected {
        return;
      }
      Commit(curInstances, equalStartCount, |curInstances| - equalEndCount, newInstances, |newDefs| - equalEndCount - 1,
             newLast, tasks);
      added := newInstances;
      assert Snapshot(curInstances) == after;
    }

    /**
     * Lines 137-212 on the runner: take the new watermark and push the compensation tasks, then the kept
     * prefix, the fresh instances and the kept suffix; run up to `target`.
     */
    method Commit(cur: seq<StepInstance>, s: nat, t: nat, added: seq<StepInstance>, target: int,
                  newLast: int, tasks: seq<Task>)
      requires Valid() && instances == cur && !phase.Ready? && newLast >= -1
      requires Distinct(added) && s <= t <= |cur|
      requires forall i, j :: 0 <= i < |added| && 0 <= j < |cur| ==> added[i] != cur[j]
      modifies this
      ensures Valid()
      ensures instances == cur[..s] + added + cur[t..]
      ensures lastStepIdx == newLast && queue == old(queue) + tasks
      ensures targetStepIdx == target
      ensures phase == if old(phase).Idle? then Ready else old(phase)
      ensures performed == old(performed)
    {
      lastStepIdx := newLast;
      queue := queue + tasks;
      SpliceDistinct(cur, s, t, added);
      instances := cur[..s] + added + cur[t..];
      RunAfter(target);
    }

    /** `_process` entered: a no-op while processing, otherwise processing starts at the loop head. */
    method Process()
      requires !phase.Ready?
      modifies this
      ensures phase == if old(phase).Idle? then Ready else old(phase)
      ensures instances == old(instances) && lastStepIdx == old(lastStepIdx) && targetStepIdx == old(targetStepIdx)
      ensures queue == old(queue) && performed == old(performed)
    {
      if !phase.Idle? {
        return;
      }
      phase := Ready;
    }

    /** `runAfter`: set the target and enter `_process`. */
    method RunAfter(stepIdx: int)
      requires !phase.Ready?
      modifies this
      ensures targetStepIdx == stepIdx
      ensures phase == if old(phase).Idle? then Ready else old(phase)
      ensures instances == old(instances) && lastStepIdx == old(lastStepIdx)
      ensures queue == old(queue) && performed == old(performed)
    {
      targetStepIdx := stepIdx;
      Process();
    }

    /** The watermark is below the target and the step just above it exists and is pending. */
    predicate CanAdvance()
      reads this, set x | x in instances
    {
      lastStepIdx < targetStepIdx && 0 <= lastStepIdx + 1 < |instances| && instances[lastStepIdx + 1].state == Pending
    }

    /** The objects one pass of the loop head may change. */
    function DispatchFrame(): set<object>
      reads this
    {
      if |queue| > 0 then {queue[|queue| - 1].instance}
      else if 0 <= lastStepIdx + 1 < |instances| then {instances[lastStepIdx + 1]}
      else {}
    }

    /**
     * One pass of the loop head of `_process` (lines 226-262), up to its next await or its exit: pop and
     * start the most recent compensation task if there is one; otherwise start the step just above the
     * watermark when it is below the target and that step is pending, feeding it the result of
     * `steps.at(lastStepIdx)`; otherwise stop. A missing next step makes the loop throw, which also stops it.
     */
    method Dispatch()
      requires Valid() && phase.Ready?
      modifies this, DispatchFrame()
      ensures Valid()
      ensures instances == old(instances) && lastStepIdx == old(lastStepIdx) && targetStepIdx == old(targetStepIdx)
      ensures performed == old(performed)
      ensures |old(queue)| > 0 ==>
        && queue == old(queue)[..|old(queue)| - 1]
        && phase == AwaitingTask(old(queue)[|old(queue)| - 1])
        && FieldsOf(phase.task.instance) == old(FieldsOf(queue[|queue| - 1].instance)).(state := Rewinding)
      ensures |old(queue)| == 0 ==> queue == []
      ensures |old(queue)| == 0 && !old(CanAdvance()) ==> phase == Idle
      ensures |old(queue)| == 0 && old(CanAdvance()) ==>
        var next := instances[lastStepIdx + 1];
        var k := PreviousStepIndex(|instances|, lastStepIdx);
        && phase == AwaitingStep(lastStepIdx, next,
             if k.None? || k.value == lastStepIdx + 1 then None else old(instances[k.value].result))
        && FieldsOf(next) == old(FieldsOf(next)).(state := Running, result := None)
    {
      if |queue| > 0 {
        var task := queue[|queue| - 1];
        queue := queue[..|queue| - 1];
        task.instance.state := Rewinding;
        phase := AwaitingTask(task);
        return;
      }
      if lastStepIdx >= targetStepIdx {
        phase := Idle;
        return;
      }
      if lastStepIdx + 1 >= |instances| {
        phase := Idle;
        return;
      }
      var nextStep := instances[lastStepIdx + 1];
      if nextStep.state != Pending {
        phase := Idle;
        return;
      }
      var prevStep := PreviousStepIndex(|instances|, lastStepIdx);
      nextStep.state := Running;
      nextStep.result := None;
      var input := if prevStep.Some? then instances[prevStep.value].result else None;
      phase := AwaitingStep(lastStepIdx, nextStep, input);
    }

    /**
     * The awaited compensation task settled (lines 143-154 and 194-202, caught at 229-236). When all its
     * actions completed, a rewound instance dies and is disposed if stale and is pending otherwise, and a
     * reset instance is pending. When an action threw, the later ones are not invoked and the instance
     * keeps its state. The loop continues at its head.
     */
    method TaskSettled(outcome: TaskOutcome)
      requires Valid() && phase.AwaitingTask?
      requires outcome.FailedAt? ==> outcome.index < |phase.task.actions|
      modifies this, phase.task.instance
      ensures Valid() && phase == Ready
      ensures instances == old(instances) && lastStepIdx == old(lastStepIdx) && targetStepIdx == old(targetStepIdx)
      ensures queue == old(queue)
      ensures outcome.Completed? ==> performed == old(performed) + old(phase.task.actions)
      ensures outcome.FailedAt? ==> performed == old(performed) + old(phase.task.actions)[..outcome.index + 1]
      ensures outcome.FailedAt? ==> FieldsOf(old(phase.task.instance)) == old(FieldsOf(phase.task.instance))
      ensures outcome.Completed? && old(phase.task).Rewind? ==>
        FieldsOf(old(phase.task.instance)) == ResetOne(old(FieldsOf(phase.task.instance)))
      ensures outcome.Completed? && old(phase.task).Reset? ==>
        FieldsOf(old(phase.task.instance)) == old(FieldsOf(phase.task.instance)).(state := Pending)
    {
      var task := phase.task;
      var stepInstance := task.instance;
      match outcome {
        case Completed =>
          performed := performed + task.actions;
          if task.Rewind? && stepInstance.stale {
            stepInstance.state := Dead;
            stepInstance.Dispose();
          } else {
            stepInstance.state := Pending;
          }
        case FailedAt(k) =>
          performed := performed + task.actions[..k + 1];
      }
      phase := Ready;
    }

    /** `context.onRewind` during the awaited run (line 267). */
    method OnRewind(action: ActionId)
      requires phase.AwaitingStep?
      modifies phase.step
      ensures FieldsOf(phase.step) == old(FieldsOf(phase.step)).(undoActions := old(phase.step.undoActions) + [action])
    {
      phase.step.undoActions := phase.step.undoActions + [action];
    }

    /** `context.onReset` during the awaited run (line 270). */
    method OnReset(action: ActionId)
      requires phase.AwaitingStep?
      modifies phase.step
      ensures FieldsOf(phase.step) == old(FieldsOf(phase.step)).(resetActions := old(phase.step.resetActions) + [action])
    {
      phase.step.resetActions := phase.step.resetActions + [action];
    }

    /** `context.reportSideEffect` during the awaited run (line 273). */
    method ReportSideEffect()
      requires phase.AwaitingStep?
      modifies phase.step
      ensures FieldsOf(phase.step) == old(FieldsOf(phase.step)).(hasSideEffect := true)
    {
      phase.step.hasSideEffect := true;
    }

    /**
     * The awaited run settled (lines 276-288). On success the watermark becomes one above the one read
     * before the run and the step is done with its result; the loop continues at its head. On failure the
     * step is in error with no result and the loop stops.
     */
    method StepSettled(outcome: StepOutcome)
      requires Valid() && phase.AwaitingStep?
      modifies this, phase.step
      ensures Valid()
      ensures instances == old(instances) && targetStepIdx == old(targetStepIdx)
      ensures queue == old(queue) && performed == old(performed)
      ensures outcome.Succeeded? ==>
        && lastStepIdx == old(phase.captured) + 1 && phase == Ready
        && FieldsOf(old(phase.step)) == old(FieldsOf(phase.step)).(state := Done, result := outcome.value)
      ensures outcome.Failed? ==>
        && lastStepIdx == old(lastStepIdx) && phase == Idle
        && FieldsOf(old(phase.step)) == old(FieldsOf(phase.step)).(state := Error, result := None)
    {
      var nextStep := phase.step;
      match outcome
      case Succeeded(result) =>
        lastStepIdx := phase.captured + 1;
        nextStep.state := Done;
        nextStep.result := result;
        phase := Ready;
      case Failed =>
        nextStep.state := Error;
        nextStep.result := None;
        phase := Idle;
    }

    /**
     * The intended completion: the watermark advances only when it still sits just below the step that
     * ran and that step is still in the list at that place; a step replaced or moved meanwhile does not
     * move it. Only ever the completed step comes to sit at the watermark.
     */
    method StepSettledIntended(outcome: StepOutcome)
      requires Valid() && phase.AwaitingStep?
      modifies this, phase.step
      ensures Valid()
      ensures instances == old(instances) && targetStepIdx == old(targetStepIdx)
      ensures queue == old(queue) && performed == old(performed)
      ensures lastStepIdx == old(lastStepIdx) ||
        (lastStepIdx == old(lastStepIdx) + 1 && lastStepIdx < |instances| && instances[lastStepIdx] == old(phase.step)
         && old(phase.step).state == Done)
      ensures (outcome.Succeeded? && old(lastStepIdx) == old(phase.captured) && old(phase.captured) + 1 < |instances|
               && instances[old(phase.captured) + 1] == old(phase.step)) ==> lastStepIdx == old(lastStepIdx) + 1
      ensures outcome.Succeeded? ==>
        phase == Ready && FieldsOf(old(phase.step)) == old(FieldsOf(phase.step)).(state := Done, result := outcome.value)
      ensures outcome.Failed? ==>
        && lastStepIdx == old(lastStepIdx) && phase == Idle
        && FieldsOf(old(phase.step)) == old(FieldsOf(phase.step)).(state := Error, result := None)
    {
      var nextStep := phase.step;
      match outcome
      case Succeeded(result) =>
        if lastStepIdx == phase.captured && phase.captured + 1 < |instances| && instances[phase.captured + 1] == nextStep {
          lastStepIdx := phase.captured + 1;
        }
        nextStep.state := Done;
        nextStep.result := result;
        phase := Ready;
      case Failed =>
        nextStep.state := Error;
        nextStep.result := None;
        phase := Idle;
    }

    /**
     * `getFinalResult`: the target becomes the last step, and the answer is what the awaited predicate
     * gives on the current instances.
     */
    method GetFinalResult() returns (r: FinalState)
      modifies this
      ensures targetStepIdx == |instances| - 1
      ensures instances == old(instances) && lastStepIdx == old(lastStepIdx) && queue == old(queue)
      ensures phase == old(phase) && performed == old(performed)
      ensures r == Final(Snapshot(instances))
    {
      targetStepIdx := |instances| - 1;
      for i := 0 to |instances|
        invariant forall j :: 0 <= j < i ==> Snapshot(instances)[j].state != Error
      {
        if instances[i].state == Error {
          assert Snapshot(instances)[i].state == Error;
          return HasError;
        }
      }
      if |instances| == 0 {
        return NoSteps;
      }
      var lastStep := instances[|instances| - 1];
      if lastStep.state != Done {
        return Waiting;
      }
      return Finished(lastStep.result);
    }
  }

  /**
   * The rewind path moves the watermark to `s - 1` even when it was lower (lines 155-158): after the first
   * of three steps fails, editing the third sets the watermark to 1 and `_process` starts the edited third
   * step, although the first is in error and the second never ran.
   */
  method RewindRaisesWatermarkScenario(a: StepDef, b: StepDef, c: StepDef, edited: StepDef) returns (r: Runner)
    requires !Equals(c, edited)
    ensures r.lastStepIdx == 1 && r.targetStepIdx == 2 && |r.instances| == 3
    ensures r.instances[0].state == Error && r.instances[1].state == Pending
    ensures r.phase.AwaitingStep? && r.phase.step == r.instances[2] && r.instances[2].definition == edited
  {
    r := FirstOfThreeFailed(a, b, c);
    EditThirdAfterFailure(r, a, b, c, edited);
    r.Dispatch();
  }

  /** A runner over three steps whose first step failed. */
  method FirstOfThreeFailed(a: StepDef, b: StepDef, c: StepDef) returns (r: Runner)
    ensures r.Valid() && Defs(r.instances) == [a, b, c] && r.phase == Idle && r.lastStepIdx == -1 && r.queue == []
    ensures r.instances[0].state == Error && FieldsOf(r.instances[1]) == Initial
    ensures fresh(r) && forall i :: 0 <= i < |r.instances| ==> fresh(r.instances[i])
  {
    r := new Runner(Some([a, b, c]));
    r.StepSettled(Failed);
  }

  /** Editing the third step of such a runner: a rewind that pushes no task and raises the watermark to 1. */
  method EditThirdAfterFailure(r: Runner, a: StepDef, b: StepDef, c: StepDef, edited: StepDef)
    requires !Equals(c, edited)
    requires r.Valid() && Defs(r.instances) == [a, b, c] && r.phase == Idle && r.lastStepIdx == -1 && r.queue == []
    requires r.instances[0].state == Error && FieldsOf(r.instances[1]) == Initial
    modifies r, set x | x in r.instances
    ensures r.Valid() && |r.instances| == 3 && r.instances[..2] == old(r.instances[..2])
    ensures r.instances[2].definition == edited && r.instances[2].state == Pending
    ensures r.instances[0].state == Error && r.instances[1].state == Pending
    ensures r.lastStepIdx == 1 && r.targetStepIdx == 2 && r.queue == [] && r.phase == Ready
    ensures fresh(r.instances[2])
  {
    ghost var old3, snap := r.instances, Snapshot(r.instances);
    ghost var first, second := r.instances[0], r.instances[1];
    assert snap[0].state == Error && snap[1].state == Pending;
    var outcome, s, e, pushed, added := r.Update([a, b, edited]);
    assert IsDiff([a, b, c], [a, b, edited], 2, 0);
    DiffUnique([a, b, c], [a, b, edited], s, e, 2, 0);
    NothingToUndo(old3, Outdated(snap, 2, 3), -1, 2);
    assert Snapshot(old3) == Outdated(snap, 2, 3);
    assert FieldsOf(first) == Snapshot(old3)[0] && FieldsOf(second) == Snapshot(old3)[1];
    assert r.instances == [first, second] + added;
  }

  /**
   * A step edited while it runs (lines 276-280 after an `update`): the late completion of the replaced
   * instance moves the watermark over the new instance, so `_process` stops and the edited step never runs.
   */
  method LateCompletionSkipsEditScenario(a: StepDef, edited: StepDef, v: Option<Value>) returns (r: Runner, final: FinalState)
    requires !Equals(a, edited)
    ensures r.lastStepIdx == 0 && r.targetStepIdx == 0 && |r.instances| == 1
    ensures r.instances[0].definition == edited && r.instances[0].state == Pending
    ensures r.phase == Idle && final == Waiting
  {
    r := EditWhileRunning(a, edited);
    r.StepSettled(Succeeded(v));
    r.Dispatch();
    final := r.GetFinalResult();
  }

  /** With the intended completion the same edit leaves the watermark alone and the edited step runs next. */
  method LateCompletionIntendedScenario(a: StepDef, edited: StepDef, v: Option<Value>) returns (r: Runner)
    requires !Equals(a, edited)
    ensures r.lastStepIdx == -1 && r.targetStepIdx == 0 && |r.instances| == 1
    ensures r.phase == AwaitingStep(-1, r.instances[0], None) && r.instances[0].definition == edited
    ensures r.instances[0].state == Running
  {
    r := EditWhileRunning(a, edited);
    r.StepSettledIntended(Succeeded(v));
    r.Dispatch();
  }

  /** A runner over one step, edited while that step runs: a rewind with nothing to undo. */
  method EditWhileRunning(a: StepDef, edited: StepDef) returns (r: Runner)
    requires !Equals(a, edited)
    ensures r.Valid() && |r.instances| == 1 && fresh(r) && fresh(r.instances[0])
    ensures r.instances[0].definition == edited && FieldsOf(r.instances[0]) == Initial
    ensures r.lastStepIdx == -1 && r.targetStepIdx == 0 && r.queue == []
    ensures r.phase.AwaitingStep? && r.phase.captured == -1 && r.phase.step != r.instances[0] && fresh(r.phase.step)
  {
    r := new Runner(Some([a]));
    ghost var old1, snap := r.instances, Snapshot(r.instances);
    var outcome, s, e, pushed, added := r.Update([edited]);
    assert IsDiff([a], [edited], 0, 0);
    DiffUnique([a], [edited], s, e, 0, 0);
    NothingToUndo(old1, Outdated(snap, 0, 1), -1, 0);
    assert r.instances == added;
  }
}
