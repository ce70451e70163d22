/**
 * The pipeline value the step runner consumes: `steps(...)` drops the missing arguments and splices each
 * composite argument's sub-steps in its place (one level only), `composedStep()(...)` bundles steps into
 * one composite, and `step(...)` resolves its two overloads. A step's `run` function is identified by its
 * code; the `view` observable is not modelled.
 */
module StepsPipeline {
  import opened Wrappers

  /** The text of a `run` function; two runs are the same step exactly when their texts agree. */
  type CodeId = string

  /** An `IStep`: a leaf has a `run`; a composite has `subSteps` and no `run`. */
  datatype Step = Step(name: Option<string>, run: Option<CodeId>, subSteps: Option<seq<Step>>)

  /** `IStepOptions`. */
  datatype StepOptions = StepOptions(name: Option<string>)

  /** The first argument of `step`: an options object or the run function itself. */
  datatype OptionsOrRun = Options(options: StepOptions) | Run(code: CodeId)

  /** The arguments that are not `undefined`, in order (`filter(s => s != undefined)`). */
  function Defined(args: seq<Option<Step>>): (r: seq<Step>)
    ensures |r| <= |args|
    ensures forall s :: s in r <==> Some(s) in args
    decreases |args|
  {
    if |args| == 0 then []
    else
      var rest := Defined(args[1..]);
      assert forall s :: Some(s) in args <==> Some(s) == args[0] || Some(s) in args[1..];
      if args[0].Some? then [args[0].value] + rest else rest
  }

  /** What one defined argument contributes (`s.subSteps ? s.subSteps : [s]`). */
  function Expand(s: Step): seq<Step>
  {
    if s.subSteps.Some? then s.subSteps.value else [s]
  }

  /** `flatMap(Expand)`. */
  function ExpandAll(ss: seq<Step>): seq<Step>
    decreases |ss|
  {
    if |ss| == 0 then [] else Expand(ss[0]) + ExpandAll(ss[1..])
  }

  /** `steps(step0, ..., step9)`, the arguments given as a list with `None` for `undefined`. */
  function Steps(args: seq<Option<Step>>): seq<Step>
  {
    ExpandAll(Defined(args))
  }

  /** The number of steps one argument stands for: none when missing, its sub-steps when composite, else one. */
  function Width(arg: Option<Step>): nat
  {
    match arg
    case None => 0
    case Some(s) => if s.subSteps.Some? then |s.subSteps.value| else 1
  }

  /** The sum of the widths of the arguments. */
  function TotalWidth(args: seq<Option<Step>>): nat
    decreases |args|
  {
    if |args| == 0 then 0 else TotalWidth(args[..|args| - 1]) + Width(args[|args| - 1])
  }

  /** `composedStep()(...)`: the defined arguments become the sub-steps; name and run stay empty. */
  function ComposedStep(args: seq<Option<Step>>): (r: Step)
    ensures r.subSteps == Some(Defined(args))
    ensures r.name.None? && r.run.None?
  {
    Step(None, None, Some(Defined(args)))
  }

  /**
   * `step(optionsOrRun, run?)`: when the first argument is the run function it is the run and the name is
   * undefined; otherwise the name comes from the options and the run is the second argument.
   */
  function MakeStep(optionsOrRun: OptionsOrRun, run: Option<CodeId>): (r: Step)
    ensures r.subSteps.None?
    ensures optionsOrRun.Run? ==> r.name.None? && r.run == Some(optionsOrRun.code)
    ensures optionsOrRun.Options? ==> r.name == optionsOrRun.options.name && r.run == run
  {
    match optionsOrRun
    case Run(code) => Step(None, Some(code), None)
    case Options(options) => Step(options.name, run, None)
  }

  lemma {:induction false} DefinedAppend(a: seq<Option<Step>>, b: seq<Option<Step>>)
    ensures Defined(a + b) == Defined(a) + Defined(b)
    decreases |a|
  {
    if |a| == 0 {
      assert a + b == b;
    } else {
      assert (a + b)[0] == a[0];
      assert (a + b)[1..] == a[1..] + b;
      DefinedAppend(a[1..], b);
    }
  }

  lemma {:induction false} ExpandAllAppend(a: seq<Step>, b: seq<Step>)
    ensures ExpandAll(a + b) == ExpandAll(a) + ExpandAll(b)
    decreases |a|
  {
    if |a| == 0 {
      assert a + b == b;
    } else {
      assert (a + b)[0] == a[0];
      assert (a + b)[1..] == a[1..] + b;
      ExpandAllAppend(a[1..], b);
    }
  }

  /** `steps` is compositional: the arguments are handled one after another and their results kept in order. */
  lemma StepsAppend(a: seq<Option<Step>>, b: seq<Option<Step>>)
    ensures Steps(a + b) == Steps(a) + Steps(b)
  {
    DefinedAppend(a, b);
    ExpandAllAppend(Defined(a), Defined(b));
  }

  /**
   * What a single argument contributes: nothing when it is missing, its sub-steps in place of it when it is
   * a composite, and itself otherwise. With `StepsAppend` this determines `steps` completely.
   */
  lemma StepsSingle(arg: Option<Step>)
    ensures arg.None? ==> Steps([arg]) == []
    ensures arg.Some? && arg.value.subSteps.Some? ==> Steps([arg]) == arg.value.subSteps.value
    ensures arg.Some? && arg.value.subSteps.None? ==> Steps([arg]) == [arg.value]
  {
    assert [arg][1..] == [];
    if arg.Some? {
      assert Defined([arg]) == [arg.value];
      assert [arg.value][1..] == [];
      assert ExpandAll([arg.value]) == Expand(arg.value) + ExpandAll([]);
    }
  }

  /** The number of steps is the sum over the defined arguments of the sub-step count, or one. */
  lemma {:induction false} StepsLength(args: seq<Option<Step>>)
    ensures |Steps(args)| == TotalWidth(args)
    decreases |args|
  {
    if |args| > 0 {
      var init := args[..|args| - 1];
      var last := args[|args| - 1];
      assert args == init + [last];
      StepsAppend(init, [last]);
      StepsSingle(last);
      StepsLength(init);
    }
  }

  /** Flattening goes one level deep: a composite nested in a composite comes out as it went in. */
  lemma NestedCompositeKept(inner: Step)
    requires inner.subSteps.Some?
    ensures Steps([Some(ComposedStep([Some(inner)]))]) == [inner]
  {
    var outer := ComposedStep([Some(inner)]);
    StepsSingle(Some(outer));
    assert [Some(inner)][1..] == [];
    assert Defined([Some(inner)]) == [inner];
  }

  /** Passing a composed step to `steps` gives back the defined steps it was composed of. */
  lemma ComposedStepFlattens(args: seq<Option<Step>>)
    ensures Steps([Some(ComposedStep(args))]) == Defined(args)
  {
    StepsSingle(Some(ComposedStep(args)));
  }

  /** A step made by `step(...)` is a leaf: `steps` keeps it as it is. */
  lemma MadeStepIsLeaf(optionsOrRun: OptionsOrRun, run: Option<CodeId>)
    ensures Steps([Some(MakeStep(optionsOrRun, run))]) == [MakeStep(optionsOrRun, run)]
  {
    StepsSingle(Some(MakeStep(optionsOrRun, run)));
  }
}
