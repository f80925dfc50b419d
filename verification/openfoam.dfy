/**
  The OpenFOAM cylinder driver: `objective_func(x)` runs four executables
  found in the case directory, each with the design vector as its command
  line, and returns the number the last one prints.

  A process is reached through an oracle `run(history, call)`, where
  `history` lists the calls launched before; this lets a later stage see the
  effects earlier stages left on disk without modelling the disk.
*/
module OpenFoam {
  import opened Results
  import opened Text
  import opened Process

  const Preprocess := "preprocess"
  const SetBoundaryConditions := "setBCs"
  const Simulate := "simCFD"
  const Postprocess := "postprocess"

  /** The stages in the order the driver runs them. */
  const Stages: seq<string> := [Preprocess, SetBoundaryConditions, Simulate, Postprocess]

  /** `[str(el) for el in x]`. */
  function Format(x: seq<real>, str: real -> string): (r: seq<string>)
    ensures |r| == |x|
    ensures forall j :: 0 <= j < |x| ==> r[j] == str(x[j])
  {
    if |x| == 0 then [] else [str(x[0])] + Format(x[1..], str)
  }

  /** The call for one stage: the executable `baseDir + "/" + stage` with the
      formatted design vector as its arguments, run in `baseDir`. */
  function StageCall(baseDir: string, stage: string, x: seq<real>, str: real -> string): Call {
    Call([baseDir + "/" + stage] + Format(x, str), baseDir)
  }

  /** The four calls of one evaluation, in order. */
  function Plan(baseDir: string, x: seq<real>, str: real -> string): (p: seq<Call>)
    ensures |p| == |Stages|
  {
    seq(|Stages|, k requires 0 <= k < |Stages| => StageCall(baseDir, Stages[k], x, str))
  }

  /** Why an evaluation returns no value. */
  datatype FoamError =
    | LaunchFailed(stage: string)  // the executable could not be started
    | StageFailed(code: int)       // `check_output` saw a non-zero exit
    | Unparseable(text: string)    // `float()` rejected the stripped output

  /** The calls launched, in order, and the value returned or error raised. */
  datatype FoamEval = FoamEval(calls: seq<Call>, result: Result<real, FoamError>)

  /** Stage `k` is launched when every stage before it was. */
  ghost predicate LaunchedBefore(plan: seq<Call>, run: (seq<Call>, Call) -> Outcome, k: nat)
    requires k <= |plan|
  {
    forall j :: 0 <= j < k ==> run(plan[..j], plan[j]).Exited?
  }

  /** The evaluation from stage `k` on, once stages `0..k` were launched.
      The first three stages go through `subprocess.call`, whose exit status
      is discarded; only a failure to launch stops the driver. */
  function RunFrom(k: nat, baseDir: string, x: seq<real>, str: real -> string,
                   run: (seq<Call>, Call) -> Outcome, parse: string -> Option<real>): (r: FoamEval)
    requires k < |Stages|
    decreases |Stages| - k
    ensures var plan := Plan(baseDir, x, str);
      && k < |r.calls| <= |Stages|
      && r.calls == plan[..|r.calls|]
      && (forall j :: k <= j < |r.calls| - 1 ==> run(plan[..j], plan[j]).Exited?)
      && (|r.calls| < |Stages| ==>
            run(plan[..|r.calls| - 1], plan[|r.calls| - 1]).NotLaunched?
            && r.result == Err(LaunchFailed(Stages[|r.calls| - 1])))
  {
    var plan := Plan(baseDir, x, str);
    var call := plan[k];
    if k == |Stages| - 1 then
      FoamEval(plan, LastStage(run(plan[..k], call), parse))
    else
      match run(plan[..k], call)
      case NotLaunched => FoamEval(plan[..k + 1], Err(LaunchFailed(Stages[k])))
      case Exited(_, _) => RunFrom(k + 1, baseDir, x, str, run, parse)
  }

  /** `float(check_output(...).decode().strip())` on the outcome of the last
      stage. */
  function LastStage(o: Outcome, parse: string -> Option<real>): (r: Result<real, FoamError>)
    ensures r.Ok? <==> o.Exited? && o.code == 0 && parse(Strip(o.stdout)).Some?
    ensures r.Ok? ==> r.value == parse(Strip(o.stdout)).value
    ensures o.Exited? && o.code != 0 ==> r == Err(StageFailed(o.code))
    ensures r.Err? && r.error.LaunchFailed? <==> o.NotLaunched?
    ensures o.NotLaunched? ==> r == Err(LaunchFailed(Postprocess))
  {
    match o
    case NotLaunched => Err(LaunchFailed(Postprocess))
    case Exited(code, stdout) =>
      if code != 0 then Err(StageFailed(code))
      else
        var text := Strip(stdout);
        match parse(text)
        case None => Err(Unparseable(text))
        case Some(v) => Ok(v)
  }

  /** `objective_func(x)`: `baseDir` is the case directory, `str` and `parse`
      are Python's float formatting and `float()`, `run` the processes.
      The stages run in order; every call but the last was launched, a
      value needs all four, and a launch failure names the stage of the last
      call, which is the one that could not be started. */
  function Evaluate(x: seq<real>, baseDir: string, str: real -> string,
                    run: (seq<Call>, Call) -> Outcome, parse: string -> Option<real>): (r: FoamEval)
    ensures var plan := Plan(baseDir, x, str);
      && 0 < |r.calls| <= |Stages|
      && r.calls == plan[..|r.calls|]
      && (forall j :: 0 <= j < |r.calls| - 1 ==> run(plan[..j], plan[j]).Exited?)
      && (r.result.Ok? ==> r.calls == plan)
      && (r.result.Err? && r.result.error.LaunchFailed? <==>
            run(plan[..|r.calls| - 1], plan[|r.calls| - 1]).NotLaunched?)
      && (r.result.Err? && r.result.error.LaunchFailed? ==>
            r.result.error.stage == Stages[|r.calls| - 1])
  {
    var r := RunFrom(0, baseDir, x, str, run, parse);
    if |r.calls| == |Stages| then
      LastStageReached(0, baseDir, x, str, run, parse);
      r
    else r
  }

  /** Every stage's argv is its executable path followed by `str(el)` for
      each element of `x` in order, and it runs in `baseDir`. */
  lemma PlanShape(baseDir: string, x: seq<real>, str: real -> string, k: nat)
    requires k < |Stages|
    ensures var c := Plan(baseDir, x, str)[k];
      && c.cwd == baseDir
      && |c.argv| == |x| + 1
      && c.argv[0] == baseDir + "/" + Stages[k]
      && (forall j :: 0 <= j < |x| ==> c.argv[j + 1] == str(x[j]))
  {
  }

  /** The calls made are a prefix of the plan, in stage order; all four run
      exactly when the first three could be launched, whatever their exit
      status, and otherwise the driver stops at the first that could not. */
  lemma StageOrder(x: seq<real>, baseDir: string, str: real -> string,
                   run: (seq<Call>, Call) -> Outcome, parse: string -> Option<real>)
    ensures var r := Evaluate(x, baseDir, str, run, parse);
      var plan := Plan(baseDir, x, str);
      && r.calls <= plan
      && (r.calls == plan <==> LaunchedBefore(plan, run, |Stages| - 1))
  {
  }

  /** The result is a value exactly when the last stage was reached, exited
      with status 0, and printed a number once stripped of surrounding
      whitespace; that number is the result. */
  lemma ResultIsStrippedOutput(x: seq<real>, baseDir: string, str: real -> string,
                               run: (seq<Call>, Call) -> Outcome, parse: string -> Option<real>)
    ensures var r := Evaluate(x, baseDir, str, run, parse);
      var plan := Plan(baseDir, x, str);
      var last := run(plan[..|Stages| - 1], plan[|Stages| - 1]);
      && (r.result.Ok? <==>
            LaunchedBefore(plan, run, |Stages| - 1) && last.Exited? && last.code == 0
            && parse(Strip(last.stdout)).Some?)
      && (r.result.Ok? ==> r.result.value == parse(Strip(last.stdout)).value)
  {
    StageOrder(x, baseDir, str, run, parse);
    var r := Evaluate(x, baseDir, str, run, parse);
    if |r.calls| == |Stages| {
      LastStageReached(0, baseDir, x, str, run, parse);
    }
  }

  /** When all four calls were made the result is the last stage's. */
  lemma {:induction false} LastStageReached(k: nat, baseDir: string, x: seq<real>, str: real -> string,
                                            run: (seq<Call>, Call) -> Outcome, parse: string -> Option<real>)
    requires k < |Stages|
    requires |RunFrom(k, baseDir, x, str, run, parse).calls| == |Stages|
    decreases |Stages| - k
    ensures var plan := Plan(baseDir, x, str);
      RunFrom(k, baseDir, x, str, run, parse).result
        == LastStage(run(plan[..|Stages| - 1], plan[|Stages| - 1]), parse)
  {
    var plan := Plan(baseDir, x, str);
    if k < |Stages| - 1 {
      match run(plan[..k], plan[k])
      case NotLaunched =>
      case Exited(_, _) => LastStageReached(k + 1, baseDir, x, str, run, parse);
    }
  }

  /** A non-zero exit from `postprocess` raises, so nothing is returned. */
  lemma LastStageFailure(x: seq<real>, baseDir: string, str: real -> string,
                         run: (seq<Call>, Call) -> Outcome,
                         parse: string -> Option<real>, code: int, out: string)
    requires LaunchedBefore(Plan(baseDir, x, str), run, |Stages| - 1)
    requires var plan := Plan(baseDir, x, str);
      run(plan[..|Stages| - 1], plan[|Stages| - 1]) == Exited(code, out)
    requires code != 0
    ensures Evaluate(x, baseDir, str, run, parse).result == Err(StageFailed(code))
  {
    StageOrder(x, baseDir, str, run, parse);
    LastStageReached(0, baseDir, x, str, run, parse);
  }

  /** The outcome with its exit status replaced by `code`. */
  function Recode(o: Outcome, code: int): Outcome {
    match o
    case Exited(_, stdout) => Exited(code, stdout)
    case NotLaunched => NotLaunched
  }

  /** The processes, with the exit status of the first three stages
      replaced by `code`. */
  function RecodeEarly(run: (seq<Call>, Call) -> Outcome, code: int): (seq<Call>, Call) -> Outcome {
    (h: seq<Call>, c: Call) => if |h| < |Stages| - 1 then Recode(run(h, c), code) else run(h, c)
  }

  /** The exit status of `preprocess`, `setBCs` and `simCFD` never affects
      the calls made or the result. */
  lemma {:induction false} EarlyExitCodesIgnored(k: nat, baseDir: string, x: seq<real>, str: real -> string,
                                                 run: (seq<Call>, Call) -> Outcome,
                                                 parse: string -> Option<real>, code: int)
    requires k < |Stages|
    decreases |Stages| - k
    ensures RunFrom(k, baseDir, x, str, run, parse)
      == RunFrom(k, baseDir, x, str, RecodeEarly(run, code), parse)
  {
    var plan := Plan(baseDir, x, str);
    var h := plan[..k];
    assert |h| == k;
    if k < |Stages| - 1 {
      assert RecodeEarly(run, code)(h, plan[k]) == Recode(run(h, plan[k]), code);
      if run(h, plan[k]).Exited? {
        EarlyExitCodesIgnored(k + 1, baseDir, x, str, run, parse, code);
      }
    } else {
      assert RecodeEarly(run, code)(h, plan[k]) == run(h, plan[k]);
    }
  }
}
