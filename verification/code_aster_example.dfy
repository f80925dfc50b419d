/** `objective_func` of the Code_Aster example: rewrite the command file with
    the design vector, run `as_run` on the export file, log the diagnostic
    status, and return the displacement read from the result file. */
module CodeAsterExample {
  import opened Results
  import opened Text
  import opened Process
  import opened Workspaces
  import opened CommandFile
  import opened CodeAsterUtils

  const Simulator: string := "as_run"
  const Marker: string := "DIAGNOSTIC JOB :"

  /** `res.split(Marker)[1].split("\n")[0]`: the text after the first marker,
      cut at the next marker and then at the first newline. `None` where
      `objective_func` raises `IndexError`, that is when the marker is absent. */
  function DiagnosticStatus(output: string): (r: Option<string>)
    ensures r.None? <==> !Contains(output, Marker)
    ensures r.Some? ==> '\n' !in r.value
  {
    match IndexOf(output, Marker)
    case None => None
    case Some(i) =>
      var rest := output[i + |Marker|..];
      var field := match IndexOf(rest, Marker) case None => rest case Some(j) => rest[..j];
      Some(BeforeFirst(field, '\n'))
  }

  /** The status starts right after the first marker and runs up to the
      earlier of the next newline and the next marker, or to the end; it
      therefore contains neither. */
  lemma StatusFollowsFirstMarker(output: string) returns (i: nat)
    requires DiagnosticStatus(output).Some?
    ensures OccursAt(output, Marker, i)
    ensures forall j :: 0 <= j < i ==> !OccursAt(output, Marker, j)
    ensures var status := DiagnosticStatus(output).value;
      var rest := output[i + |Marker|..];
      && status <= rest
      && '\n' !in status && !Contains(status, Marker)
      && (|status| == |rest| || rest[|status|] == '\n' || OccursAt(rest, Marker, |status|))
  {
    i := IndexOf(output, Marker).value;
    var rest := output[i + |Marker|..];
    var status := DiagnosticStatus(output).value;
    match IndexOf(rest, Marker)
    case None => StatusWithoutSecondMarker(rest, Marker, status);
    case Some(j) => StatusBeforeSecondMarker(rest, Marker, j, status);
  }

  /** With no further marker the status is the text up to the first
      newline. */
  lemma StatusWithoutSecondMarker(rest: string, m: string, status: string)
    requires |m| > 0 && !Contains(rest, m) && status == BeforeFirst(rest, '\n')
    ensures status <= rest && !Contains(status, m)
    ensures |status| == |rest| || rest[|status|] == '\n'
  {
    NoOccurrenceInPrefix(status, rest, m);
  }

  /** With a further marker at `j` the status is the text up to the earlier
      of that marker and the first newline. */
  lemma StatusBeforeSecondMarker(rest: string, m: string, j: nat, status: string)
    requires |m| > 0 && OccursAt(rest, m, j) && forall q :: 0 <= q < j ==> !OccursAt(rest, m, q)
    requires status == BeforeFirst(rest[..j], '\n')
    ensures status <= rest && !Contains(status, m)
    ensures |status| == |rest| || rest[|status|] == '\n' || OccursAt(rest, m, |status|)
  {
    var field := rest[..j];
    NoOccurrenceBefore(rest, m, j);
    NoOccurrenceInPrefix(status, field, m);
    if |status| == |field| {
      assert |status| == j;
    } else {
      assert rest[|status|] == field[|status|];
    }
  }

  /** What the simulator oracle reports for one launch, and the workspace the
      run leaves behind. */
  datatype SimRun = SimRun(outcome: Outcome, ws: Workspace)

  datatype AsterError =
    | TooFewVariables          // `x[2]` out of range
    | PreFailed(pre: PreError) // raised by `pre_process`
    | LaunchFailed             // `Popen` could not start `as_run`
    | NoDiagnostic             // the output lacks the marker: `IndexError`
    | PostFailed(post: PostError)  // raised by `post_process`

  /** One evaluation: the workspace afterwards, the side effects in order,
      the diagnostic status printed, and the value returned or error raised. */
  datatype AsterEval = AsterEval(ws: Workspace, events: seq<Event>, status: Option<string>,
                                 result: Result<real, AsterError>)

  /** `objective_func(x)` with `baseDir` the workspace path, `str` and `parse`
      Python's float formatting and `float()`, and `sim` the Code_Aster run. */
  function Evaluate(x: seq<real>, baseDir: string, ws: Workspace, str: real -> string,
                    sim: (Call, Workspace) -> SimRun, parse: string -> Option<real>): (r: AsterEval)
    ensures |x| < 3 ==> r == AsterEval(ws, [], None, Err(TooFewVariables))
    ensures r.result.Ok? ==> r.status.Some?
  {
    if |x| < 3 then AsterEval(ws, [], None, Err(TooFewVariables))
    else AfterPreProcess(PreProcess(ws, x[0], x[1], x[2], str), baseDir, sim, parse)
  }

  /** The rest of the evaluation once `pre_process` has returned or raised. */
  function AfterPreProcess(pre: Step<string, PreError>, baseDir: string,
                           sim: (Call, Workspace) -> SimRun, parse: string -> Option<real>): (r: AsterEval)
    ensures pre.out.Err? ==> r == AsterEval(pre.ws, pre.events, None, Err(PreFailed(pre.out.error)))
    ensures r.result.Ok? ==> r.status.Some?
  {
    match pre.out
    case Err(e) => AsterEval(pre.ws, pre.events, None, Err(PreFailed(e)))
    case Ok(exportFile) =>
      var call := Call([Simulator, exportFile], baseDir);
      AfterRun(pre.events + [Invoked(call)], pre.ws, sim(call, pre.ws), parse)
  }

  /** The rest of the evaluation once `as_run` has been launched: `events` is
      the trace so far and `before` the workspace handed to the simulator. */
  function AfterRun(events: seq<Event>, before: Workspace, run: SimRun,
                    parse: string -> Option<real>): (r: AsterEval)
    ensures r.result.Ok? ==> r.status.Some?
  {
    match run.outcome
    case NotLaunched => AsterEval(before, events, None, Err(LaunchFailed))
    case Exited(_, output) =>
      match DiagnosticStatus(output)
      case None => AsterEval(run.ws, events, None, Err(NoDiagnostic))
      case Some(status) =>
        var post := PostProcess(run.ws, parse);
        var result := match post.out case Ok(y) => Ok(y) case Err(e) => Err(PostFailed(e));
        AsterEval(post.ws, events + post.events, Some(status), result)
  }

  /** A trace of at most one file event launches nothing. */
  lemma NoInvocation(events: seq<Event>)
    requires |events| <= 1 && forall e :: e in events ==> !e.Invoked?
    ensures Invocations(events) == []
  {
    if |events| == 1 {
      assert events[0] in events;
      assert events[1..] == [];
    }
  }

  /** Reading the result launches nothing further. */
  lemma AfterRunLaunchesNothing(events: seq<Event>, before: Workspace, run: SimRun,
                                parse: string -> Option<real>)
    ensures Invocations(AfterRun(events, before, run, parse).events) == Invocations(events)
  {
    if run.outcome.Exited? && DiagnosticStatus(run.outcome.stdout).Some? {
      var post := PostProcess(run.ws, parse);
      NoInvocation(post.events);
      InvocationsAppend(events, post.events);
    }
  }

  /** The simulator is launched at most once: not at all when `x` is too
      short or `pre_process` raises, otherwise exactly once, with argv
      `['as_run', export_file]` in `baseDir`. */
  lemma SimulatorCalledOnce(x: seq<real>, baseDir: string, ws: Workspace, str: real -> string,
                            sim: (Call, Workspace) -> SimRun, parse: string -> Option<real>)
    ensures var r := Evaluate(x, baseDir, ws, str, sim, parse);
      if |x| < 3 || PreProcess(ws, x[0], x[1], x[2], str).out.Err? then
        Invocations(r.events) == []
      else
        Invocations(r.events) == [Call([Simulator, PreProcess(ws, x[0], x[1], x[2], str).out.value], baseDir)]
  {
    if |x| >= 3 {
      var pre := PreProcess(ws, x[0], x[1], x[2], str);
      NoInvocation(pre.events);
      if pre.out.Ok? {
        var call := Call([Simulator, pre.out.value], baseDir);
        AfterRunLaunchesNothing(pre.events + [Invoked(call)], pre.ws, sim(call, pre.ws), parse);
        InvocationsAppend(pre.events, [Invoked(call)]);
        assert Invocations([Invoked(call)]) == [call];
      }
    }
  }

  /** A successful evaluation rewrites the last listed `.comm` file with
      `LONG` from `x[0]`, `EP` from `x[1]` and `LARG` from `x[2]`, then runs
      `as_run` on the last listed `.export` name in `baseDir`, then removes the result file, in that
      order and with no other side effect. */
  lemma SuccessTrace(x: seq<real>, baseDir: string, ws: Workspace, str: real -> string,
                     sim: (Call, Workspace) -> SimRun, parse: string -> Option<real>)
    returns (comm: string, exportFile: string, resu: string)
    ensures Evaluate(x, baseDir, ws, str, sim, parse).result.Ok? ==>
      && |x| >= 3 && comm in ws.files && EndsWith(comm, CommSuffix)
      && LastWithSuffix(ws.listing, CommSuffix) == Some(comm)
      && LastWithSuffix(ws.listing, ExportSuffix) == Some(exportFile)
      && EndsWith(exportFile, ExportSuffix) && EndsWith(resu, ResultSuffix)
      && Evaluate(x, baseDir, ws, str, sim, parse).events ==
           [Rewrote(comm, Inject(ws.files[comm], str(x[0]), str(x[1]), str(x[2]))),
            Invoked(Call([Simulator, exportFile], baseDir)),
            Removed(resu)]
  {
    comm, exportFile, resu := "", "", "";
    if Evaluate(x, baseDir, ws, str, sim, parse).result.Ok? {
      var pre := PreProcess(ws, x[0], x[1], x[2], str);
      assert Evaluate(x, baseDir, ws, str, sim, parse) == AfterPreProcess(pre, baseDir, sim, parse);
      assert pre.out.Ok?;
      comm := PreProcessOkTrace(ws, x[0], x[1], x[2], str);
      exportFile := pre.out.value;
      resu := AfterPreProcessOkTrace(pre, baseDir, sim, parse);
    }
  }

  /** Once `pre_process` has returned, a successful evaluation launches the
      simulator on the export file and then removes one `.resu` file. */
  lemma AfterPreProcessOkTrace(pre: Step<string, PreError>, baseDir: string,
                               sim: (Call, Workspace) -> SimRun, parse: string -> Option<real>)
    returns (resu: string)
    requires AfterPreProcess(pre, baseDir, sim, parse).result.Ok?
    ensures pre.out.Ok? && EndsWith(resu, ResultSuffix)
    ensures AfterPreProcess(pre, baseDir, sim, parse).events ==
      pre.events + [Invoked(Call([Simulator, pre.out.value], baseDir)), Removed(resu)]
  {
    var call := Call([Simulator, pre.out.value], baseDir);
    resu := AfterRunOkTrace(pre.events + [Invoked(call)], pre.ws, sim(call, pre.ws), parse);
  }

  /** A run that returns a value appended exactly one removal of a `.resu`
      file to the trace. */
  lemma AfterRunOkTrace(events: seq<Event>, before: Workspace, run: SimRun, parse: string -> Option<real>)
    returns (resu: string)
    requires AfterRun(events, before, run, parse).result.Ok?
    ensures EndsWith(resu, ResultSuffix)
    ensures AfterRun(events, before, run, parse).events == events + [Removed(resu)]
  {
    var post := PostProcess(run.ws, parse);
    resu := post.events[0].name;
  }

  /** Output without the marker raises after the command file was rewritten
      and the simulator ran, and before the result file is read or removed:
      the workspace is the one the simulator left. */
  lemma MissingMarker(x: seq<real>, baseDir: string, ws: Workspace, str: real -> string,
                      sim: (Call, Workspace) -> SimRun,
                      parse: string -> Option<real>, code: int, output: string)
    requires |x| >= 3 && PreProcess(ws, x[0], x[1], x[2], str).out.Ok?
    requires var pre := PreProcess(ws, x[0], x[1], x[2], str);
      sim(Call([Simulator, pre.out.value], baseDir), pre.ws).outcome == Exited(code, output)
    requires !Contains(output, Marker)
    ensures var pre := PreProcess(ws, x[0], x[1], x[2], str);
      var call := Call([Simulator, pre.out.value], baseDir);
      var r := Evaluate(x, baseDir, ws, str, sim, parse);
      && r.result == Err(NoDiagnostic)
      && r.ws == sim(call, pre.ws).ws
      && r.events == pre.events + [Invoked(call)]
      && |pre.events| == 1 && pre.events[0].Rewrote?
  {
  }

  /** Once the marker is found the evaluation returns exactly what
      `post_process` returns on the workspace the simulator left. */
  lemma ReturnsPostProcess(x: seq<real>, baseDir: string, ws: Workspace, str: real -> string,
                           sim: (Call, Workspace) -> SimRun,
                           parse: string -> Option<real>, code: int, output: string)
    requires |x| >= 3 && PreProcess(ws, x[0], x[1], x[2], str).out.Ok?
    requires var pre := PreProcess(ws, x[0], x[1], x[2], str);
      sim(Call([Simulator, pre.out.value], baseDir), pre.ws).outcome == Exited(code, output)
    requires Contains(output, Marker)
    ensures var pre := PreProcess(ws, x[0], x[1], x[2], str);
      var post := PostProcess(sim(Call([Simulator, pre.out.value], baseDir), pre.ws).ws, parse);
      var r := Evaluate(x, baseDir, ws, str, sim, parse);
      && r.ws == post.ws
      && r.status == DiagnosticStatus(output)
      && (forall y :: r.result == Ok(y) <==> post.out == Ok(y))
      && (forall e :: r.result == Err(PostFailed(e)) <==> post.out == Err(e))
  {
  }

  /** The evaluation returns a number: once `pre_process` has returned, the
      run's output carries the marker, and the workspace the run left has a
      readable last `.resu` entry whose line 198 ends in a token that
      converts, the result is that token's value and the file is gone. */
  lemma ReturnsResultValue(x: seq<real>, baseDir: string, ws: Workspace, str: real -> string,
                           sim: (Call, Workspace) -> SimRun, parse: string -> Option<real>,
                           code: int, output: string, name: string, y: string, v: real)
    requires |x| >= 3 && PreProcess(ws, x[0], x[1], x[2], str).out.Ok?
    requires var pre := PreProcess(ws, x[0], x[1], x[2], str);
      sim(Call([Simulator, pre.out.value], baseDir), pre.ws).outcome == Exited(code, output)
    requires Contains(output, Marker)
    requires var pre := PreProcess(ws, x[0], x[1], x[2], str);
      var after := sim(Call([Simulator, pre.out.value], baseDir), pre.ws).ws;
      && LastWithSuffix(after.listing, ResultSuffix) == Some(name) && name in after.files
      && |after.files[name]| > ResultLine && LastToken(after.files[name][ResultLine]) == Some(y)
    requires parse(y) == Some(v)
    ensures var r := Evaluate(x, baseDir, ws, str, sim, parse);
      r.result == Ok(v) && name !in r.ws.listing && name !in r.ws.files
  {
    var pre := PreProcess(ws, x[0], x[1], x[2], str);
    var after := sim(Call([Simulator, pre.out.value], baseDir), pre.ws).ws;
    ReturnsPostProcess(x, baseDir, ws, str, sim, parse, code, output);
    PostProcessReturnsToken(after, parse, name, y, v);
  }

  /** The run with its exit status replaced by `code`. */
  function WithExitCode(run: SimRun, code: int): SimRun {
    match run.outcome
    case Exited(_, output) => run.(outcome := Exited(code, output))
    case NotLaunched => run
  }

  /** The simulator with its exit status replaced by `code`. */
  function Recoded(sim: (Call, Workspace) -> SimRun, code: int): (Call, Workspace) -> SimRun {
    (c: Call, w: Workspace) => WithExitCode(sim(c, w), code)
  }

  /** The exit status of `as_run` is never inspected. */
  lemma ExitCodeIgnored(x: seq<real>, baseDir: string, ws: Workspace, str: real -> string,
                        sim: (Call, Workspace) -> SimRun, parse: string -> Option<real>, code: int)
    ensures Evaluate(x, baseDir, ws, str, sim, parse)
      == Evaluate(x, baseDir, ws, str, Recoded(sim, code), parse)
  {
    if |x| >= 3 {
      var pre := PreProcess(ws, x[0], x[1], x[2], str);
      assert Evaluate(x, baseDir, ws, str, sim, parse) == AfterPreProcess(pre, baseDir, sim, parse);
      assert Evaluate(x, baseDir, ws, str, Recoded(sim, code), parse)
        == AfterPreProcess(pre, baseDir, Recoded(sim, code), parse);
      AfterPreProcessIgnoresExitCode(pre, baseDir, sim, parse, code);
    }
  }

  /** Once `pre_process` has returned, the rest of the evaluation does not
      depend on the exit status of `as_run`. */
  lemma AfterPreProcessIgnoresExitCode(pre: Step<string, PreError>, baseDir: string,
                                       sim: (Call, Workspace) -> SimRun,
                                       parse: string -> Option<real>, code: int)
    ensures AfterPreProcess(pre, baseDir, sim, parse)
      == AfterPreProcess(pre, baseDir, Recoded(sim, code), parse)
  {
    if pre.out.Ok? {
      var call := Call([Simulator, pre.out.value], baseDir);
      assert Recoded(sim, code)(call, pre.ws) == WithExitCode(sim(call, pre.ws), code);
    }
  }
}
