/**
 * The judging pipeline. `judge_submission` marks a submission as judging,
 * gives up when Docker is unavailable, compiles the solution, runs the test
 * cases in order until the first one that is not accepted, stores the
 * results with the maxima of time and memory, and on acceptance updates the
 * user's solved problems and the problem's accepted counter.
 *
 * The sandbox is an oracle: what the compiler and each `docker run` report
 * (exit codes, whether an output file appeared, its text, the measured time
 * and memory, the special judge's verdict) is given as data, one `CaseRun`
 * per test-case position. A failure of file I/O or of the Docker invocation
 * itself is a flag in that record.
 */
module JudgeService {
  import opened Wrappers
  import opened Text
  import opened JsonValue
  import opened SubmissionModel
  import opened ProblemModel
  import opened UserModel
  import opened Store

  const DockerUnavailableMessage: string := "Docker is not available. Judge service is disabled."
  const BinaryMissingMessage: string := "Compilation succeeded but binary not found"
  const OutputMismatchMessage: string := "Output doesn't match expected output"

  /** `str(e)` for the `AttributeError` of `problem.get(...)` when the problem was not found. */
  const MissingProblemMessage: string := "'NoneType' object has no attribute 'get'"

  /**
   * `str(e)` for the `UnboundLocalError` that escapes `_run_test_case` when its
   * exception handler reads `time_used` before the measurement assigned it
   * (Python 3.11 wording).
   */
  const UnboundTimeUsedMessage: string := "cannot access local variable 'time_used' where it is not associated with a value"

  /** Stored program output is cut to this many characters, then marked with "...". */
  const OutputLimit: nat := 100

  // ---------------------------------------------------------------- status writes

  /**
   * `_update_submission_status`: sets the status, and the error message only
   * when one is given and non-empty; nothing else changes.
   */
  function WithStatus(s: Submission, status: JudgeStatus, message: string): (r: Submission)
    ensures r.status == status
    ensures message != "" ==> r.errorMessage == Some(message)
    ensures message == "" ==> r.errorMessage == s.errorMessage
    ensures r == s.(status := r.status, errorMessage := r.errorMessage)
  {
    if message != "" then s.(status := status, errorMessage := Some(message))
    else s.(status := status)
  }

  // ---------------------------------------------------------------- compilation

  /** What the compile step of the sandbox reported, or the exception it raised. */
  datatype CompileRun =
    | Ran(exitCode: int, stderr: string, binaryExists: bool)
    | Raised(message: string)

  datatype CompileResult = Compiled | CompileFailed(error: string)

  /**
   * `_compile_code`: success exactly when the compiler exits with 0 and the
   * `solution` binary exists; otherwise the error is the compiler's stderr,
   * the missing-binary message, or the text of the exception.
   */
  function CompileCode(run: CompileRun): (r: CompileResult)
    ensures r.Compiled? <==> run.Ran? && run.exitCode == 0 && run.binaryExists
    ensures run.Ran? && run.exitCode != 0 ==> r == CompileFailed(run.stderr)
    ensures run.Ran? && run.exitCode == 0 && !run.binaryExists ==> r == CompileFailed(BinaryMissingMessage)
    ensures run.Raised? ==> r == CompileFailed(run.message)
  {
    match run
    case Raised(m) => CompileFailed(m)
    case Ran(code, err, binary) =>
      if code != 0 then CompileFailed(err)
      else if binary then Compiled
      else CompileFailed(BinaryMissingMessage)
  }

  // ---------------------------------------------------------------- one test case

  /** What the sandbox reported for one test case. */
  datatype CaseRun = CaseRun(
    ioFault: bool,              // an exception from file I/O or a Docker invocation before the output is read
    checkerCompileExit: int,    // exit code of compiling the special judge (when it is compiled)
    exitCode: int,              // exit code of the solution run
    stderr: string,
    outputProduced: bool,       // whether output.txt exists afterwards
    output: string,             // its contents
    timeUsed: nat,              // ms, from the time report (0 when absent)
    memoryUsed: nat,            // KB, from the time report (0 when absent)
    checkerBinary: bool,        // whether the special_judge binary exists
    checkerFault: Option<string>, // the exception raised by running the special judge, if any
    checkerExit: int,
    checkerStdout: string,
    checkerStderr: string)

  /** A test case either yields a result, or raises an exception that escapes the whole judging run. */
  datatype CaseOutcome = Escaped | Finished(result: TestCaseResult)

  /** `a[:100] + "..." if len(a) > 100 else a`. */
  function Truncate(s: string): (r: string)
    ensures |r| <= OutputLimit + 3
    ensures |s| <= OutputLimit ==> r == s
    ensures |s| > OutputLimit ==> |r| == OutputLimit + 3 && r[..OutputLimit] == s[..OutputLimit] && r[OutputLimit..] == "..."
  {
    if |s| > OutputLimit then s[..OutputLimit] + "..." else s
  }

  /** Truncating stored output a second time changes nothing. */
  lemma {:induction false} TruncateIdempotent(s: string)
    ensures Truncate(Truncate(s)) == Truncate(s)
  {
    if |s| > OutputLimit {
      var r := Truncate(s);
      assert r == r[..OutputLimit] + r[OutputLimit..];
    }
  }

  /** The special judge is compiled (again, for every test case) when the flag is set and its code is non-empty. */
  predicate CompilesChecker(hasSpj: bool, spjCode: Option<string>) {
    hasSpj && spjCode.Some? && spjCode.value != ""
  }

  /**
   * `_run_test_case`: the verdict for one test case. An exception before the
   * measurement (I/O failure, failed special-judge compile with `check=True`,
   * no output file, whose branch reads `memory_used` before it is assigned)
   * reaches a handler that itself reads the unassigned `time_used`, so it
   * escapes. Otherwise the priority is: time limit (strictly over), then a
   * non-zero exit code, then the checker: the special judge's exit code when
   * the flag is set and its binary exists, else the comparison of stripped
   * expected and actual output.
   */
  function RunTestCase(tc: TestCase, caseId: string, timeLimit: int, hasSpj: bool, spjCode: Option<string>, run: CaseRun): (r: CaseOutcome)
    ensures r.Escaped? <==> run.ioFault || (CompilesChecker(hasSpj, spjCode) && run.checkerCompileExit != 0) || !run.outputProduced
    ensures r.Finished? ==> r.result.testCaseId == caseId && r.result.timeUsed == run.timeUsed && r.result.memoryUsed == run.memoryUsed
    ensures r.Finished? ==> r.result.output.Some? && |r.result.output.value| <= OutputLimit + 3
    ensures r.Finished? ==> r.result.status != MemoryLimitExceeded && IsFinal(r.result.status) && r.result.status != CompilationError
    ensures r.Finished? ==> (r.result.status == TimeLimitExceeded <==> run.timeUsed > timeLimit)
    ensures r.Finished? ==> (r.result.status == RuntimeError <==> run.timeUsed <= timeLimit && run.exitCode != 0)
    ensures r.Finished? && run.timeUsed > timeLimit ==>
      r.result.errorMessage == Some("Time limit exceeded: " + NatToString(run.timeUsed) + "ms > " + IntToString(timeLimit) + "ms")
    ensures r.Finished? && r.result.status == RuntimeError ==> r.result.errorMessage == Some(run.stderr)
    ensures r.Finished? && run.timeUsed <= timeLimit && run.exitCode == 0 && !(hasSpj && run.checkerBinary) ==>
      && (r.result.status == Accepted <==> Strip(tc.output) == Strip(run.output))
      && (r.result.status == WrongAnswer <==> Strip(tc.output) != Strip(run.output))
      && r.result.output == Some(Truncate(Strip(run.output)))
    ensures r.Finished? && run.timeUsed <= timeLimit && run.exitCode == 0 && hasSpj && run.checkerBinary ==>
      && (run.checkerFault.Some? ==> r.result.status == SystemError && r.result.errorMessage == run.checkerFault && r.result.output == Some(""))
      && (run.checkerFault.None? ==> (r.result.status == Accepted <==> run.checkerExit == 0))
      && (run.checkerFault.None? && run.checkerExit != 0 ==>
            r.result.status == WrongAnswer &&
            r.result.errorMessage == Some(if run.checkerStdout != "" then run.checkerStdout else run.checkerStderr))
    ensures r.Finished? && r.result.status == Accepted ==> r.result.errorMessage.None?
  {
    if run.ioFault || (CompilesChecker(hasSpj, spjCode) && run.checkerCompileExit != 0) || !run.outputProduced then
      Escaped
    else
      var t := run.timeUsed;
      var m := run.memoryUsed;
      var shown := Truncate(run.output);
      if t > timeLimit then
        Finished(TestCaseResult(caseId, TimeLimitExceeded, t, m,
          Some("Time limit exceeded: " + NatToString(t) + "ms > " + IntToString(timeLimit) + "ms"), Some(shown)))
      else if run.exitCode != 0 then
        Finished(TestCaseResult(caseId, RuntimeError, t, m, Some(run.stderr), Some(shown)))
      else if hasSpj && run.checkerBinary then
        match run.checkerFault
        case Some(e) => Finished(TestCaseResult(caseId, SystemError, t, m, Some(e), Some("")))
        case None =>
          if run.checkerExit == 0 then
            Finished(TestCaseResult(caseId, Accepted, t, m, None, Some(shown)))
          else
            var msg := if run.checkerStdout != "" then run.checkerStdout else run.checkerStderr;
            Finished(TestCaseResult(caseId, WrongAnswer, t, m, Some(msg), Some(shown)))
      else
        var expected := Strip(tc.output);
        var actual := Strip(run.output);
        if expected == actual then
          Finished(TestCaseResult(caseId, Accepted, t, m, None, Some(Truncate(actual))))
        else
          Finished(TestCaseResult(caseId, WrongAnswer, t, m, Some(OutputMismatchMessage), Some(Truncate(actual))))
  }

  // ---------------------------------------------------------------- the test-case loop

  /** The id a test case is judged under: its stored `id`, else `tc<position + 1>`. */
  function CaseId(tc: TestCase, i: nat): string {
    match tc.id
    case Some(x) => x
    case None => "tc" + NatToString(i + 1)
  }

  /** The problem settings the judge reads, with the record's defaults as fallbacks. */
  datatype JudgeSetup = JudgeSetup(timeLimit: int, hasSpj: bool, spjCode: Option<string>)

  function SetupOf(p: Problem): JudgeSetup {
    JudgeSetup(p.timeLimit, p.hasSpecialJudge, p.specialJudgeCode)
  }

  /** The outcome of the test case at position `k`. */
  function Outcome(cases: seq<TestCase>, setup: JudgeSetup, runs: nat -> CaseRun, k: nat): CaseOutcome
    requires k < |cases|
  {
    RunTestCase(cases[k], CaseId(cases[k], k), setup.timeLimit, setup.hasSpj, setup.spjCode, runs(k))
  }

  /** The outcomes of all test cases, position by position. */
  function Outcomes(cases: seq<TestCase>, setup: JudgeSetup, runs: nat -> CaseRun): (outs: seq<CaseOutcome>)
    ensures |outs| == |cases|
    ensures forall k :: 0 <= k < |cases| ==> outs[k] == Outcome(cases, setup, runs, k)
  {
    seq(|cases|, k requires 0 <= k < |cases| => Outcome(cases, setup, runs, k))
  }

  /** The outcome at `k` is a finished, accepted result. */
  predicate PassesAt(outs: seq<CaseOutcome>, k: nat)
    requires k < |outs|
  {
    outs[k].Finished? && outs[k].result.status == Accepted
  }

  /** The loop either lets an exception escape, or completes with the stored results and the final status. */
  datatype RunOutcome = Aborted | Completed(results: seq<TestCaseResult>, final: JudgeStatus)

  function Prepend(rs: seq<TestCaseResult>, o: RunOutcome): RunOutcome {
    match o
    case Aborted => Aborted
    case Completed(xs, f) => Completed(rs + xs, f)
  }

  /**
   * The loop of `judge_submission` from position `i` on, over the outcomes the
   * cases would have: the results are the cases up to and including the first
   * one not accepted, whose status is the final one; when every case is
   * accepted (none at all included) the final status is accepted. An escaping
   * exception aborts the whole run.
   */
  function Collect(outs: seq<CaseOutcome>, i: nat): RunOutcome
    requires i <= |outs|
    decreases |outs| - i
  {
    if i == |outs| then Completed([], Accepted)
    else
      match outs[i]
      case Escaped => Aborted
      case Finished(r) =>
        if r.status != Accepted then Completed([r], r.status)
        else Prepend([r], Collect(outs, i + 1))
  }

  /**
   * A completed run holds the results of the cases from `i` on, in order, all
   * accepted but the last; it covers every case when the final status is
   * accepted, and ends with the case whose status is final otherwise.
   */
  lemma {:induction false} CollectShape(outs: seq<CaseOutcome>, i: nat)
    requires i <= |outs|
    ensures var o := Collect(outs, i);
      && (o.Completed? ==> |o.results| <= |outs| - i)
      && (o.Completed? ==> forall k :: 0 <= k < |o.results| ==> outs[i + k] == Finished(o.results[k]))
      && (o.Completed? ==> forall k :: 0 <= k < |o.results| - 1 ==> o.results[k].status == Accepted)
      && (o.Completed? && o.final == Accepted ==> |o.results| == |outs| - i)
      && (o.Completed? && o.final != Accepted ==> o.results != [] && o.results[|o.results| - 1].status == o.final)
    decreases |outs| - i
  {
    if i < |outs| && outs[i].Finished? && outs[i].result.status == Accepted {
      CollectShape(outs, i + 1);
      var o := Collect(outs, i + 1);
      if o.Completed? {
        var r := outs[i].result;
        assert Collect(outs, i).results == [r] + o.results;
        forall k | 0 <= k < |o.results| + 1 ensures outs[i + k] == Finished(([r] + o.results)[k]) {
          if k > 0 { assert outs[i + 1 + (k - 1)] == Finished(o.results[k - 1]); }
        }
      }
    }
  }

  /** One step of the loop: the case at `i` moves from the remaining outcomes to the collected results. */
  lemma {:induction false} CollectStep(outs: seq<CaseOutcome>, rs: seq<TestCaseResult>, i: nat)
    requires i < |outs| && outs[i].Finished?
    ensures outs[i].result.status == Accepted ==>
      Prepend(rs, Collect(outs, i)) == Prepend(rs + [outs[i].result], Collect(outs, i + 1))
    ensures outs[i].result.status != Accepted ==>
      Prepend(rs, Collect(outs, i)) == Completed(rs + [outs[i].result], outs[i].result.status)
  {
    if outs[i].result.status == Accepted {
      match Collect(outs, i + 1)
      case Aborted =>
      case Completed(xs, f) =>
        assert rs + ([outs[i].result] + xs) == rs + [outs[i].result] + xs;
    }
  }

  /** The run is accepted exactly when every case from `i` on finishes accepted; an empty case list is accepted. */
  lemma {:induction false} AcceptedExactlyWhenAllPass(outs: seq<CaseOutcome>, i: nat)
    requires i <= |outs|
    ensures (forall k :: i <= k < |outs| ==> PassesAt(outs, k)) <==> Collect(outs, i).Completed? && Collect(outs, i).final == Accepted
    decreases |outs| - i
  {
    if i < |outs| {
      AcceptedExactlyWhenAllPass(outs, i + 1);
      if !PassesAt(outs, i) {
        assert !(forall k :: i <= k < |outs| ==> PassesAt(outs, k));
      }
    }
  }

  /** The run aborts exactly when some case escapes after only accepted cases. */
  lemma {:induction false} AbortedExactlyWhenEscaping(outs: seq<CaseOutcome>, i: nat)
    requires i <= |outs|
    ensures Collect(outs, i).Aborted? <==>
      exists k :: i <= k < |outs| && outs[k].Escaped? && forall m :: i <= m < k ==> PassesAt(outs, m)
    decreases |outs| - i
  {
    if i < |outs| {
      AbortedExactlyWhenEscaping(outs, i + 1);
      if !outs[i].Escaped? {
        forall k | i < k < |outs| && outs[k].Escaped? && (forall m :: i <= m < k ==> PassesAt(outs, m))
          ensures PassesAt(outs, i) && forall m :: i + 1 <= m < k ==> PassesAt(outs, m)
        {
        }
        if PassesAt(outs, i) && Collect(outs, i + 1).Aborted? {
          var k :| i + 1 <= k < |outs| && outs[k].Escaped? && forall m :: i + 1 <= m < k ==> PassesAt(outs, m);
          assert forall m :: i <= m < k ==> PassesAt(outs, m);
        }
      }
    }
  }

  /**
   * Every stored result carries its case's id, and the final status of a
   * completed run is never memory-limit-exceeded (nothing assigns it), never
   * a compilation error, and never pending or judging.
   */
  lemma {:induction false} CompletedRunShape(cases: seq<TestCase>, setup: JudgeSetup, runs: nat -> CaseRun)
    ensures var o := Collect(Outcomes(cases, setup, runs), 0);
      o.Completed? ==>
        && |o.results| <= |cases|
        && (forall k :: 0 <= k < |o.results| ==> o.results[k].testCaseId == CaseId(cases[k], k))
        && o.final != MemoryLimitExceeded && o.final != CompilationError && IsFinal(o.final)
  {
    var outs := Outcomes(cases, setup, runs);
    OutcomesFinishWell(cases, setup, runs);
    CompletedFromGoodOutcomes(cases, outs);
  }

  /** What a finished case carries: its id, and a final status other than memory-limit-exceeded or compilation error. */
  predicate FinishedWell(cases: seq<TestCase>, k: nat, r: TestCaseResult)
    requires k < |cases|
  {
    r.testCaseId == CaseId(cases[k], k) && r.status != MemoryLimitExceeded && r.status != CompilationError && IsFinal(r.status)
  }

  /** Every case that finishes, finishes well. */
  lemma {:induction false} OutcomesFinishWell(cases: seq<TestCase>, setup: JudgeSetup, runs: nat -> CaseRun)
    ensures forall k :: 0 <= k < |cases| && Outcomes(cases, setup, runs)[k].Finished? ==>
      FinishedWell(cases, k, Outcomes(cases, setup, runs)[k].result)
  {
    forall k | 0 <= k < |cases| && Outcomes(cases, setup, runs)[k].Finished?
      ensures FinishedWell(cases, k, Outcomes(cases, setup, runs)[k].result)
    {
      FinishedCase(cases, setup, runs, k, Outcomes(cases, setup, runs)[k].result);
    }
  }

  /** When every finished outcome finishes well, so does every result a completed run keeps, and its final status. */
  lemma {:induction false} CompletedFromGoodOutcomes(cases: seq<TestCase>, outs: seq<CaseOutcome>)
    requires |outs| == |cases|
    requires forall k :: 0 <= k < |cases| && outs[k].Finished? ==> FinishedWell(cases, k, outs[k].result)
    ensures var o := Collect(outs, 0);
      o.Completed? ==>
        && |o.results| <= |cases|
        && (forall k :: 0 <= k < |o.results| ==> o.results[k].testCaseId == CaseId(cases[k], k))
        && o.final != MemoryLimitExceeded && o.final != CompilationError && IsFinal(o.final)
  {
    var o := Collect(outs, 0);
    CollectShape(outs, 0);
    if o.Completed? {
      forall k | 0 <= k < |o.results| ensures o.results[k].testCaseId == CaseId(cases[k], k) {
        assert outs[k] == Finished(o.results[k]);
      }
      if o.final != Accepted {
        var k := |o.results| - 1;
        assert outs[k] == Finished(o.results[k]);
      }
    }
  }

  /** A case that finishes carries its id and a final status other than memory-limit-exceeded or compilation error. */
  lemma {:induction false} FinishedCase(cases: seq<TestCase>, setup: JudgeSetup, runs: nat -> CaseRun, k: nat, r: TestCaseResult)
    requires k < |cases| && Outcomes(cases, setup, runs)[k] == Finished(r)
    ensures r.testCaseId == CaseId(cases[k], k)
    ensures r.status != MemoryLimitExceeded && r.status != CompilationError && IsFinal(r.status)
  {
    assert Outcome(cases, setup, runs, k) == Finished(r);
  }


  // ---------------------------------------------------------------- aggregation

  /** `max(xs)`, with 0 for an empty list. */
  function MaxOf(xs: seq<nat>): (m: nat)
    ensures forall k :: 0 <= k < |xs| ==> xs[k] <= m
    ensures xs == [] ==> m == 0
    ensures xs != [] ==> m in xs
  {
    if xs == [] then 0
    else
      var rest := MaxOf(xs[1..]);
      assert forall k :: 1 <= k < |xs| ==> xs[k] == xs[1..][k - 1];
      if xs[0] >= rest then xs[0] else rest
  }

  function Times(rs: seq<TestCaseResult>): (ts: seq<nat>)
    ensures |ts| == |rs| && forall k :: 0 <= k < |rs| ==> ts[k] == rs[k].timeUsed
  {
    seq(|rs|, k requires 0 <= k < |rs| => rs[k].timeUsed)
  }

  function Memories(rs: seq<TestCaseResult>): (ms: seq<nat>)
    ensures |ms| == |rs| && forall k :: 0 <= k < |rs| ==> ms[k] == rs[k].memoryUsed
  {
    seq(|rs|, k requires 0 <= k < |rs| => rs[k].memoryUsed)
  }

  // ---------------------------------------------------------------- the submission-level verdict

  datatype Verdict =
    | DockerDown
    | NoProblem
    | CompileError(message: string)
    | Crashed
    | Judged(results: seq<TestCaseResult>, final: JudgeStatus)

  /** What judging decides, given the problem found (if any) and the sandbox's reports. */
  function JudgeVerdict(problem: Option<Problem>, dockerAvailable: bool, compile: CompileRun, runs: nat -> CaseRun): Verdict {
    if !dockerAvailable then DockerDown
    else if problem.None? then NoProblem
    else
      match CompileCode(compile)
      case CompileFailed(e) => CompileError(e)
      case Compiled =>
        match Collect(Outcomes(problem.value.testCases, SetupOf(problem.value), runs), 0)
        case Aborted => Crashed
        case Completed(rs, f) => Judged(rs, f)
  }

  /** The submission record once judging is over, starting from the record marked as judging. */
  function ApplyVerdict(s: Submission, v: Verdict, evaluation: Json): Submission {
    match v
    case DockerDown => WithStatus(s, SystemError, DockerUnavailableMessage)
    case NoProblem => WithStatus(s, SystemError, MissingProblemMessage)
    case CompileError(e) => WithStatus(s, CompilationError, e)
    case Crashed => WithStatus(s, SystemError, UnboundTimeUsedMessage)
    case Judged(rs, f) =>
      s.(llmEvaluation := Some(evaluation), status := f, testCaseResults := rs,
         timeUsed := MaxOf(Times(rs)), memoryUsed := MaxOf(Memories(rs)))
  }

  /**
   * Docker being unavailable decides the verdict before the problem, the
   * compiler or any test case is looked at; a compile failure decides it
   * before any test case runs.
   */
  lemma {:induction false} VerdictGates(problem: Option<Problem>, dockerAvailable: bool, compile: CompileRun, runs: nat -> CaseRun, runs': nat -> CaseRun)
    ensures !dockerAvailable ==> JudgeVerdict(problem, dockerAvailable, compile, runs) == DockerDown
    ensures JudgeVerdict(problem, dockerAvailable, compile, runs).CompileError? <==>
      dockerAvailable && problem.Some? && CompileCode(compile).CompileFailed?
    ensures CompileCode(compile).CompileFailed? ==>
      JudgeVerdict(problem, dockerAvailable, compile, runs) == JudgeVerdict(problem, dockerAvailable, compile, runs')
  {
  }

  /**
   * A submission is accepted exactly when Docker is up, the problem exists,
   * the solution compiles and every test case finishes accepted.
   */
  lemma {:induction false} AcceptedIffEveryCasePasses(problem: Option<Problem>, dockerAvailable: bool, compile: CompileRun, runs: nat -> CaseRun)
    ensures IsAcceptance(JudgeVerdict(problem, dockerAvailable, compile, runs)) <==>
      && dockerAvailable && problem.Some? && CompileCode(compile).Compiled?
      && var outs := Outcomes(problem.value.testCases, SetupOf(problem.value), runs);
         forall k :: 0 <= k < |outs| ==> PassesAt(outs, k)
  {
    if dockerAvailable && problem.Some? && CompileCode(compile).Compiled? {
      AcceptedExactlyWhenAllPass(Outcomes(problem.value.testCases, SetupOf(problem.value), runs), 0);
    }
  }

  /**
   * The whole submission ends as a system error from an escaping exception
   * exactly when some test case raises one after only accepted cases.
   */
  lemma {:induction false} CrashedIffSomeCaseEscapes(problem: Option<Problem>, dockerAvailable: bool, compile: CompileRun, runs: nat -> CaseRun)
    ensures JudgeVerdict(problem, dockerAvailable, compile, runs).Crashed? <==>
      && dockerAvailable && problem.Some? && CompileCode(compile).Compiled?
      && var outs := Outcomes(problem.value.testCases, SetupOf(problem.value), runs);
         exists k :: 0 <= k < |outs| && outs[k].Escaped? && forall m :: 0 <= m < k ==> PassesAt(outs, m)
  {
    if dockerAvailable && problem.Some? && CompileCode(compile).Compiled? {
      AbortedExactlyWhenEscaping(Outcomes(problem.value.testCases, SetupOf(problem.value), runs), 0);
    }
  }

  /**
   * Judging always ends in a final status. It is a compilation error exactly
   * for a compile failure, and memory-limit-exceeded is never reached.
   */
  lemma {:induction false} JudgedStatusIsFinal(s: Submission, problem: Option<Problem>, dockerAvailable: bool, compile: CompileRun, runs: nat -> CaseRun, evaluation: Json)
    ensures var v := JudgeVerdict(problem, dockerAvailable, compile, runs);
      var r := ApplyVerdict(s, v, evaluation);
      && IsFinal(r.status)
      && r.status != MemoryLimitExceeded
      && (r.status == CompilationError <==> v.CompileError?)
  {
    if dockerAvailable && problem.Some? && CompileCode(compile).Compiled? {
      CompletedRunShape(problem.value.testCases, SetupOf(problem.value), runs);
    }
  }

  /**
   * Only a completed run writes results, aggregates and the evaluation; on
   * every other path the record keeps them, so a fresh submission keeps its
   * empty result list.
   */
  lemma {:induction false} UnjudgedKeepsResults(s: Submission, v: Verdict, evaluation: Json)
    requires !v.Judged?
    ensures var r := ApplyVerdict(s, v, evaluation);
      && r.testCaseResults == s.testCaseResults && r.timeUsed == s.timeUsed
      && r.memoryUsed == s.memoryUsed && r.llmEvaluation == s.llmEvaluation
      && (r.status == SystemError || r.status == CompilationError)
  {
  }

  /**
   * The status and message each failure path writes: the fixed Docker
   * message, the compiler's error when it is not empty, and the message of
   * the exception that escapes a crashed run.
   */
  lemma {:induction false} FailureMessages(s: Submission, message: string, evaluation: Json)
    ensures ApplyVerdict(s, DockerDown, evaluation).status == SystemError
    ensures ApplyVerdict(s, DockerDown, evaluation).errorMessage == Some(DockerUnavailableMessage)
    ensures ApplyVerdict(s, CompileError(message), evaluation).status == CompilationError
    ensures ApplyVerdict(s, CompileError(message), evaluation).errorMessage
      == if message != "" then Some(message) else s.errorMessage
    ensures ApplyVerdict(s, Crashed, evaluation).status == SystemError
    ensures ApplyVerdict(s, Crashed, evaluation).errorMessage == Some(UnboundTimeUsedMessage)
  {
  }

  /** The stored time and memory are the largest over the results, and 0 when there are none. */
  lemma {:induction false} JudgedAggregates(s: Submission, rs: seq<TestCaseResult>, f: JudgeStatus, evaluation: Json)
    ensures var r := ApplyVerdict(s, Judged(rs, f), evaluation);
      && r.testCaseResults == rs && r.status == f && r.llmEvaluation == Some(evaluation)
      && (forall k :: 0 <= k < |rs| ==> rs[k].timeUsed <= r.timeUsed && rs[k].memoryUsed <= r.memoryUsed)
      && (rs == [] ==> r.timeUsed == 0 && r.memoryUsed == 0)
      && (rs != [] ==> exists k :: 0 <= k < |rs| && rs[k].timeUsed == r.timeUsed)
      && (rs != [] ==> exists k :: 0 <= k < |rs| && rs[k].memoryUsed == r.memoryUsed)
  {
    var r := ApplyVerdict(s, Judged(rs, f), evaluation);
    if rs != [] {
      var i :| 0 <= i < |Times(rs)| && Times(rs)[i] == r.timeUsed;
      var j :| 0 <= j < |Memories(rs)| && Memories(rs)[j] == r.memoryUsed;
    }
  }

  /** Generated case ids `tc<n>` are distinct for distinct positions, and a stored id is kept. */
  lemma {:induction false} CaseIdsDistinct(tc: TestCase, i: nat, tc': TestCase, j: nat)
    ensures tc.id.Some? ==> CaseId(tc, i) == tc.id.value
    ensures tc.id.None? && tc'.id.None? && CaseId(tc, i) == CaseId(tc', j) ==> i == j
  {
    if tc.id.None? && tc'.id.None? && CaseId(tc, i) == CaseId(tc', j) {
      assert CaseId(tc, i)[2..] == NatToString(i + 1);
      assert CaseId(tc', j)[2..] == NatToString(j + 1);
      NatToStringInjective(i + 1, j + 1);
    }
  }

  /** The solved list after `$addToSet` guarded by `$ne`: the problem is added once, at the end. */
  function AddSolved(solved: seq<Id>, problemId: Id): (r: seq<Id>)
    ensures problemId in r
    ensures forall x :: x in r <==> x in solved || x == problemId
    ensures problemId in solved ==> r == solved
  {
    if problemId in solved then solved else solved + [problemId]
  }

  /** Adding a solved problem twice is the same as adding it once. */
  lemma {:induction false} AddSolvedIdempotent(solved: seq<Id>, problemId: Id)
    ensures AddSolved(AddSolved(solved, problemId), problemId) == AddSolved(solved, problemId)
  {
  }

  /** Another submission (not `sid`) of the same user for the same problem is already accepted. */
  predicate OtherAccepted(submissions: Table<Submission>, sid: Id, pid: Id, uid: Id) {
    exists id :: id in submissions.rows && id != sid &&
      submissions.rows[id].problemId == pid && submissions.rows[id].userId == uid &&
      submissions.rows[id].status == Accepted
  }

  /** Rewriting submission `sid` does not change whether another one is accepted. */
  lemma {:induction false} OtherAcceptedIgnoresOwn(t: Table<Submission>, sid: Id, row: Submission, pid: Id, uid: Id)
    requires sid in t.rows
    ensures OtherAccepted(t.Put(sid, row), sid, pid, uid) == OtherAccepted(t, sid, pid, uid)
  {
    var t' := t.Put(sid, row);
    assert forall id :: id in t.rows && id != sid ==> id in t'.rows && t'.rows[id] == t.rows[id];
  }

  /** The counter update reads the other submissions only, so rewriting `sid` first does not change it. */
  lemma {:induction false} ProblemsAfterIgnoresOwn(problems: Table<Problem>, t: Table<Submission>, accepted: bool, sid: Id, row: Submission, pid: Id, uid: Id)
    requires sid in t.rows
    ensures ProblemsAfter(problems, t.Put(sid, row), accepted, sid, pid, uid) == ProblemsAfter(problems, t, accepted, sid, pid, uid)
  {
    OtherAcceptedIgnoresOwn(t, sid, row, pid, uid);
  }

  predicate IsAcceptance(v: Verdict) {
    v.Judged? && v.final == Accepted
  }

  /** The users table after an acceptance (or not): the problem joins the user's solved list unless it is there already. */
  function UsersAfter(users: Table<UserRecord>, accepted: bool, pid: Id, uid: Id): (r: Table<UserRecord>)
    ensures r.order == users.order && r.rows.Keys == users.rows.Keys
    ensures forall id :: id in r.rows && (id != uid || !accepted) ==> r.rows[id] == users.rows[id]
    ensures accepted && uid in users.rows ==>
      r.rows[uid] == users.rows[uid].(solvedProblems := AddSolved(users.rows[uid].solvedProblems, pid))
  {
    if accepted && uid in users.rows && pid !in users.rows[uid].solvedProblems then
      users.Put(uid, users.rows[uid].(solvedProblems := AddSolved(users.rows[uid].solvedProblems, pid)))
    else users
  }

  /**
   * The problems table after an acceptance (or not): the accepted counter goes
   * up by one unless the same user already has another accepted submission
   * for the problem.
   */
  function ProblemsAfter(problems: Table<Problem>, submissions: Table<Submission>, accepted: bool, sid: Id, pid: Id, uid: Id): (r: Table<Problem>)
    ensures r.order == problems.order && r.rows.Keys == problems.rows.Keys
    ensures forall id :: id in r.rows && id != pid ==> r.rows[id] == problems.rows[id]
    ensures pid in problems.rows ==>
      r.rows[pid] == problems.rows[pid].(acceptedCount := problems.rows[pid].acceptedCount +
        if accepted && !OtherAccepted(submissions, sid, pid, uid) then 1 else 0)
  {
    if accepted && pid in problems.rows && !OtherAccepted(submissions, sid, pid, uid) then
      problems.Put(pid, problems.rows[pid].(acceptedCount := problems.rows[pid].acceptedCount + 1))
    else problems
  }

  /** Changing a user's solved list keeps every username and email where it was. */
  lemma {:induction false} UsersAfterKeepsAccounts(users: Table<UserRecord>, accepted: bool, pid: Id, uid: Id)
    requires users.Wf() && AccountsUnique(users)
    ensures UsersAfter(users, accepted, pid, uid).Wf() && AccountsUnique(UsersAfter(users, accepted, pid, uid))
  {
    var r := UsersAfter(users, accepted, pid, uid);
    assert forall id :: id in r.rows ==> r.rows[id].username == users.rows[id].username && r.rows[id].email == users.rows[id].email;
  }

  function ProblemAt(problems: Table<Problem>, pid: Id): Option<Problem> {
    if pid in problems.rows then Some(problems.rows[pid]) else None
  }

  /**
   * The `for` loop of `judge_submission`: judges the cases in order and stops
   * at the first one not accepted, or at the first exception.
   */
  method RunCases(cases: seq<TestCase>, setup: JudgeSetup, runs: nat -> CaseRun)
    returns (crashed: bool, results: seq<TestCaseResult>, finalStatus: JudgeStatus)
    ensures crashed <==> Collect(Outcomes(cases, setup, runs), 0).Aborted?
    ensures !crashed ==> Collect(Outcomes(cases, setup, runs), 0) == Completed(results, finalStatus)
  {
    crashed, results, finalStatus := CollectInOrder(Outcomes(cases, setup, runs), |cases|,
      (k: nat) requires k < |cases| => Outcome(cases, setup, runs, k));
  }

  /**
   * The loop itself, over the outcome `step(k)` of each case `k` in turn: it
   * stops at the first case not accepted, or at the first exception.
   */
  method CollectInOrder(ghost outs: seq<CaseOutcome>, n: nat, step: nat --> CaseOutcome)
    returns (crashed: bool, results: seq<TestCaseResult>, finalStatus: JudgeStatus)
    requires n == |outs| && forall k: nat :: k < n ==> step.requires(k) && step(k) == outs[k]
    ensures crashed <==> Collect(outs, 0).Aborted?
    ensures !crashed ==> Collect(outs, 0) == Completed(results, finalStatus)
  {
    results := [];
    finalStatus := Accepted;
    crashed := false;
    var i := 0;
    while i < n
      invariant 0 <= i <= n
      invariant Collect(outs, 0) == Prepend(results, Collect(outs, i))
    {
      var outcome := step(i);
      if outcome.Escaped? {
        assert Collect(outs, i) == Aborted;
        crashed := true;
        return;
      }
      CollectStep(outs, results, i);
      results := results + [outcome.result];
      if outcome.result.status != Accepted {
        finalStatus := outcome.result.status;
        return;
      }
      i := i + 1;
    }
    assert Collect(outs, i) == Completed([], Accepted);
    assert results + [] == results;
  }

  /**
   * The acceptance effects of `judge_submission`: the `$addToSet` on the
   * user's solved problems (guarded by `$ne`), then the accepted counter of
   * the problem, bumped only when `find_one` finds no other accepted
   * submission of the same user for it.
   */
  method CreditAcceptance(db: Database, submissionId: Id, problemId: Id, userId: Id)
    requires db.Valid()
    modifies db
    ensures db.Valid()
    ensures db.submissions == old(db.submissions) && db.config == old(db.config)
    ensures db.users == UsersAfter(old(db.users), true, problemId, userId)
    ensures db.problems == ProblemsAfter(old(db.problems), old(db.submissions), true, submissionId, problemId, userId)
  {
    AddSolvedProblem(db, problemId, userId);
    CountAcceptance(db, submissionId, problemId, userId);
  }

  /** The `$addToSet` of the problem on the user's solved list, guarded by `$ne`. */
  method AddSolvedProblem(db: Database, problemId: Id, userId: Id)
    requires db.Valid()
    modifies db
    ensures db.Valid()
    ensures db.submissions == old(db.submissions) && db.problems == old(db.problems) && db.config == old(db.config)
    ensures db.users == UsersAfter(old(db.users), true, problemId, userId)
  {
    UsersAfterKeepsAccounts(db.users, true, problemId, userId);
    if userId in db.users.rows && problemId !in db.users.rows[userId].solvedProblems {
      var u := db.users.rows[userId];
      db.users := db.users.Put(userId, u.(solvedProblems := AddSolved(u.solvedProblems, problemId)));
    }
  }

  /**
   * The `$inc` of the problem's accepted counter, done only when `find_one`
   * finds no other accepted submission of the same user for the problem.
   */
  method CountAcceptance(db: Database, submissionId: Id, problemId: Id, userId: Id)
    requires db.Valid()
    modifies db
    ensures db.Valid()
    ensures db.submissions == old(db.submissions) && db.users == old(db.users) && db.config == old(db.config)
    ensures db.problems == ProblemsAfter(old(db.problems), old(db.submissions), true, submissionId, problemId, userId)
  {
    var userAccepted := OtherAccepted(db.submissions, submissionId, problemId, userId);
    if !userAccepted && problemId in db.problems.rows {
      var p := db.problems.rows[problemId];
      db.problems := db.problems.Put(problemId, p.(acceptedCount := p.acceptedCount + 1));
    }
  }

  /**
   * `_update_submission_status`: `update_one` on the submission, a no-op when
   * the id is not stored.
   */
  method UpdateSubmissionStatus(db: Database, submissionId: Id, status: JudgeStatus, message: string)
    requires db.Valid()
    modifies db
    ensures db.Valid()
    ensures db.submissions == if submissionId in old(db.submissions.rows)
      then old(db.submissions).Put(submissionId, WithStatus(old(db.submissions.rows[submissionId]), status, message))
      else old(db.submissions)
    ensures db.problems == old(db.problems) && db.users == old(db.users) && db.config == old(db.config)
  {
    if submissionId in db.submissions.rows {
      var sub := WithStatus(db.submissions.rows[submissionId], status, message);
      db.submissions := db.submissions.Put(submissionId, sub);
    }
  }

  /**
   * The end of a judging run that completed: the evaluation is stored, then
   * the status, the results and the maxima of time and memory, then the
   * acceptance effects.
   */
  method StoreJudged(db: Database, submissionId: Id, problemId: Id, userId: Id,
                     results: seq<TestCaseResult>, finalStatus: JudgeStatus, evaluation: Json)
    requires db.Valid() && submissionId in db.submissions.rows
    modifies db
    ensures db.Valid()
    ensures db.config == old(db.config)
    ensures db.submissions == old(db.submissions).Put(submissionId,
      ApplyVerdict(old(db.submissions.rows[submissionId]), Judged(results, finalStatus), evaluation))
    ensures db.users == UsersAfter(old(db.users), finalStatus == Accepted, problemId, userId)
    ensures db.problems == ProblemsAfter(old(db.problems), old(db.submissions), finalStatus == Accepted, submissionId, problemId, userId)
  {
    ghost var subs0 := db.submissions;
    StoreResults(db, submissionId, results, finalStatus, evaluation);
    if finalStatus == Accepted {
      ProblemsAfterIgnoresOwn(db.problems, subs0, true, submissionId, db.submissions.rows[submissionId], problemId, userId);
      CreditAcceptance(db, submissionId, problemId, userId);
    }
  }

  /** The two `update_one` calls on the submission: the evaluation, then the status, the results and the maxima. */
  method StoreResults(db: Database, submissionId: Id, results: seq<TestCaseResult>, finalStatus: JudgeStatus, evaluation: Json)
    requires db.Valid() && submissionId in db.submissions.rows
    modifies db
    ensures db.Valid()
    ensures db.problems == old(db.problems) && db.users == old(db.users) && db.config == old(db.config)
    ensures db.submissions == old(db.submissions).Put(submissionId,
      ApplyVerdict(old(db.submissions.rows[submissionId]), Judged(results, finalStatus), evaluation))
  {
    ghost var subs0 := db.submissions;
    var sub := db.submissions.rows[submissionId];
    sub := sub.(llmEvaluation := Some(evaluation));
    db.submissions := db.submissions.Put(submissionId, sub);
    ghost var withEvaluation := sub;
    sub := sub.(status := finalStatus, testCaseResults := results,
                timeUsed := MaxOf(Times(results)), memoryUsed := MaxOf(Memories(results)));
    subs0.PutPut(submissionId, withEvaluation, sub);
    db.submissions := db.submissions.Put(submissionId, sub);
  }

  /** `judge_submission` once the submission is stored and marked as judging. */
  method JudgeMarked(db: Database, submissionId: Id, problemId: Id, userId: Id,
                     dockerAvailable: bool, compile: CompileRun, runs: nat -> CaseRun, evaluation: Json)
    requires db.Valid() && submissionId in db.submissions.rows
    modifies db
    ensures db.Valid()
    ensures db.config == old(db.config)
    ensures
      var v := JudgeVerdict(ProblemAt(old(db.problems), problemId), dockerAvailable, compile, runs);
      && db.submissions == old(db.submissions).Put(submissionId, ApplyVerdict(old(db.submissions.rows[submissionId]), v, evaluation))
      && db.users == UsersAfter(old(db.users), IsAcceptance(v), problemId, userId)
      && db.problems == ProblemsAfter(old(db.problems), old(db.submissions), IsAcceptance(v), submissionId, problemId, userId)
  {
    ghost var v := JudgeVerdict(ProblemAt(db.problems, problemId), dockerAvailable, compile, runs);
    ghost var users0, problems0 := db.users, db.problems;
    if !dockerAvailable {
      assert v == DockerDown;
      UpdateSubmissionStatus(db, submissionId, SystemError, DockerUnavailableMessage);
      assert UsersAfter(users0, false, problemId, userId) == users0;
      return;
    }
    if problemId !in db.problems.rows {
      assert v == NoProblem;
      UpdateSubmissionStatus(db, submissionId, SystemError, MissingProblemMessage);
      assert UsersAfter(users0, false, problemId, userId) == users0;
      return;
    }
    var problem := db.problems.rows[problemId];
    var compiled := CompileCode(compile);
    if compiled.CompileFailed? {
      assert v == CompileError(compiled.error);
      UpdateSubmissionStatus(db, submissionId, CompilationError, compiled.error);
      assert UsersAfter(users0, false, problemId, userId) == users0;
      return;
    }
    var crashed, results, finalStatus := RunCases(problem.testCases, SetupOf(problem), runs);
    if crashed {
      assert v == Crashed;
      UpdateSubmissionStatus(db, submissionId, SystemError, UnboundTimeUsedMessage);
      assert UsersAfter(users0, false, problemId, userId) == users0;
      return;
    }
    assert v == Judged(results, finalStatus);
    StoreJudged(db, submissionId, problemId, userId, results, finalStatus, evaluation);
  }

  /**
   * `judge_submission`. A submission id that is not stored makes the background job fail
   * on `submission["code"]` before anything is written.
   */
  method JudgeSubmission(db: Database, submissionId: Id, problemId: Id, userId: Id,
                         dockerAvailable: bool, compile: CompileRun, runs: nat -> CaseRun, evaluation: Json)
    requires db.Valid()
    modifies db
    ensures db.Valid()
    ensures db.config == old(db.config)
    ensures submissionId !in old(db.submissions.rows) ==>
      db.submissions == old(db.submissions) && db.problems == old(db.problems) && db.users == old(db.users)
    ensures submissionId in old(db.submissions.rows) ==>
      var v := JudgeVerdict(ProblemAt(old(db.problems), problemId), dockerAvailable, compile, runs);
      && db.submissions == old(db.submissions).Put(submissionId,
           ApplyVerdict(old(db.submissions.rows[submissionId]).(status := Judging), v, evaluation))
      && db.users == UsersAfter(old(db.users), IsAcceptance(v), problemId, userId)
      && db.problems == ProblemsAfter(old(db.problems), old(db.submissions), IsAcceptance(v), submissionId, problemId, userId)
  {
    if submissionId !in db.submissions.rows {
      return;
    }
    ghost var subs0 := db.submissions;
    ghost var v := JudgeVerdict(ProblemAt(db.problems, problemId), dockerAvailable, compile, runs);
    var marked := db.submissions.rows[submissionId].(status := Judging);
    db.submissions := db.submissions.Put(submissionId, marked);
    ProblemsAfterIgnoresOwn(db.problems, subs0, IsAcceptance(v), submissionId, marked, problemId, userId);
    JudgeMarked(db, submissionId, problemId, userId, dockerAvailable, compile, runs, evaluation);
    subs0.PutPut(submissionId, marked, ApplyVerdict(marked, v, evaluation));
  }
}
