/**
 * The submission records of the judge: the language enum, the closed set of
 * judge statuses with their string values, one test case's result record and
 * the stored submission, each with the defaults the model declares.
 */
module SubmissionModel {
  import opened Wrappers
  import opened JsonValue

  type Id = string

  /** Timestamps (`datetime.utcnow()`) are opaque ordered values. */
  type Time = int

  datatype Language = Cpp

  function LanguageValue(l: Language): string {
    match l
    case Cpp => "cpp"
  }

  datatype JudgeStatus =
    | Pending
    | Judging
    | Accepted
    | WrongAnswer
    | TimeLimitExceeded
    | MemoryLimitExceeded
    | RuntimeError
    | CompilationError
    | SystemError

  /** The string each status is stored and compared as. */
  function StatusValue(s: JudgeStatus): string {
    match s
    case Pending => "pending"
    case Judging => "judging"
    case Accepted => "accepted"
    case WrongAnswer => "wrong_answer"
    case TimeLimitExceeded => "time_limit_exceeded"
    case MemoryLimitExceeded => "memory_limit_exceeded"
    case RuntimeError => "runtime_error"
    case CompilationError => "compilation_error"
    case SystemError => "system_error"
  }

  /** Every status, in declaration order. */
  const AllStatuses: seq<JudgeStatus> :=
    [Pending, Judging, Accepted, WrongAnswer, TimeLimitExceeded,
     MemoryLimitExceeded, RuntimeError, CompilationError, SystemError]

  /** `JudgeStatus(v)`: the status whose value is `v`, if there is one. */
  function StatusFromValue(v: string): (r: Option<JudgeStatus>)
    ensures r.Some? ==> StatusValue(r.value) == v
    ensures r.None? ==> forall s :: StatusValue(s) != v
  {
    if v == "pending" then Some(Pending)
    else if v == "judging" then Some(Judging)
    else if v == "accepted" then Some(Accepted)
    else if v == "wrong_answer" then Some(WrongAnswer)
    else if v == "time_limit_exceeded" then Some(TimeLimitExceeded)
    else if v == "memory_limit_exceeded" then Some(MemoryLimitExceeded)
    else if v == "runtime_error" then Some(RuntimeError)
    else if v == "compilation_error" then Some(CompilationError)
    else if v == "system_error" then Some(SystemError)
    else None
  }

  /**
   * The enum is closed: exactly nine statuses, each listed once, each found
   * again from its value.
   */
  lemma {:induction false} StatusesClosed()
    ensures |AllStatuses| == 9
    ensures forall s :: s in AllStatuses
    ensures forall i, j :: 0 <= i < j < |AllStatuses| ==> StatusValue(AllStatuses[i]) != StatusValue(AllStatuses[j])
    ensures forall s :: StatusFromValue(StatusValue(s)) == Some(s)
  {
    forall s ensures s in AllStatuses {
      match s
      case Pending => assert AllStatuses[0] == s;
      case Judging => assert AllStatuses[1] == s;
      case Accepted => assert AllStatuses[2] == s;
      case WrongAnswer => assert AllStatuses[3] == s;
      case TimeLimitExceeded => assert AllStatuses[4] == s;
      case MemoryLimitExceeded => assert AllStatuses[5] == s;
      case RuntimeError => assert AllStatuses[6] == s;
      case CompilationError => assert AllStatuses[7] == s;
      case SystemError => assert AllStatuses[8] == s;
    }
    forall s ensures StatusFromValue(StatusValue(s)) == Some(s) {
      match s
      case Pending => assert StatusValue(s) == "pending";
      case Judging => assert StatusValue(s) == "judging";
      case Accepted => assert StatusValue(s) == "accepted";
      case WrongAnswer => assert StatusValue(s) == "wrong_answer";
      case TimeLimitExceeded => assert StatusValue(s) == "time_limit_exceeded";
      case MemoryLimitExceeded => assert StatusValue(s) == "memory_limit_exceeded";
      case RuntimeError => assert StatusValue(s) == "runtime_error";
      case CompilationError => assert StatusValue(s) == "compilation_error";
      case SystemError => assert StatusValue(s) == "system_error";
    }
    forall i, j | 0 <= i < j < |AllStatuses|
      ensures StatusValue(AllStatuses[i]) != StatusValue(AllStatuses[j])
    {
      assert StatusFromValue(StatusValue(AllStatuses[i])) != StatusFromValue(StatusValue(AllStatuses[j]));
    }
  }

  /** One test case's outcome as stored in `test_case_results`. */
  datatype TestCaseResult = TestCaseResult(
    testCaseId: string,
    status: JudgeStatus,
    timeUsed: nat,      // ms
    memoryUsed: nat,    // KB
    errorMessage: Option<string>,
    output: Option<string>)

  /** A result record built from its two required fields, the others defaulted. */
  function NewTestCaseResult(testCaseId: string, status: JudgeStatus): (r: TestCaseResult)
    ensures r.testCaseId == testCaseId && r.status == status
    ensures r.timeUsed == 0 && r.memoryUsed == 0
    ensures r.errorMessage.None? && r.output.None?
  {
    TestCaseResult(testCaseId, status, 0, 0, None, None)
  }

  datatype Submission = Submission(
    problemId: Id,
    userId: Id,
    code: string,
    language: Language,
    submittedAt: Time,
    status: JudgeStatus,
    timeUsed: nat,      // ms, the maximum over the test cases
    memoryUsed: nat,    // KB, the maximum over the test cases
    errorMessage: Option<string>,
    testCaseResults: seq<TestCaseResult>,
    llmEvaluation: Option<Json>)

  /** A fresh submission: pending, nothing measured, no results, no error, no evaluation. */
  function NewSubmission(problemId: Id, userId: Id, code: string, language: Language, submittedAt: Time): (s: Submission)
    ensures s.problemId == problemId && s.userId == userId && s.code == code
    ensures s.language == language && s.submittedAt == submittedAt
    ensures s.status == Pending && s.timeUsed == 0 && s.memoryUsed == 0
    ensures s.errorMessage.None? && s.testCaseResults == [] && s.llmEvaluation.None?
  {
    Submission(problemId, userId, code, language, submittedAt, Pending, 0, 0, None, [], None)
  }

  /** The statuses a finished judging run can leave on a submission. */
  predicate IsFinal(s: JudgeStatus) {
    s != Pending && s != Judging
  }
}
