/**
 * The problem records: the difficulty enum, a test case and the stored problem,
 * each with the defaults the model declares.
 */
module ProblemModel {
  import opened Wrappers
  import opened SubmissionModel

  datatype DifficultyLevel = Easy | Medium | Hard

  function DifficultyValue(d: DifficultyLevel): string {
    match d
    case Easy => "easy"
    case Medium => "medium"
    case Hard => "hard"
  }

  /** `DifficultyLevel(v)`: the level whose value is `v`, if there is one. */
  function DifficultyFromValue(v: string): (r: Option<DifficultyLevel>)
    ensures r.Some? ==> DifficultyValue(r.value) == v
    ensures r.None? ==> forall d :: DifficultyValue(d) != v
  {
    if v == "easy" then Some(Easy)
    else if v == "medium" then Some(Medium)
    else if v == "hard" then Some(Hard)
    else None
  }

  const AllDifficulties: seq<DifficultyLevel> := [Easy, Medium, Hard]

  /** The enum is exactly easy, medium and hard, each found again from its value. */
  lemma {:induction false} DifficultiesClosed()
    ensures forall d :: d in AllDifficulties
    ensures forall d :: DifficultyFromValue(DifficultyValue(d)) == Some(d)
  {
    forall d ensures d in AllDifficulties {
      match d
      case Easy => assert AllDifficulties[0] == d;
      case Medium => assert AllDifficulties[1] == d;
      case Hard => assert AllDifficulties[2] == d;
    }
    forall d ensures DifficultyFromValue(DifficultyValue(d)) == Some(d) {
      match d
      case Easy => assert DifficultyValue(d) == "easy";
      case Medium => assert DifficultyValue(d) == "medium";
      case Hard => assert DifficultyValue(d) == "hard";
    }
  }

  /**
   * A test case. `id` is an `id` key the stored document may carry besides the
   * declared fields (the API never writes one; the judge names cases without it).
   */
  datatype TestCase = TestCase(input: string, output: string, isSample: bool, id: Option<string>)

  /** A test case built from its input and expected output: not a sample, no stored id. */
  function NewTestCase(input: string, output: string): (t: TestCase)
    ensures t.input == input && t.output == output
    ensures !t.isSample && t.id.None?
  {
    TestCase(input, output, false, None)
  }

  /** The default limits, shared with the judge's fallbacks. */
  const DefaultTimeLimit: int := 1000   // ms
  const DefaultMemoryLimit: int := 256  // MB

  datatype Problem = Problem(
    title: string,
    description: string,
    difficulty: DifficultyLevel,
    tags: seq<string>,
    timeLimit: int,
    memoryLimit: int,
    createdAt: Time,
    updatedAt: Time,
    authorId: Id,
    isPublic: bool,
    testCases: seq<TestCase>,
    sampleTestCases: seq<TestCase>,
    hasSpecialJudge: bool,
    specialJudgeCode: Option<string>,
    submissionCount: int,
    acceptedCount: int,
    customId: Option<string>)    // the `custom_id` key; `None` for null or absent

  /** A problem built from its required fields, the others defaulted. */
  function NewProblem(title: string, description: string, difficulty: DifficultyLevel,
                      authorId: Id, createdAt: Time, updatedAt: Time): (p: Problem)
    ensures p.title == title && p.description == description && p.difficulty == difficulty
    ensures p.authorId == authorId && p.createdAt == createdAt && p.updatedAt == updatedAt
    ensures p.tags == [] && p.isPublic
    ensures p.timeLimit == 1000 && p.memoryLimit == 256
    ensures p.testCases == [] && p.sampleTestCases == []
    ensures !p.hasSpecialJudge && p.specialJudgeCode.None?
    ensures p.submissionCount == 0 && p.acceptedCount == 0
    ensures p.customId.None?
  {
    Problem(title, description, difficulty, [], DefaultTimeLimit, DefaultMemoryLimit,
            createdAt, updatedAt, authorId, true, [], [], false, None, 0, 0, None)
  }

  /** A problem is visible to a caller when it is public or the caller wrote it. */
  predicate VisibleTo(p: Problem, callerId: Id) {
    p.isPublic || p.authorId == callerId
  }
}
