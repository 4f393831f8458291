/**
 * The problem endpoints: create, update, read (by custom id first, then by
 * internal id), list the public problems, and delete. A problem is visible to
 * a caller when it is public or the caller wrote it.
 */
module ProblemsApi {
  import opened Wrappers
  import opened SubmissionModel
  import opened ProblemModel
  import opened Store
  import opened Http

  const ProblemNotFoundDetail: string := "Problem not found"
  const ProblemHiddenDetail: string := "Problem not found or access denied"

  /** `f"{custom_id}"`: a missing custom id prints as `None`. */
  function CustomIdText(c: Option<string>): string {
    match c
    case None => "None"
    case Some(s) => s
  }

  function DuplicateDetail(c: Option<string>): string {
    "Problem with custom ID '" + CustomIdText(c) + "' already exists"
  }

  /** A custom id that is given and non-empty. */
  predicate Named(c: Option<string>) {
    c.Some? && c.value != ""
  }

  /** No two problems share a non-empty custom id. */
  ghost predicate CustomIdsUnique(problems: Table<Problem>) {
    forall a, b :: a in problems.rows && b in problems.rows && a != b && Named(problems.rows[a].customId) ==>
      problems.rows[a].customId != problems.rows[b].customId
  }

  // ---------------------------------------------------------------- create

  /** The body of a create request, with the schema's defaults already applied. */
  datatype ProblemCreate = ProblemCreate(
    title: string,
    description: string,
    difficulty: DifficultyLevel,
    tags: seq<string>,
    timeLimit: int,
    memoryLimit: int,
    isPublic: bool,
    hasSpecialJudge: bool,
    customId: Option<string>,
    testCases: seq<TestCase>,
    sampleTestCases: seq<TestCase>,
    specialJudgeCode: Option<string>)

  /**
   * The stored document: the request's fields, the caller as author, the two
   * timestamps, and both counters at 0.
   */
  function FromCreate(input: ProblemCreate, authorId: Id, createdAt: Time, updatedAt: Time): (p: Problem)
    ensures p.authorId == authorId && p.createdAt == createdAt && p.updatedAt == updatedAt
    ensures p.submissionCount == 0 && p.acceptedCount == 0
    ensures p.customId == input.customId && p.testCases == input.testCases && p.isPublic == input.isPublic
  {
    Problem(input.title, input.description, input.difficulty, input.tags, input.timeLimit, input.memoryLimit,
            createdAt, updatedAt, authorId, input.isPublic, input.testCases, input.sampleTestCases,
            input.hasSpecialJudge, input.specialJudgeCode, 0, 0, input.customId)
  }

  /**
   * The duplicate check of `create_problem`: `find_one({"custom_id": c})`.
   * For a missing custom id the query is a null match, which also hits every
   * stored problem without one.
   */
  predicate CustomIdTaken(problems: Table<Problem>, c: Option<string>)
    requires problems.Wf()
  {
    problems.FindFirst((p: Problem) => p.customId == c).Some?
  }

  /** The check is taken exactly when some stored problem has the same custom id value. */
  lemma {:induction false} CustomIdTakenIff(problems: Table<Problem>, c: Option<string>)
    requires problems.Wf()
    ensures CustomIdTaken(problems, c) <==> exists id :: id in problems.rows && problems.rows[id].customId == c
  {
    var found := problems.FindFirst((p: Problem) => p.customId == c);
    if !CustomIdTaken(problems, c) {
      forall id | id in problems.rows ensures problems.rows[id].customId != c {
        assert !((p: Problem) => p.customId == c)(problems.rows[id]);
      }
    }
  }

  /**
   * Once one problem without a custom id is stored, every later problem
   * created without one is refused as a duplicate of `None`.
   */
  lemma {:induction false} AnonymousProblemsCollide(problems: Table<Problem>, id: Id)
    requires problems.Wf() && id in problems.rows && problems.rows[id].customId.None?
    ensures CustomIdTaken(problems, None)
    ensures DuplicateDetail(None) == "Problem with custom ID 'None' already exists"
  {
    CustomIdTakenIff(problems, None);
  }

  /** Creating only after the duplicate check keeps non-empty custom ids unique. */
  lemma {:induction false} CreateKeepsCustomIdsUnique(problems: Table<Problem>, newId: Id, p: Problem)
    requires problems.Wf() && newId !in problems.rows && CustomIdsUnique(problems)
    requires !CustomIdTaken(problems, p.customId)
    ensures CustomIdsUnique(problems.Insert(newId, p))
  {
    CustomIdTakenIff(problems, p.customId);
  }

  /**
   * `create_problem`: refused with 400 when the custom id value is already
   * stored; otherwise the problem is inserted and returned with its new id.
   */
  method CreateProblem(db: Database, input: ProblemCreate, callerId: Id, newId: Id, createdAt: Time, updatedAt: Time)
    returns (r: Result<(Id, Problem), HttpError>)
    requires db.Valid() && newId !in db.problems.rows
    modifies db
    ensures db.Valid()
    ensures db.submissions == old(db.submissions) && db.users == old(db.users) && db.config == old(db.config)
    ensures r.Err? <==> exists id :: id in old(db.problems.rows) && old(db.problems.rows[id]).customId == input.customId
    ensures r.Err? ==> r.error == HttpError(BadRequest, DuplicateDetail(input.customId)) && db.problems == old(db.problems)
    ensures r.Ok? ==>
      && r.value == (newId, FromCreate(input, callerId, createdAt, updatedAt))
      && db.problems == old(db.problems).Insert(newId, r.value.1)
    ensures CustomIdsUnique(old(db.problems)) ==> CustomIdsUnique(db.problems)
  {
    CustomIdTakenIff(db.problems, input.customId);
    if CustomIdTaken(db.problems, input.customId) {
      return Err(HttpError(BadRequest, DuplicateDetail(input.customId)));
    }
    var p := FromCreate(input, callerId, createdAt, updatedAt);
    if CustomIdsUnique(db.problems) {
      CreateKeepsCustomIdsUnique(db.problems, newId, p);
    }
    db.problems := db.problems.Insert(newId, p);
    r := Ok((newId, db.problems.rows[newId]));
  }

  // ---------------------------------------------------------------- update

  /**
   * The fields an update request explicitly sets (`exclude_unset=True`);
   * `None` is a field left unset.
   */
  datatype ProblemUpdate = ProblemUpdate(
    title: Option<string>,
    description: Option<string>,
    difficulty: Option<DifficultyLevel>,
    tags: Option<seq<string>>,
    timeLimit: Option<int>,
    memoryLimit: Option<int>,
    isPublic: Option<bool>,
    hasSpecialJudge: Option<bool>,
    testCases: Option<seq<TestCase>>,
    sampleTestCases: Option<seq<TestCase>>,
    specialJudgeCode: Option<string>,
    customId: Option<string>)

  function Choose<T>(given: Option<T>, current: T): T {
    if given.Some? then given.value else current
  }

  /** `$set` of the explicitly set fields and `updated_at`. */
  function ApplyUpdate(p: Problem, u: ProblemUpdate, now: Time): (r: Problem)
    ensures r.updatedAt == now
    ensures r.createdAt == p.createdAt && r.authorId == p.authorId
    ensures r.submissionCount == p.submissionCount && r.acceptedCount == p.acceptedCount
    ensures r.title == (if u.title.Some? then u.title.value else p.title)
    ensures r.description == (if u.description.Some? then u.description.value else p.description)
    ensures r.difficulty == (if u.difficulty.Some? then u.difficulty.value else p.difficulty)
    ensures r.tags == (if u.tags.Some? then u.tags.value else p.tags)
    ensures r.timeLimit == (if u.timeLimit.Some? then u.timeLimit.value else p.timeLimit)
    ensures r.memoryLimit == (if u.memoryLimit.Some? then u.memoryLimit.value else p.memoryLimit)
    ensures r.isPublic == (if u.isPublic.Some? then u.isPublic.value else p.isPublic)
    ensures r.hasSpecialJudge == (if u.hasSpecialJudge.Some? then u.hasSpecialJudge.value else p.hasSpecialJudge)
    ensures u.testCases.Some? ==> r.testCases == u.testCases.value
    ensures u.testCases.None? ==> r.testCases == p.testCases
    ensures r.sampleTestCases == (if u.sampleTestCases.Some? then u.sampleTestCases.value else p.sampleTestCases)
    ensures u.specialJudgeCode.Some? ==> r.specialJudgeCode == u.specialJudgeCode
    ensures u.specialJudgeCode.None? ==> r.specialJudgeCode == p.specialJudgeCode
    ensures u.customId.Some? ==> r.customId == u.customId
    ensures u.customId.None? ==> r.customId == p.customId
  {
    p.(title := Choose(u.title, p.title),
       description := Choose(u.description, p.description),
       difficulty := Choose(u.difficulty, p.difficulty),
       tags := Choose(u.tags, p.tags),
       timeLimit := Choose(u.timeLimit, p.timeLimit),
       memoryLimit := Choose(u.memoryLimit, p.memoryLimit),
       isPublic := Choose(u.isPublic, p.isPublic),
       hasSpecialJudge := Choose(u.hasSpecialJudge, p.hasSpecialJudge),
       testCases := Choose(u.testCases, p.testCases),
       sampleTestCases := Choose(u.sampleTestCases, p.sampleTestCases),
       specialJudgeCode := if u.specialJudgeCode.Some? then u.specialJudgeCode else p.specialJudgeCode,
       customId := if u.customId.Some? then u.customId else p.customId,
       updatedAt := now)
  }

  /** An update that sets nothing only moves `updated_at`. */
  lemma {:induction false} EmptyUpdateTouchesOnlyTime(p: Problem, now: Time)
    ensures ApplyUpdate(p, ProblemUpdate(None, None, None, None, None, None, None, None, None, None, None, None), now)
      == p.(updatedAt := now)
  {
  }

  /** Sending the same update twice changes nothing the first one did not. */
  lemma {:induction false} UpdateIdempotent(p: Problem, u: ProblemUpdate, now: Time)
    ensures ApplyUpdate(ApplyUpdate(p, u, now), u, now) == ApplyUpdate(p, u, now)
  {
  }

  /** Whether the update's non-empty custom id is already used by another problem. */
  predicate UsedElsewhere(problems: Table<Problem>, problemId: Id, c: Option<string>) {
    exists id :: id in problems.rows && id != problemId && problems.rows[id].customId == c
  }

  /** Updating only after the `$ne` duplicate check keeps non-empty custom ids unique. */
  lemma {:induction false} UpdateKeepsCustomIdsUnique(problems: Table<Problem>, problemId: Id, u: ProblemUpdate, now: Time)
    requires problemId in problems.rows && CustomIdsUnique(problems)
    requires Named(u.customId) ==> !UsedElsewhere(problems, problemId, u.customId)
    ensures CustomIdsUnique(problems.Put(problemId, ApplyUpdate(problems.rows[problemId], u, now)))
  {
    var after := problems.Put(problemId, ApplyUpdate(problems.rows[problemId], u, now));
    forall a, b | a in after.rows && b in after.rows && a != b && Named(after.rows[a].customId)
      ensures after.rows[a].customId != after.rows[b].customId
    {
      if a == problemId && u.customId.Some? {
        assert !UsedElsewhere(problems, problemId, u.customId);
        assert problems.rows[b].customId != u.customId;
      } else if b == problemId && u.customId.Some? {
        assert after.rows[b].customId == u.customId;
        assert problems.rows[a].customId == after.rows[a].customId;
      }
    }
  }

  /**
   * `update_problem`: 404 for an unknown id; 400 when a non-empty custom id is
   * set that another problem already has; otherwise the set fields and
   * `updated_at` are written. A non-empty test-case list is first `$unset`,
   * then written; either way the new list replaces the old one.
   */
  method UpdateProblem(db: Database, problemId: Id, u: ProblemUpdate, now: Time)
    returns (r: Result<(Id, Problem), HttpError>)
    requires db.Valid()
    modifies db
    ensures db.Valid()
    ensures db.submissions == old(db.submissions) && db.users == old(db.users) && db.config == old(db.config)
    ensures problemId !in old(db.problems.rows) ==>
      r == Err(HttpError(NotFound, ProblemNotFoundDetail)) && db.problems == old(db.problems)
    ensures problemId in old(db.problems.rows) && Named(u.customId) && UsedElsewhere(old(db.problems), problemId, u.customId) ==>
      r == Err(HttpError(BadRequest, DuplicateDetail(u.customId))) && db.problems == old(db.problems)
    ensures problemId in old(db.problems.rows) && !(Named(u.customId) && UsedElsewhere(old(db.problems), problemId, u.customId)) ==>
      && r.Ok?
      && r.value == (problemId, ApplyUpdate(old(db.problems.rows[problemId]), u, now))
      && db.problems == old(db.problems).Put(problemId, r.value.1)
    ensures CustomIdsUnique(old(db.problems)) ==> CustomIdsUnique(db.problems)
  {
    if problemId !in db.problems.rows {
      return Err(HttpError(NotFound, ProblemNotFoundDetail));
    }
    if Named(u.customId) && UsedElsewhere(db.problems, problemId, u.customId) {
      return Err(HttpError(BadRequest, DuplicateDetail(u.customId)));
    }
    if CustomIdsUnique(db.problems) {
      UpdateKeepsCustomIdsUnique(db.problems, problemId, u, now);
    }
    var updated := WriteUpdate(db, problemId, u, now);
    r := Ok((problemId, updated));
  }

  /**
   * The writes of `update_problem` for a known problem: the `$unset` of a
   * test-case list about to be replaced, then the `$set` of the update.
   */
  method WriteUpdate(db: Database, problemId: Id, u: ProblemUpdate, now: Time) returns (updated: Problem)
    requires db.Valid() && problemId in db.problems.rows
    modifies db
    ensures db.Valid()
    ensures db.submissions == old(db.submissions) && db.users == old(db.users) && db.config == old(db.config)
    ensures updated == ApplyUpdate(old(db.problems.rows[problemId]), u, now)
    ensures db.problems == old(db.problems).Put(problemId, updated)
  {
    ghost var problems0 := db.problems;
    var original := db.problems.rows[problemId];
    var current := original;
    if u.testCases.Some? && u.testCases.value != [] {
      current := current.(testCases := []);
      db.problems := db.problems.Put(problemId, current);
    }
    updated := ApplyUpdate(current, u, now);
    assert updated == ApplyUpdate(original, u, now);
    problems0.PutPut(problemId, current, updated);
    db.problems := db.problems.Put(problemId, updated);
  }

  // ---------------------------------------------------------------- read

  /** The lookup `read_problem` tries first: a visible problem whose custom id is the key. */
  function ByCustomId(problems: Table<Problem>, key: string, callerId: Id): (r: Option<Id>)
    requires problems.Wf()
    ensures r.Some? ==> r.value in problems.rows && problems.rows[r.value].customId == Some(key) && VisibleTo(problems.rows[r.value], callerId)
    ensures r.None? ==> forall id :: id in problems.rows && VisibleTo(problems.rows[id], callerId) ==> problems.rows[id].customId != Some(key)
  {
    var found := problems.FindFirst((p: Problem) => p.customId == Some(key) && VisibleTo(p, callerId));
    assert found.None? ==> forall id :: id in problems.rows ==> !((p: Problem) => p.customId == Some(key) && VisibleTo(p, callerId))(problems.rows[id]);
    found
  }

  /**
   * `read_problem`: a visible problem with the key as custom id, else a
   * visible problem with the key as internal id, else 404.
   */
  function ReadProblem(problems: Table<Problem>, key: string, callerId: Id): (r: Result<(Id, Problem), HttpError>)
    requires problems.Wf()
    ensures r.Ok? ==> r.value.0 in problems.rows && r.value.1 == problems.rows[r.value.0] && VisibleTo(r.value.1, callerId)
    ensures r.Ok? ==> r.value.1.customId == Some(key) || r.value.0 == key
    ensures (exists id :: id in problems.rows && VisibleTo(problems.rows[id], callerId) && problems.rows[id].customId == Some(key)) ==>
      r.Ok? && r.value.1.customId == Some(key)
    ensures r.Err? <==>
      (forall id :: id in problems.rows && VisibleTo(problems.rows[id], callerId) ==> problems.rows[id].customId != Some(key)) &&
      !(key in problems.rows && VisibleTo(problems.rows[key], callerId))
    ensures r.Err? ==> r.error == HttpError(NotFound, ProblemHiddenDetail)
  {
    var byCustom := ByCustomId(problems, key, callerId);
    if byCustom.Some? then Ok((byCustom.value, problems.rows[byCustom.value]))
    else if key in problems.rows && VisibleTo(problems.rows[key], callerId) then Ok((key, problems.rows[key]))
    else Err(HttpError(NotFound, ProblemHiddenDetail))
  }

  // ---------------------------------------------------------------- list

  /** The filters of a problem listing besides `is_public`. */
  datatype ProblemQuery = ProblemQuery(difficulty: Option<string>, tags: Option<seq<string>>)

  /** `is_public` is true, the difficulty is equal, and every requested tag is present (`$all`). */
  predicate MatchesProblem(q: ProblemQuery, p: Problem) {
    && p.isPublic
    && (q.difficulty.Some? ==> DifficultyValue(p.difficulty) == q.difficulty.value)
    && (q.tags.Some? ==> forall k :: 0 <= k < |q.tags.value| ==> q.tags.value[k] in p.tags)
  }

  /** The public problems that pass the query, in natural order. */
  function PublicMatching(problems: Table<Problem>, q: ProblemQuery): seq<(Id, Problem)>
    requires problems.Wf()
  {
    problems.Documents(problems.Select(p => MatchesProblem(q, p)))
  }

  /**
   * `read_problems`: the query starts as `is_public`, gains the difficulty and
   * the tags when they are given and non-empty, then the matches are skipped
   * and limited in natural order; each document is paired with its id, which
   * is what renaming `_id` to `id` gives.
   */
  method ReadProblems(db: Database, skip: nat, limit: nat, difficulty: Option<string>, tags: Option<seq<string>>)
    returns (r: seq<(Id, Problem)>)
    requires db.Valid()
    ensures r == Window(PublicMatching(db.problems, ProblemQuery(
      if difficulty.Some? && difficulty.value != "" then difficulty else None,
      if tags.Some? && tags.value != [] then tags else None)), skip, limit)
  {
    var query := ProblemQuery(None, None);
    if difficulty.Some? && difficulty.value != "" {
      query := query.(difficulty := difficulty);
    }
    if tags.Some? && tags.value != [] {
      query := query.(tags := tags);
    }
    r := Window(PublicMatching(db.problems, query), skip, limit);
  }

  /**
   * A listing holds only stored public problems that pass the filters, in
   * natural order, at most `limit` of them; a long enough first page holds
   * all of them.
   */
  lemma {:induction false} ProblemListingExact(problems: Table<Problem>, q: ProblemQuery, limit: nat)
    requires problems.Wf()
    ensures var page := Window(PublicMatching(problems, q), 0, limit);
      && (forall k :: 0 <= k < |page| ==>
            page[k].0 in problems.rows && page[k].1 == problems.rows[page[k].0] && MatchesProblem(q, page[k].1))
      && (|PublicMatching(problems, q)| <= limit ==>
            forall id :: id in problems.rows && MatchesProblem(q, problems.rows[id]) ==> (id, problems.rows[id]) in page)
  {
    var ids := problems.Select(p => MatchesProblem(q, p));
    var page := Window(PublicMatching(problems, q), 0, limit);
    if |PublicMatching(problems, q)| <= limit {
      forall id | id in problems.rows && MatchesProblem(q, problems.rows[id])
        ensures (id, problems.rows[id]) in page
      {
        var j :| 0 <= j < |ids| && ids[j] == id;
        assert page[j] == (id, problems.rows[id]);
      }
    }
  }

  // ---------------------------------------------------------------- delete

  /** `delete_problem`: 404 for an unknown id, otherwise the problem is gone and nothing else changes. */
  method DeleteProblem(db: Database, problemId: Id) returns (r: Result<(), HttpError>)
    requires db.Valid()
    modifies db
    ensures db.Valid()
    ensures db.submissions == old(db.submissions) && db.users == old(db.users) && db.config == old(db.config)
    ensures problemId !in old(db.problems.rows) ==> r == Err(HttpError(NotFound, ProblemNotFoundDetail)) && db.problems == old(db.problems)
    ensures problemId in old(db.problems.rows) ==> r == Ok(()) && db.problems == old(db.problems).Remove(problemId)
    ensures problemId !in db.problems.rows
  {
    if problemId !in db.problems.rows {
      return Err(HttpError(NotFound, ProblemNotFoundDetail));
    }
    db.problems := db.problems.Remove(problemId);
    r := Ok(());
  }
}
