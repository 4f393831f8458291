/**
 * The submission endpoints: intake of a new submission (which schedules the
 * judge), reading one submission, and listing submissions with filters,
 * newest first. Ordinary users see only their own submissions; an admin sees
 * every submission.
 */
module SubmissionsApi {
  import opened Wrappers
  import opened SubmissionModel
  import opened ProblemModel
  import opened UserModel
  import opened Store
  import opened Http

  const ProblemNotFoundDetail: string := "Problem not found or access denied"
  const SubmissionNotFoundDetail: string := "Submission not found or access denied"

  /** The body of a submission request. */
  datatype SubmissionCreate = SubmissionCreate(problemId: Id, code: string, language: Language)

  /** A query parameter that is given and non-empty (`if problem_id:`). */
  predicate Given(o: Option<string>) {
    o.Some? && o.value != ""
  }

  // ---------------------------------------------------------------- intake

  /**
   * `create_submission`: the problem must exist and be visible to the caller;
   * the new record is pending, unmeasured and without results, and the
   * problem's submission counter goes up by one. Judging happens later, in a
   * background task, and is not part of this call.
   */
  method CreateSubmission(db: Database, input: SubmissionCreate, callerId: Id, newId: Id, now: Time)
    returns (r: Result<(Id, Submission), HttpError>)
    requires db.Valid() && newId !in db.submissions.rows
    modifies db
    ensures db.Valid()
    ensures db.users == old(db.users) && db.config == old(db.config)
    ensures r.Err? <==> !(input.problemId in old(db.problems.rows) && VisibleTo(old(db.problems.rows[input.problemId]), callerId))
    ensures r.Err? ==>
      r.error == HttpError(NotFound, ProblemNotFoundDetail) &&
      db.submissions == old(db.submissions) && db.problems == old(db.problems)
    ensures r.Ok? ==>
      var p := old(db.problems.rows[input.problemId]);
      && r.value == (newId, NewSubmission(input.problemId, callerId, input.code, input.language, now))
      && db.submissions == old(db.submissions).Insert(newId, r.value.1)
      && db.problems == old(db.problems).Put(input.problemId, p.(submissionCount := p.submissionCount + 1))
  {
    if !(input.problemId in db.problems.rows && VisibleTo(db.problems.rows[input.problemId], callerId)) {
      return Err(HttpError(NotFound, ProblemNotFoundDetail));
    }
    var sub := NewSubmission(input.problemId, callerId, input.code, input.language, now);
    db.submissions := db.submissions.Insert(newId, sub);
    var p := db.problems.rows[input.problemId];
    db.problems := db.problems.Put(input.problemId, p.(submissionCount := p.submissionCount + 1));
    r := Ok((newId, db.submissions.rows[newId]));
  }

  // ---------------------------------------------------------------- one submission

  /**
   * `read_submission`: the query is the id, plus the caller's own id unless
   * the caller is an admin; a miss is a 404 either way.
   */
  function ReadSubmission(submissions: Table<Submission>, submissionId: Id, caller: UserRecord, callerId: Id): (r: Result<Submission, HttpError>)
    ensures r.Ok? <==> submissionId in submissions.rows && (IsAdmin(caller) || submissions.rows[submissionId].userId == callerId)
    ensures r.Ok? ==> r.value == submissions.rows[submissionId]
    ensures r.Err? ==> r.error == HttpError(NotFound, SubmissionNotFoundDetail)
  {
    var owner := if !IsAdmin(caller) then Some(callerId) else None;
    if submissionId in submissions.rows && (owner.None? || submissions.rows[submissionId].userId == owner.value) then
      Ok(submissions.rows[submissionId])
    else
      Err(HttpError(NotFound, SubmissionNotFoundDetail))
  }

  /** The submitter finds a fresh submission under its new id right after intake. */
  lemma {:induction false} CreatedIsReadable(submissions: Table<Submission>, newId: Id, input: SubmissionCreate, caller: UserRecord, callerId: Id, now: Time)
    requires newId !in submissions.rows
    ensures var s := NewSubmission(input.problemId, callerId, input.code, input.language, now);
      ReadSubmission(submissions.Insert(newId, s), newId, caller, callerId) == Ok(s)
  {
  }

  /** A user who is not an admin never reads somebody else's submission. */
  lemma {:induction false} ReadOnlyOwn(submissions: Table<Submission>, submissionId: Id, caller: UserRecord, callerId: Id)
    requires !IsAdmin(caller)
    ensures ReadSubmission(submissions, submissionId, caller, callerId).Ok? ==>
      ReadSubmission(submissions, submissionId, caller, callerId).value.userId == callerId
  {
  }

  // ---------------------------------------------------------------- listing

  /** The equality filters of a listing; an absent field does not filter. */
  datatype SubmissionQuery = SubmissionQuery(userId: Option<Id>, problemId: Option<Id>, status: Option<string>)

  predicate Matches(q: SubmissionQuery, s: Submission) {
    && (q.userId.Some? ==> s.userId == q.userId.value)
    && (q.problemId.Some? ==> s.problemId == q.problemId.value)
    && (q.status.Some? ==> StatusValue(s.status) == q.status.value)
  }

  /**
   * The query `read_submissions` builds: a user who is not an admin is always
   * restricted to their own id, whatever `user_id` says; an admin is
   * restricted only by a given `user_id`; `problem_id` and `status` filter
   * when given.
   */
  function ListQuery(caller: UserRecord, callerId: Id, userId: Option<string>, problemId: Option<string>, status: Option<string>): (q: SubmissionQuery)
    ensures !IsAdmin(caller) ==> q.userId == Some(callerId)
    ensures IsAdmin(caller) ==> q.userId == if Given(userId) then userId else None
    ensures q.problemId == if Given(problemId) then problemId else None
    ensures q.status == if Given(status) then status else None
  {
    var owner := if !IsAdmin(caller) then Some(callerId) else if Given(userId) then userId else None;
    SubmissionQuery(owner, if Given(problemId) then problemId else None, if Given(status) then status else None)
  }

  /** The ordering key of a listed document: its submission time. */
  function SubmittedAt(doc: (Id, Submission)): int {
    doc.1.submittedAt
  }

  /** The matching documents, newest first, before skip and limit. */
  function Matching(submissions: Table<Submission>, q: SubmissionQuery): seq<(Id, Submission)>
    requires submissions.Wf()
  {
    var ids := submissions.Select(s => Matches(q, s));
    SortDescending(submissions.Documents(ids), SubmittedAt)
  }

  /**
   * `read_submissions`: the query is built field by field, the matches are
   * sorted newest first, then skipped and limited. Each document is paired
   * with its id, which is what renaming `_id` to `id` gives.
   */
  method ReadSubmissions(db: Database, caller: UserRecord, callerId: Id, skip: nat, limit: nat,
                         problemId: Option<string>, userId: Option<string>, status: Option<string>)
    returns (r: seq<(Id, Submission)>)
    requires db.Valid()
    ensures r == Window(Matching(db.submissions, ListQuery(caller, callerId, userId, problemId, status)), skip, limit)
  {
    var query := SubmissionQuery(None, None, None);
    if !IsAdmin(caller) {
      query := query.(userId := Some(callerId));
    } else if Given(userId) {
      query := query.(userId := userId);
    }
    if Given(problemId) {
      query := query.(problemId := problemId);
    }
    if Given(status) {
      query := query.(status := status);
    }
    assert query == ListQuery(caller, callerId, userId, problemId, status);
    r := Window(Matching(db.submissions, query), skip, limit);
  }

  /**
   * Everything a listing returns is a stored submission that passes the
   * filters, and the page is newest first and at most `limit` long.
   */
  lemma {:induction false} ListingSound(submissions: Table<Submission>, q: SubmissionQuery, skip: nat, limit: nat)
    requires submissions.Wf()
    ensures var page := Window(Matching(submissions, q), skip, limit);
      && |page| <= limit
      && Descending(page, SubmittedAt)
      && forall k :: 0 <= k < |page| ==>
           page[k].0 in submissions.rows && page[k].1 == submissions.rows[page[k].0] && Matches(q, page[k].1)
  {
    var ids := submissions.Select(s => Matches(q, s));
    var docs := submissions.Documents(ids);
    var all := Matching(submissions, q);
    SortedDescending(docs, SubmittedAt);
    WindowDescending(all, SubmittedAt, skip, limit);
    var page := Window(all, skip, limit);
    forall k | 0 <= k < |page|
      ensures page[k].0 in submissions.rows && page[k].1 == submissions.rows[page[k].0] && Matches(q, page[k].1)
    {
      assert page[k] == all[skip + k];
      MatchingMember(submissions, q, all[skip + k]);
    }
  }

  /** Every element of the sorted matches is a stored submission that passes the filters. */
  lemma {:induction false} MatchingMember(submissions: Table<Submission>, q: SubmissionQuery, x: (Id, Submission))
    requires submissions.Wf() && x in Matching(submissions, q)
    ensures x.0 in submissions.rows && x.1 == submissions.rows[x.0] && Matches(q, x.1)
  {
    var ids := submissions.Select(s => Matches(q, s));
    var docs := submissions.Documents(ids);
    assert x in multiset(docs);
    var j :| 0 <= j < |docs| && docs[j] == x;
  }

  /** A first page long enough holds every stored submission that passes the filters. */
  lemma {:induction false} ListingComplete(submissions: Table<Submission>, q: SubmissionQuery, limit: nat, id: Id)
    requires submissions.Wf()
    requires id in submissions.rows && Matches(q, submissions.rows[id])
    requires |Matching(submissions, q)| <= limit
    ensures (id, submissions.rows[id]) in Window(Matching(submissions, q), 0, limit)
  {
    var ids := submissions.Select(s => Matches(q, s));
    var docs := submissions.Documents(ids);
    var j :| 0 <= j < |ids| && ids[j] == id;
    assert docs[j] == (id, submissions.rows[id]);
    assert docs[j] in multiset(Matching(submissions, q));
    assert Window(Matching(submissions, q), 0, limit) == Matching(submissions, q);
  }

  /** Listing as a user who is not an admin only ever returns that user's submissions. */
  lemma {:induction false} ListingOnlyOwn(submissions: Table<Submission>, caller: UserRecord, callerId: Id, skip: nat, limit: nat,
                       problemId: Option<string>, userId: Option<string>, status: Option<string>)
    requires submissions.Wf() && !IsAdmin(caller)
    ensures var page := Window(Matching(submissions, ListQuery(caller, callerId, userId, problemId, status)), skip, limit);
      forall k :: 0 <= k < |page| ==> page[k].1.userId == callerId
  {
    ListingSound(submissions, ListQuery(caller, callerId, userId, problemId, status), skip, limit);
  }
}
