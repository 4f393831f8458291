/**
 * The MongoDB database the backend talks to, as a sequential store: one table
 * per collection (submissions, problems, users), each a map from document id
 * to record plus the collection's natural order, and the system-config
 * singleton document. `find_one` returns the first match in natural order.
 */
module Store {
  import opened Wrappers
  import opened SubmissionModel
  import opened ProblemModel
  import opened UserModel
  import PyDict

  /** A collection: its documents by id and the order they were inserted in. */
  datatype Table<T> = Table(rows: map<Id, T>, order: seq<Id>) {

    /** Every listed id is stored, every stored id is listed, and none is listed twice. */
    predicate Wf() {
      && PyDict.Distinct(order)
      && (forall i :: 0 <= i < |order| ==> order[i] in rows)
      && (forall id :: id in rows ==> id in order)
    }

    /** `insert_one` with a fresh id: the document goes last. */
    function Insert(id: Id, row: T): (t: Table<T>)
      requires id !in rows
      ensures t.rows == rows[id := row] && t.order == order + [id]
      ensures Wf() ==> t.Wf()
    {
      Table(rows[id := row], order + [id])
    }

    /** An update of a stored document: its place in the order is kept. */
    function Put(id: Id, row: T): (t: Table<T>)
      requires id in rows
      ensures t.rows == rows[id := row] && t.order == order
      ensures Wf() ==> t.Wf()
    {
      Table(rows[id := row], order)
    }

    /** A second update of the same document overrides the first. */
    lemma {:induction false} PutPut(id: Id, a: T, b: T)
      requires id in rows
      ensures Put(id, a).Put(id, b) == Put(id, b)
    {
      assert rows[id := a][id := b] == rows[id := b];
    }

    /** `delete_one` by id: the document leaves both the map and the order. */
    function Remove(id: Id): (t: Table<T>)
      ensures t.rows == rows - {id}
      ensures forall x :: x in t.order <==> x in order && x != id
      ensures Wf() ==> t.Wf()
    {
      var t := Table(rows - {id}, Without(order, id));
      assert Wf() ==> forall x :: x in order ==> x in rows;
      assert forall i :: 0 <= i < |t.order| ==> t.order[i] in t.order;
      t
    }

    /** `find_one(query)`: the first document in natural order that satisfies `p`. */
    function FindFirst(p: T -> bool): (r: Option<Id>)
      requires Wf()
      ensures r.Some? ==> r.value in rows && p(rows[r.value])
      ensures r.None? ==> forall id :: id in rows ==> !p(rows[id])
    {
      FirstFrom(p, 0)
    }

    function FirstFrom(p: T -> bool, i: nat): (r: Option<Id>)
      requires Wf() && i <= |order|
      ensures r.Some? ==> r.value in rows && p(rows[r.value])
      ensures r.None? ==> forall k :: i <= k < |order| ==> !p(rows[order[k]])
      decreases |order| - i
    {
      if i == |order| then None
      else if p(rows[order[i]]) then Some(order[i])
      else FirstFrom(p, i + 1)
    }

    /** `find(query)`: the ids of the matching documents, in natural order. */
    function Select(p: T -> bool): (ids: seq<Id>)
      requires Wf()
      ensures forall x :: x in ids <==> x in rows && p(rows[x])
      ensures PyDict.Distinct(ids)
    {
      SelectFrom(p, 0)
    }

    function SelectFrom(p: T -> bool, i: nat): (ids: seq<Id>)
      requires Wf() && i <= |order|
      ensures forall x :: x in ids <==> x in order[i..] && p(rows[x])
      ensures PyDict.Distinct(ids)
      decreases |order| - i
    {
      if i == |order| then []
      else
        var rest := SelectFrom(p, i + 1);
        assert order[i..] == [order[i]] + order[i + 1..];
        assert order[i] !in order[i + 1..];
        if p(rows[order[i]]) then [order[i]] + rest else rest
    }

    /** The documents with the given ids, each paired with its id (the `_id` renamed to `id`). */
    function Documents(ids: seq<Id>): (docs: seq<(Id, T)>)
      requires forall k :: 0 <= k < |ids| ==> ids[k] in rows
      ensures |docs| == |ids|
      ensures forall k :: 0 <= k < |ids| ==> docs[k] == (ids[k], rows[ids[k]])
    {
      seq(|ids|, k requires 0 <= k < |ids| => (ids[k], rows[ids[k]]))
    }
  }

  /** The elements are in non-increasing order of `key`. */
  predicate Descending<T>(xs: seq<T>, key: T -> int) {
    forall i, j :: 0 <= i < j < |xs| ==> key(xs[i]) >= key(xs[j])
  }

  /** No element has a key above `t`. */
  predicate AtMost<T>(xs: seq<T>, key: T -> int, t: int) {
    forall k :: 0 <= k < |xs| ==> key(xs[k]) <= t
  }

  lemma {:induction false} DescendingCons<T>(a: T, xs: seq<T>, key: T -> int)
    requires Descending(xs, key) && AtMost(xs, key, key(a))
    ensures Descending([a] + xs, key)
  {
    var ys := [a] + xs;
    forall i, j | 0 <= i < j < |ys| ensures key(ys[i]) >= key(ys[j]) {
      if i == 0 {
        assert ys[j] == xs[j - 1];
      } else {
        assert ys[i] == xs[i - 1] && ys[j] == xs[j - 1];
      }
    }
  }

  /** `x` placed before the first element whose key is not above its own. */
  function InsertDescending<T>(x: T, xs: seq<T>, key: T -> int): (r: seq<T>)
    ensures multiset(r) == multiset(xs) + multiset{x}
  {
    if xs == [] then [x]
    else if key(x) >= key(xs[0]) then [x] + xs
    else
      assert xs == [xs[0]] + xs[1..];
      [xs[0]] + InsertDescending(x, xs[1..], key)
  }

  /** Inserting an element no larger than a bound keeps every key under the bound. */
  lemma {:induction false} InsertAtMost<T>(x: T, xs: seq<T>, key: T -> int, t: int)
    requires AtMost(xs, key, t) && key(x) <= t
    ensures AtMost(InsertDescending(x, xs, key), key, t)
  {
    var r := InsertDescending(x, xs, key);
    forall k | 0 <= k < |r| ensures key(r[k]) <= t {
      assert r[k] in multiset(r);
      if r[k] != x {
        assert r[k] in multiset(xs);
        var j :| 0 <= j < |xs| && xs[j] == r[k];
      }
    }
  }

  /** Inserting into a descending sequence keeps it descending. */
  lemma {:induction false} InsertDescendingSorted<T>(x: T, xs: seq<T>, key: T -> int)
    requires Descending(xs, key)
    ensures Descending(InsertDescending(x, xs, key), key)
  {
    if xs == [] {
    } else if key(x) >= key(xs[0]) {
      assert AtMost(xs, key, key(x));
      DescendingCons(x, xs, key);
    } else {
      var tail := xs[1..];
      assert forall k :: 0 <= k < |tail| ==> tail[k] == xs[k + 1];
      InsertDescendingSorted(x, tail, key);
      InsertAtMost(x, tail, key, key(xs[0]));
      DescendingCons(xs[0], InsertDescending(x, tail, key), key);
    }
  }

  /**
   * `sort(field, -1)`: the same elements, which `SortedDescending` shows are
   * in non-increasing order of the field; elements with equal keys keep their
   * natural order.
   */
  function SortDescending<T>(xs: seq<T>, key: T -> int): (r: seq<T>)
    ensures multiset(r) == multiset(xs)
  {
    if xs == [] then []
    else
      assert xs == [xs[0]] + xs[1..];
      InsertDescending(xs[0], SortDescending(xs[1..], key), key)
  }

  lemma {:induction false} SortedDescending<T>(xs: seq<T>, key: T -> int)
    ensures Descending(SortDescending(xs, key), key)
  {
    if xs != [] {
      SortedDescending(xs[1..], key);
      InsertDescendingSorted(xs[0], SortDescending(xs[1..], key), key);
    }
  }

  /**
   * `.skip(skip).limit(limit)` on a cursor: the elements from position `skip`
   * on, at most `limit` of them.
   */
  function Window<T>(xs: seq<T>, skip: nat, limit: nat): (r: seq<T>)
    ensures |r| <= limit
    ensures |r| == if skip >= |xs| then 0 else if |xs| - skip < limit then |xs| - skip else limit
    ensures forall k :: 0 <= k < |r| ==> r[k] == xs[skip + k]
  {
    if skip >= |xs| then []
    else if |xs| - skip < limit then xs[skip..]
    else xs[skip..skip + limit]
  }

  /** A page of a descending sequence is descending. */
  lemma {:induction false} WindowDescending<T>(xs: seq<T>, key: T -> int, skip: nat, limit: nat)
    requires Descending(xs, key)
    ensures Descending(Window(xs, skip, limit), key)
  {
    var r := Window(xs, skip, limit);
    forall i, j | 0 <= i < j < |r| ensures key(r[i]) >= key(r[j]) {
      assert r[i] == xs[skip + i] && r[j] == xs[skip + j];
    }
  }

  /** `s` with every occurrence of `x` taken out, the rest in order. */
  function Without(s: seq<Id>, x: Id): (r: seq<Id>)
    ensures forall y :: y in r <==> y in s && y != x
    ensures PyDict.Distinct(s) ==> PyDict.Distinct(r)
  {
    if s == [] then []
    else
      var rest := Without(s[1..], x);
      assert forall y :: y in s <==> y == s[0] || y in s[1..];
      assert PyDict.Distinct(s) ==> s[0] !in s[1..] && PyDict.Distinct(s[1..]);
      if s[0] == x then rest else [s[0]] + rest
  }

  /** The singleton document of the `system_configs` collection (its `_id` is fixed). */
  datatype ConfigDoc = ConfigDoc(allowSignup: Option<bool>, createdAt: Time, updatedAt: Time)

  /**
   * The signup gate: a stored config that says `allow_signup` is false. A
   * missing config or a missing field allows signup.
   */
  predicate SignupClosed(config: Option<ConfigDoc>) {
    config.Some? && config.value.allowSignup == Some(false)
  }

  /** No two users share a username or an email. */
  ghost predicate AccountsUnique(users: Table<UserRecord>) {
    forall a, b :: a in users.rows && b in users.rows && a != b ==>
      users.rows[a].username != users.rows[b].username && users.rows[a].email != users.rows[b].email
  }

  class Database {
    var submissions: Table<Submission>
    var problems: Table<Problem>
    var users: Table<UserRecord>
    var config: Option<ConfigDoc>

    ghost predicate Valid()
      reads this
    {
      submissions.Wf() && problems.Wf() && users.Wf() && AccountsUnique(users)
    }

    /** An empty database. */
    constructor()
      ensures Valid()
      ensures submissions.rows == map[] && problems.rows == map[] && users.rows == map[]
      ensures config.None?
    {
      submissions := Table(map[], []);
      problems := Table(map[], []);
      users := Table(map[], []);
      config := None;
    }
  }
}
