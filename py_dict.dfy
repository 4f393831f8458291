/**
 * Python's built-in `dict` as the backend uses it: an insertion-ordered table
 * with distinct keys. Assigning an existing key replaces its value where it
 * stands; assigning a new key appends it. A dict display or comprehension
 * built from a sequence of pairs is that sequence of assignments, so a key
 * keeps the place of its first occurrence and the value of its last.
 */
module PyDict {
  import opened Wrappers

  type Dict<K, V> = seq<(K, V)>

  predicate Distinct<T(==)>(s: seq<T>) {
    forall i, j :: 0 <= i < j < |s| ==> s[i] != s[j]
  }

  function Keys<K, V>(d: Dict<K, V>): (ks: seq<K>)
    ensures |ks| == |d| && forall i :: 0 <= i < |d| ==> ks[i] == d[i].0
  {
    seq(|d|, i requires 0 <= i < |d| => d[i].0)
  }

  /** A well-formed dict: no key appears twice. */
  predicate Wf<K(==), V>(d: Dict<K, V>) {
    Distinct(Keys(d))
  }

  /** The position of the first occurrence of `x` in `s`, or -1. */
  function IndexOf<T(==)>(s: seq<T>, x: T): (i: int)
    ensures -1 <= i < |s|
    ensures i == -1 <==> x !in s
    ensures i >= 0 ==> s[i] == x && x !in s[..i]
  {
    if s == [] then -1
    else if s[0] == x then 0
    else
      var j := IndexOf(s[1..], x);
      assert x in s ==> x in s[1..] by {
        if x in s { var k :| 0 <= k < |s| && s[k] == x; assert s[1..][k - 1] == x; }
      }
      assert j >= 0 ==> s[..j + 1] == [s[0]] + s[1..][..j];
      if j == -1 then -1 else j + 1
  }

  /** The first index of `x` is the only index holding `x` with no `x` before it. */
  lemma {:induction false} IndexOfUnique<T>(s: seq<T>, x: T, j: int)
    requires 0 <= j < |s| && s[j] == x && x !in s[..j]
    ensures IndexOf(s, x) == j
  {
  }

  /** `d.get(k)`: the value stored under `k`, if any. */
  function Get<K(==), V>(d: Dict<K, V>, k: K): (r: Option<V>)
    ensures r.None? <==> k !in Keys(d)
    ensures r.Some? ==> (k, r.value) in d
  {
    var i := IndexOf(Keys(d), k);
    if i < 0 then None else Some(d[i].1)
  }

  /** The first entry of a dict is what `d.get` finds under its key. */
  lemma {:induction false} GetFirst<K, V>(d: Dict<K, V>, k: K, v: V)
    requires d != [] && d[0] == (k, v)
    ensures Get(d, k) == Some(v)
  {
    IndexOfUnique(Keys(d), k, 0);
  }

  /**
   * `d[k] = v`: an existing key keeps its place, a new key goes last, and a
   * well-formed dict stays well-formed.
   */
  function Set<K(==), V>(d: Dict<K, V>, k: K, v: V): (r: Dict<K, V>)
    ensures Keys(r) == if k in Keys(d) then Keys(d) else Keys(d) + [k]
    ensures Wf(d) ==> Wf(r)
    ensures forall e :: e in r ==> e in d || e == (k, v)
  {
    var i := IndexOf(Keys(d), k);
    if i < 0 then d + [(k, v)] else d[i := (k, v)]
  }

  /** After `d[k] = v`, `k` maps to `v` and every other key keeps its value. */
  lemma {:induction false} SetGet<K, V>(d: Dict<K, V>, k: K, v: V, k': K)
    ensures Get(Set(d, k, v), k') == if k' == k then Some(v) else Get(d, k')
  {
    var i := IndexOf(Keys(d), k);
    var r := Set(d, k, v);
    if k' != k && k' in Keys(d) {
      var j := IndexOf(Keys(d), k');
      assert Keys(r)[..j] == Keys(d)[..j];
      assert Keys(r)[j] == k';
      IndexOfUnique(Keys(r), k', j);
    } else if k' == k && i >= 0 {
      assert Keys(r)[..i] == Keys(d)[..i];
    } else if k' == k {
      assert Keys(r)[..|d|] == Keys(d);
    }
  }

  /** The keys of `ks` in the order of their first occurrence. */
  function Dedup<T(==)>(ks: seq<T>): (r: seq<T>)
    ensures Distinct(r)
    ensures forall i :: 0 <= i < |r| ==> r[i] in ks
    ensures forall i :: 0 <= i < |ks| ==> ks[i] in r
  {
    if ks == [] then []
    else
      var d := Dedup(ks[..|ks| - 1]);
      assert forall i :: 0 <= i < |ks| - 1 ==> ks[i] == ks[..|ks| - 1][i];
      if ks[|ks| - 1] in d then d else d + [ks[|ks| - 1]]
  }

  /** The value of the last pair in `ps` whose key is `k`. */
  function LastValue<K(==), V>(ps: seq<(K, V)>, k: K): Option<V> {
    if ps == [] then None
    else if ps[|ps| - 1].0 == k then Some(ps[|ps| - 1].1)
    else LastValue(ps[..|ps| - 1], k)
  }

  /** The value of the last pair with key `k` is what `LastValue` finds. */
  lemma {:induction false} LastValueAt<K, V>(ps: seq<(K, V)>, i: int)
    requires 0 <= i < |ps|
    requires forall m :: i < m < |ps| ==> ps[m].0 != ps[i].0
    ensures LastValue(ps, ps[i].0) == Some(ps[i].1)
  {
    if i < |ps| - 1 {
      var init := ps[..|ps| - 1];
      assert init[i] == ps[i];
      LastValueAt(init, i);
    }
  }

  /** `{k: v for (k, v) in ps}`: the pairs assigned one after the other into an empty dict. */
  function FromPairs<K(==), V>(ps: seq<(K, V)>): (d: Dict<K, V>)
    ensures Wf(d)
  {
    if ps == [] then []
    else Set(FromPairs(ps[..|ps| - 1]), ps[|ps| - 1].0, ps[|ps| - 1].1)
  }

  /** In a dict built from pairs, the later of two pairs with the same key wins. */
  lemma {:induction false} FromPairsGet<K, V>(ps: seq<(K, V)>, k: K)
    ensures Get(FromPairs(ps), k) == LastValue(ps, k)
  {
    if ps != [] {
      FromPairsGet(ps[..|ps| - 1], k);
      SetGet(FromPairs(ps[..|ps| - 1]), ps[|ps| - 1].0, ps[|ps| - 1].1, k);
    }
  }

  /** A dict built from pairs lists its keys in the order they first appear. */
  lemma {:induction false} FromPairsKeys<K, V>(ps: seq<(K, V)>)
    ensures Keys(FromPairs(ps)) == Dedup(Keys(ps))
  {
    if ps != [] {
      var init := ps[..|ps| - 1];
      FromPairsKeys(init);
      assert Keys(ps)[..|ps| - 1] == Keys(init);
    }
  }

  /** Every entry of a dict built from pairs is one of the pairs. */
  lemma {:induction false} FromPairsEntries<K, V>(ps: seq<(K, V)>, e: (K, V))
    requires e in FromPairs(ps)
    ensures e in ps
  {
    var init := ps[..|ps| - 1];
    if e in FromPairs(init) {
      FromPairsEntries(init, e);
      assert init <= ps;
    }
  }

  /** Pairs with distinct keys already form the dict they build. */
  lemma {:induction false} FromDistinctPairs<K, V>(ps: seq<(K, V)>)
    requires Distinct(Keys(ps))
    ensures FromPairs(ps) == ps
  {
    if ps != [] {
      var init := ps[..|ps| - 1];
      assert Keys(init) == Keys(ps)[..|ps| - 1];
      FromDistinctPairs(init);
      var last := ps[|ps| - 1];
      assert last.0 !in Keys(init);
      assert init + [last] == ps;
    }
  }
}
