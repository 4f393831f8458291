/**
 * The test-case upload endpoint: uploaded files are written into a scratch
 * directory, and every `.in` file is paired with the `.out` file of the same
 * stem. A pair becomes a non-sample test case whose input and expected output
 * are the two files' contents.
 */
module TestCasesApi {
  import opened Wrappers
  import opened Text
  import PyDict
  import opened ProblemModel
  import opened Http

  const NoFilesDetail: string := "No files uploaded"

  // ---------------------------------------------------------------- file names

  /**
   * `os.path.splitext` on a bare file name. The extension starts at the last
   * dot, but only if a character other than a dot comes before that dot;
   * otherwise there is no extension.
   */
  function Splitext(name: string): (r: (string, string))
    ensures r.0 + r.1 == name
    ensures r.1 == "" || (r.1[0] == '.' && '.' !in r.1[1..])
  {
    var dot := RFindChar(name, '.');
    if dot > 0 && exists k :: 0 <= k < dot && name[k] != '.' then
      assert name[..dot] + name[dot..] == name;
      assert name[dot..][1..] == name[dot + 1..];
      (name[..dot], name[dot..])
    else
      (name, "")
  }

  /** `os.path.splitext(f)[0]`. */
  function Stem(name: string): string {
    Splitext(name).0
  }

  /** A stem with a character other than a dot, followed by an extension, splits back into the two. */
  lemma {:induction false} SplitextOfExtended(stem: string, ext: string)
    requires |ext| >= 1 && ext[0] == '.' && '.' !in ext[1..]
    requires exists k :: 0 <= k < |stem| && stem[k] != '.'
    ensures Splitext(stem + ext) == (stem, ext)
  {
    var name := stem + ext;
    var dot := RFindChar(name, '.');
    assert name[|stem|] == '.';
    assert name[|stem| + 1..] == ext[1..];
    assert dot == |stem|;
    assert name[..dot] == stem;
  }

  /**
   * A name of only dots before its suffix has no extension, so two different
   * `.in` files can share a stem: `..in` and `..in.in` both have the stem `..in`.
   */
  lemma {:induction false} DottedNamesShareStem()
    ensures Stem("..in") == "..in"
    ensures Stem("..in.in") == "..in"
  {
    assert RFindChar("..in", '.') == 1 by {
      assert "..in"[1] == '.' && '.' !in "..in"[2..];
    }
    assert "..in"[2] != '.';
    SplitextOfExtended("..in", ".in");
    assert "..in" + ".in" == "..in.in";
  }

  // ---------------------------------------------------------------- sorting

  /** Ascending in Python's string order. */
  predicate SortedNames(xs: seq<string>) {
    forall i, j :: 0 <= i < j < |xs| ==> LexLe(xs[i], xs[j])
  }

  /** Every name of `xs` is at or after `t` in string order. */
  predicate NoneBefore(xs: seq<string>, t: string) {
    forall k :: 0 <= k < |xs| ==> LexLe(t, xs[k])
  }

  function InsertName(x: string, xs: seq<string>): (r: seq<string>)
    ensures multiset(r) == multiset(xs) + multiset{x}
  {
    if xs == [] then [x]
    else if LexLe(x, xs[0]) then [x] + xs
    else
      assert xs == [xs[0]] + xs[1..];
      [xs[0]] + InsertName(x, xs[1..])
  }

  /** `list.sort()` on names: the same names, which `SortNamesSorted` shows ascending. */
  function SortNames(xs: seq<string>): (r: seq<string>)
    ensures multiset(r) == multiset(xs)
  {
    if xs == [] then []
    else
      assert xs == [xs[0]] + xs[1..];
      InsertName(xs[0], SortNames(xs[1..]))
  }

  lemma {:induction false} SortedCons(a: string, xs: seq<string>)
    requires SortedNames(xs) && NoneBefore(xs, a)
    ensures SortedNames([a] + xs)
  {
    var ys := [a] + xs;
    forall i, j | 0 <= i < j < |ys| ensures LexLe(ys[i], ys[j]) {
      if i > 0 {
        assert ys[i] == xs[i - 1] && ys[j] == xs[j - 1];
      } else {
        assert ys[j] == xs[j - 1];
      }
    }
  }

  lemma {:induction false} InsertNameNoneBefore(x: string, xs: seq<string>, t: string)
    requires NoneBefore(xs, t) && LexLe(t, x)
    ensures NoneBefore(InsertName(x, xs), t)
  {
    var r := InsertName(x, xs);
    forall k | 0 <= k < |r| ensures LexLe(t, r[k]) {
      assert r[k] in multiset(r);
      if r[k] != x {
        assert r[k] in multiset(xs);
        var j :| 0 <= j < |xs| && xs[j] == r[k];
      }
    }
  }

  lemma {:induction false} InsertNameSorted(x: string, xs: seq<string>)
    requires SortedNames(xs)
    ensures SortedNames(InsertName(x, xs))
  {
    if xs == [] {
    } else if LexLe(x, xs[0]) {
      forall k | 0 <= k < |xs| ensures LexLe(x, xs[k]) {
        if k > 0 { LexLeTransitive(x, xs[0], xs[k]); }
      }
      SortedCons(x, xs);
    } else {
      var tail := xs[1..];
      assert forall k :: 0 <= k < |tail| ==> tail[k] == xs[k + 1];
      LexLeTotal(x, xs[0]);
      InsertNameSorted(x, tail);
      InsertNameNoneBefore(x, tail, xs[0]);
      SortedCons(xs[0], InsertName(x, tail));
    }
  }

  lemma {:induction false} SortNamesSorted(xs: seq<string>)
    ensures SortedNames(SortNames(xs))
  {
    if xs != [] {
      SortNamesSorted(xs[1..]);
      InsertNameSorted(xs[0], SortNames(xs[1..]));
    }
  }

  /** The first of an ascending sequence is at or before every member. */
  lemma {:induction false} SortedFirst(a: seq<string>, x: string)
    requires SortedNames(a) && x in a
    ensures LexLe(a[0], x)
  {
    var i :| 0 <= i < |a| && a[i] == x;
    if i == 0 { LexLeReflexive(x); }
  }

  lemma {:induction false} SortedTail(a: seq<string>)
    requires SortedNames(a) && a != []
    ensures SortedNames(a[1..])
  {
    assert forall i :: 0 <= i < |a| - 1 ==> a[1..][i] == a[i + 1];
  }

  /** Two ascending arrangements of the same names are the same sequence. */
  lemma {:induction false} SortedUnique(a: seq<string>, b: seq<string>)
    requires SortedNames(a) && SortedNames(b) && multiset(a) == multiset(b)
    ensures a == b
  {
    if a == [] {
      assert |b| == |multiset(b)| == 0;
    } else {
      assert |b| == |multiset(b)| == |multiset(a)| == |a|;
      HeadTail(a);
      HeadTail(b);
      assert a[0] in multiset(b) && b[0] in multiset(a);
      SortedFirst(b, a[0]);
      SortedFirst(a, b[0]);
      LexLeAntisymmetric(a[0], b[0]);
      SortedTail(a);
      SortedTail(b);
      SortedUnique(a[1..], b[1..]);
    }
  }

  // ---------------------------------------------------------------- pairing

  /** `[f for f in files if f.endswith(suffix)]`. */
  function NamesEnding(files: seq<string>, suffix: string): (r: seq<string>)
    ensures forall f :: f in r <==> f in files && EndsWith(f, suffix)
  {
    if files == [] then []
    else
      assert forall f :: f in files <==> f == files[0] || f in files[1..];
      (if EndsWith(files[0], suffix) then [files[0]] else []) + NamesEnding(files[1..], suffix)
  }

  lemma {:induction false} NamesEndingCount(files: seq<string>, suffix: string, x: string)
    ensures multiset(NamesEnding(files, suffix))[x] == if EndsWith(x, suffix) then multiset(files)[x] else 0
  {
    if files != [] {
      NamesEndingCount(files[1..], suffix, x);
      assert files == [files[0]] + files[1..];
    }
  }

  /** Filtering the same names in another order keeps the same names. */
  lemma {:induction false} NamesEndingPermutation(a: seq<string>, b: seq<string>, suffix: string)
    requires multiset(a) == multiset(b)
    ensures multiset(NamesEnding(a, suffix)) == multiset(NamesEnding(b, suffix))
  {
    forall x ensures multiset(NamesEnding(a, suffix))[x] == multiset(NamesEnding(b, suffix))[x] {
      NamesEndingCount(a, suffix, x);
      NamesEndingCount(b, suffix, x);
    }
  }

  /** The key-value pairs of `{os.path.splitext(f)[0]: f for f in names}`. */
  function StemPairs(names: seq<string>): (ps: seq<(string, string)>)
    ensures |ps| == |names| && forall i :: 0 <= i < |names| ==> ps[i] == (Stem(names[i]), names[i])
  {
    seq(|names|, i requires 0 <= i < |names| => (Stem(names[i]), names[i]))
  }

  /** The dict comprehension itself: a later name with the same stem wins. */
  function ByStem(names: seq<string>): (d: PyDict.Dict<string, string>)
    ensures PyDict.Wf(d)
  {
    PyDict.FromPairs(StemPairs(names))
  }

  /** Every entry of a stem map is a listed name under its own stem. */
  lemma {:induction false} ByStemEntry(names: seq<string>, e: (string, string))
    requires e in ByStem(names)
    ensures e.1 in names && e.0 == Stem(e.1)
  {
    PyDict.FromPairsEntries(StemPairs(names), e);
  }

  /** Every listed name's stem is a key of the stem map. */
  lemma {:induction false} ByStemHasStem(names: seq<string>, f: string)
    requires f in names
    ensures Stem(f) in PyDict.Keys(ByStem(names))
  {
    PyDict.FromPairsKeys(StemPairs(names));
    var i :| 0 <= i < |names| && names[i] == f;
    assert PyDict.Keys(StemPairs(names))[i] == Stem(f);
  }

  /**
   * The loop over the `.in` map: for each entry whose stem the `.out` map
   * also has, the stem with its `.in` file and its `.out` file, in the `.in`
   * map's order.
   */
  function Matched(inMap: PyDict.Dict<string, string>, outMap: PyDict.Dict<string, string>): seq<(string, string, string)> {
    if inMap == [] then []
    else
      var rest := Matched(inMap[1..], outMap);
      match PyDict.Get(outMap, inMap[0].0)
      case None => rest
      case Some(out) => [(inMap[0].0, inMap[0].1, out)] + rest
  }

  function InFiles(listing: seq<string>): seq<string> {
    SortNames(NamesEnding(listing, ".in"))
  }

  function OutFiles(listing: seq<string>): seq<string> {
    SortNames(NamesEnding(listing, ".out"))
  }

  /** The matched stems and file pairs `parse_test_case_files` turns into test cases. */
  function Pairing(listing: seq<string>): seq<(string, string, string)> {
    Matched(ByStem(InFiles(listing)), ByStem(OutFiles(listing)))
  }

  /** One non-sample test case per matched pair, with the two files' contents. */
  function Cases(pairs: seq<(string, string, string)>, read: string -> string): (cases: seq<TestCase>)
    ensures |cases| == |pairs|
    ensures forall k :: 0 <= k < |pairs| ==>
      cases[k].input == read(pairs[k].1) && cases[k].output == read(pairs[k].2) && !cases[k].isSample
  {
    seq(|pairs|, k requires 0 <= k < |pairs| => NewTestCase(read(pairs[k].1), read(pairs[k].2)))
  }

  lemma {:induction false} CasesCons(p: (string, string, string), rest: seq<(string, string, string)>, read: string -> string)
    ensures Cases([p] + rest, read) == [NewTestCase(read(p.1), read(p.2))] + Cases(rest, read)
  {
  }

  /**
   * `parse_test_case_files` over a directory listing, with `read` giving a
   * listed file's contents: filter by suffix, sort, build both stem maps, then
   * loop over the `.in` map collecting the matched pairs as test cases.
   */
  method ParseTestCaseFiles(listing: seq<string>, read: string -> string) returns (testCases: seq<TestCase>)
    ensures testCases == Cases(Pairing(listing), read)
  {
    var inFiles := NamesEnding(listing, ".in");
    var outFiles := NamesEnding(listing, ".out");
    inFiles := SortNames(inFiles);
    outFiles := SortNames(outFiles);
    var inMap := ByStem(inFiles);
    var outMap := ByStem(outFiles);
    testCases := [];
    var i := 0;
    while i < |inMap|
      invariant 0 <= i <= |inMap|
      invariant testCases + Cases(Matched(inMap[i..], outMap), read) == Cases(Matched(inMap, outMap), read)
    {
      DropOneMore(inMap, i);
      var baseName := inMap[i].0;
      var out := PyDict.Get(outMap, baseName);
      if out.Some? {
        var c := NewTestCase(read(inMap[i].1), read(out.value));
        CasesCons((baseName, inMap[i].1, out.value), Matched(inMap[i + 1..], outMap), read);
        AppendAssoc(testCases, [c], Cases(Matched(inMap[i + 1..], outMap), read));
        testCases := testCases + [c];
      }
      i := i + 1;
    }
    assert inMap[i..] == [];
  }

  /** Each match is an entry of the `.in` map and the `.out` entry under the same stem. */
  lemma {:induction false} MatchedFrom(inMap: PyDict.Dict<string, string>, outMap: PyDict.Dict<string, string>, k: int)
    requires 0 <= k < |Matched(inMap, outMap)|
    ensures var m := Matched(inMap, outMap)[k];
      (m.0, m.1) in inMap && (m.0, m.2) in outMap
  {
    var rest := Matched(inMap[1..], outMap);
    var out := PyDict.Get(outMap, inMap[0].0);
    if out.Some? && k == 0 {
      assert inMap[0] in inMap;
    } else {
      var j := if out.Some? then k - 1 else k;
      assert Matched(inMap, outMap)[k] == rest[j];
      MatchedFrom(inMap[1..], outMap, j);
      assert inMap[1..] <= inMap || inMap == [inMap[0]] + inMap[1..];
      assert (rest[j].0, rest[j].1) in inMap[1..];
    }
  }

  /** A stem that both maps have yields a match. */
  lemma {:induction false} MatchedHas(inMap: PyDict.Dict<string, string>, outMap: PyDict.Dict<string, string>, key: string)
    requires key in PyDict.Keys(inMap) && key in PyDict.Keys(outMap)
    ensures exists k :: 0 <= k < |Matched(inMap, outMap)| && Matched(inMap, outMap)[k].0 == key
  {
    var out := PyDict.Get(outMap, inMap[0].0);
    var m := Matched(inMap, outMap);
    if inMap[0].0 == key {
      assert m[0].0 == key;
    } else {
      var tail := inMap[1..];
      var j :| 0 <= j < |inMap| && PyDict.Keys(inMap)[j] == key;
      assert PyDict.Keys(tail)[j - 1] == key;
      MatchedHas(tail, outMap, key);
      var rest := Matched(tail, outMap);
      var k :| 0 <= k < |rest| && rest[k].0 == key;
      var shift := if out.Some? then k + 1 else k;
      assert m[shift] == rest[k];
    }
  }

  /**
   * Each match is a listed `.in` file and a listed `.out` file, both with
   * the match's stem.
   */
  lemma {:induction false} PairsSound(listing: seq<string>, k: int)
    requires 0 <= k < |Pairing(listing)|
    ensures var p := Pairing(listing)[k];
      && p.1 in listing && EndsWith(p.1, ".in")
      && p.2 in listing && EndsWith(p.2, ".out")
      && Stem(p.1) == p.0 && Stem(p.2) == p.0
  {
    var p := Pairing(listing)[k];
    MatchedFrom(ByStem(InFiles(listing)), ByStem(OutFiles(listing)), k);
    ByStemEntry(InFiles(listing), (p.0, p.1));
    ByStemEntry(OutFiles(listing), (p.0, p.2));
    assert p.1 in multiset(InFiles(listing));
    assert p.2 in multiset(OutFiles(listing));
  }

  /** A listed name with the suffix is among the sorted names with that suffix. */
  lemma {:induction false} InSortedNames(listing: seq<string>, suffix: string, f: string)
    requires f in listing && EndsWith(f, suffix)
    ensures f in SortNames(NamesEnding(listing, suffix))
  {
    assert f in multiset(NamesEnding(listing, suffix));
    assert f in multiset(SortNames(NamesEnding(listing, suffix)));
  }

  /**
   * Every stem that has both a listed `.in` file and a listed `.out` file
   * yields a test case.
   */
  lemma {:induction false} PairsComplete(listing: seq<string>, f: string, g: string)
    requires f in listing && EndsWith(f, ".in")
    requires g in listing && EndsWith(g, ".out")
    requires Stem(f) == Stem(g)
    ensures exists k :: 0 <= k < |Pairing(listing)| && Pairing(listing)[k].0 == Stem(f)
  {
    InSortedNames(listing, ".in", f);
    InSortedNames(listing, ".out", g);
    var inMap := ByStem(InFiles(listing));
    var outMap := ByStem(OutFiles(listing));
    ByStemHasStem(InFiles(listing), f);
    ByStemHasStem(OutFiles(listing), g);
    MatchedHas(inMap, outMap, Stem(f));
    assert Pairing(listing) == Matched(inMap, outMap);
  }

  /** The matches have distinct stems, because the `.in` map has distinct keys. */
  lemma {:induction false} MatchedStemsDistinct(inMap: PyDict.Dict<string, string>, outMap: PyDict.Dict<string, string>)
    requires PyDict.Wf(inMap)
    ensures var m := Matched(inMap, outMap);
      forall i, j :: 0 <= i < j < |m| ==> m[i].0 != m[j].0
  {
    if inMap != [] {
      var tail := inMap[1..];
      assert PyDict.Keys(tail) == PyDict.Keys(inMap)[1..];
      MatchedStemsDistinct(tail, outMap);
      var m := Matched(inMap, outMap);
      var rest := Matched(tail, outMap);
      if PyDict.Get(outMap, inMap[0].0).Some? {
        forall j | 0 < j < |m| ensures m[0].0 != m[j].0 {
          MatchedFrom(tail, outMap, j - 1);
          var n :| 0 <= n < |tail| && tail[n] == (rest[j - 1].0, rest[j - 1].1);
          assert PyDict.Keys(inMap)[n + 1] == rest[j - 1].0;
        }
        assert forall i :: 0 < i < |m| ==> m[i] == rest[i - 1];
      }
    }
  }

  /** No two test cases share a stem: one test case per stem. */
  lemma {:induction false} PairStemsDistinct(listing: seq<string>)
    ensures var pairs := Pairing(listing);
      forall i, j :: 0 <= i < j < |pairs| ==> pairs[i].0 != pairs[j].0
  {
    var inMap := ByStem(InFiles(listing));
    var outMap := ByStem(OutFiles(listing));
    MatchedStemsDistinct(inMap, outMap);
    assert Pairing(listing) == Matched(inMap, outMap);
  }

  /** Matches taken from `.in` entries in ascending file order are themselves ascending. */
  lemma {:induction false} MatchedOrdered(inMap: PyDict.Dict<string, string>, outMap: PyDict.Dict<string, string>)
    requires forall i, j :: 0 <= i < j < |inMap| ==> LexLe(inMap[i].1, inMap[j].1)
    ensures var m := Matched(inMap, outMap);
      forall i, j :: 0 <= i < j < |m| ==> LexLe(m[i].1, m[j].1)
  {
    if inMap != [] {
      var tail := inMap[1..];
      MatchedOrdered(tail, outMap);
      var m := Matched(inMap, outMap);
      var rest := Matched(tail, outMap);
      if PyDict.Get(outMap, inMap[0].0).Some? {
        forall j | 0 < j < |m| ensures LexLe(m[0].1, m[j].1) {
          MatchedFrom(tail, outMap, j - 1);
          var n :| 0 <= n < |tail| && tail[n] == (rest[j - 1].0, rest[j - 1].1);
          assert inMap[n + 1] == tail[n];
        }
        assert forall i :: 0 < i < |m| ==> m[i] == rest[i - 1];
      }
    }
  }

  /**
   * When no two `.in` files share a stem, the test cases come in ascending
   * order of their `.in` file names.
   */
  lemma {:induction false} PairsOrderedByInFile(listing: seq<string>)
    requires PyDict.Distinct(PyDict.Keys(StemPairs(InFiles(listing))))
    ensures var pairs := Pairing(listing);
      forall i, j :: 0 <= i < j < |pairs| ==> LexLe(pairs[i].1, pairs[j].1)
  {
    var names := InFiles(listing);
    var inMap := ByStem(names);
    var outMap := ByStem(OutFiles(listing));
    PyDict.FromDistinctPairs(StemPairs(names));
    assert inMap == StemPairs(names);
    SortNamesSorted(NamesEnding(listing, ".in"));
    assert SortedNames(names);
    forall i, j | 0 <= i < j < |inMap| ensures LexLe(inMap[i].1, inMap[j].1) {
      assert inMap[i].1 == names[i] && inMap[j].1 == names[j];
    }
    MatchedOrdered(inMap, outMap);
    assert Pairing(listing) == Matched(inMap, outMap);
  }

  /** The order in which the directory lists its files does not matter. */
  lemma {:induction false} ListingOrderIrrelevant(a: seq<string>, b: seq<string>)
    requires multiset(a) == multiset(b)
    ensures Pairing(a) == Pairing(b)
  {
    NamesEndingPermutation(a, b, ".in");
    NamesEndingPermutation(a, b, ".out");
    SortNamesSorted(NamesEnding(a, ".in"));
    SortNamesSorted(NamesEnding(b, ".in"));
    SortNamesSorted(NamesEnding(a, ".out"));
    SortNamesSorted(NamesEnding(b, ".out"));
    SortedUnique(InFiles(a), InFiles(b));
    SortedUnique(OutFiles(a), OutFiles(b));
  }

  // ---------------------------------------------------------------- upload

  /**
   * Reading a file in text mode with universal newlines: `\r\n` and a lone
   * `\r` each become `\n`; every other character is kept.
   */
  function UniversalNewlines(s: string): (r: string)
    ensures |r| <= |s|
    decreases |s|
  {
    if s == [] then []
    else if s[0] == '\r' then "\n" + UniversalNewlines(if |s| > 1 && s[1] == '\n' then s[2..] else s[1..])
    else [s[0]] + UniversalNewlines(s[1..])
  }

  /** Text read back holds no carriage return. */
  lemma {:induction false} UniversalNewlinesNoReturn(s: string)
    ensures '\r' !in UniversalNewlines(s)
    decreases |s|
  {
    if s != [] {
      if s[0] == '\r' {
        UniversalNewlinesNoReturn(if |s| > 1 && s[1] == '\n' then s[2..] else s[1..]);
      } else {
        UniversalNewlinesNoReturn(s[1..]);
      }
    }
  }

  /** Text without a carriage return is read back as it was written. */
  lemma {:induction false} UniversalNewlinesPlain(s: string)
    requires '\r' !in s
    ensures UniversalNewlines(s) == s
    decreases |s|
  {
    if s != [] {
      assert s[0] != '\r';
      UniversalNewlinesPlain(s[1..]);
    }
  }

  /** Reading back twice changes nothing more. */
  lemma {:induction false} UniversalNewlinesIdempotent(s: string)
    ensures UniversalNewlines(UniversalNewlines(s)) == UniversalNewlines(s)
  {
    UniversalNewlinesNoReturn(s);
    UniversalNewlinesPlain(UniversalNewlines(s));
  }

  /** A Windows line end becomes a single newline. */
  lemma {:induction false} CrLfReadAsLf(a: string, b: string)
    requires '\r' !in a
    ensures UniversalNewlines(a + "\r\n" + b) == a + "\n" + UniversalNewlines(b)
    decreases |a|
  {
    if a == [] {
      assert a + "\r\n" + b == ['\r', '\n'] + b;
      assert (['\r', '\n'] + b)[2..] == b;
    } else {
      assert (a + "\r\n" + b)[1..] == a[1..] + "\r\n" + b;
      assert a[0] != '\r';
      CrLfReadAsLf(a[1..], b);
      assert a == [a[0]] + a[1..];
    }
  }

  /** The contents of a file in the scratch directory, read in text mode. */
  function ReadBack(dir: PyDict.Dict<string, string>, name: string): string {
    UniversalNewlines(PyDict.Get(dir, name).GetOr(""))
  }

  /**
   * `upload_test_cases`: no files is a 400; otherwise each upload is written
   * under its file name (a later upload of the same name replaces the earlier
   * one) and the written directory is parsed.
   */
  method UploadTestCases(files: seq<(string, string)>) returns (r: Result<seq<TestCase>, HttpError>)
    ensures files == [] ==> r == Err(HttpError(BadRequest, NoFilesDetail))
    ensures files != [] ==>
      var dir := PyDict.FromPairs(files);
      r == Ok(Cases(Pairing(PyDict.Keys(dir)), name => ReadBack(dir, name)))
  {
    if files == [] {
      return Err(HttpError(BadRequest, NoFilesDetail));
    }
    var dir: PyDict.Dict<string, string> := [];
    var i := 0;
    while i < |files|
      invariant 0 <= i <= |files|
      invariant dir == PyDict.FromPairs(files[..i])
    {
      assert files[..i + 1][..i] == files[..i];
      dir := PyDict.Set(dir, files[i].0, files[i].1);
      i := i + 1;
    }
    assert files[..i] == files;
    var testCases := ParseTestCaseFiles(PyDict.Keys(dir), name => ReadBack(dir, name));
    r := Ok(testCases);
  }

  /** A test case's contents are those of the last upload under that file name. */
  lemma {:induction false} UploadedContentIsLastWrite(files: seq<(string, string)>, name: string)
    requires name in PyDict.Keys(files)
    ensures PyDict.LastValue(files, name).Some?
    ensures ReadBack(PyDict.FromPairs(files), name) == UniversalNewlines(PyDict.LastValue(files, name).value)
  {
    PyDict.FromPairsGet(files, name);
    PyDict.FromPairsKeys(files);
  }
}
