/**
 * The evaluator's tolerant reading of model output: key normalisation of
 * parsed values, the textual clean-up applied before parsing, the brace
 * slicing of the last-resort reader, and the cascade of attempts that ends in
 * a `ValueError`. `json.loads` itself, and the key-repair substitutions that
 * follow the clean-up rules modelled here, are function parameters.
 */
module JsonParser {
  import opened Wrappers
  import opened Text
  import PyDict
  import opened JsonValue

  // ---------------------------------------------------------------- key normalisation

  /** A string key loses its surrounding whitespace; any other key is kept. */
  function NormKey(k: Key): Key {
    match k
    case StrKey(s) => StrKey(Strip(s))
    case IntKey(_) => k
  }

  /**
   * `normalize_dict_keys`: lists are normalised element by element, dicts are
   * rebuilt from their normalised pairs, and every other value is returned
   * as it is.
   */
  function Normalize(j: Json): (r: Json)
    ensures r.JList? <==> j.JList?
    ensures r.JObject? <==> j.JObject?
    ensures !(j.JList? || j.JObject?) ==> r == j
    ensures j.JList? ==> |r.items| == |j.items| && forall i :: 0 <= i < |j.items| ==> r.items[i] == Normalize(j.items[i])
    decreases j
  {
    match j
    case JList(items) => JList(seq(|items|, i requires 0 <= i < |items| => Normalize(items[i])))
    case JObject(es) => JObject(PyDict.FromPairs(seq(|es|, i requires 0 <= i < |es| => (NormKey(es[i].0), Normalize(es[i].1)))))
    case _ => j
  }

  /** The pairs a dict's entries become, before they are assigned into the result dict. */
  function NormalizedPairs(es: seq<(Key, Json)>): (ps: seq<(Key, Json)>)
    ensures |ps| == |es|
    ensures forall i :: 0 <= i < |es| ==> ps[i] == (NormKey(es[i].0), Normalize(es[i].1))
  {
    seq(|es|, i requires 0 <= i < |es| => (NormKey(es[i].0), Normalize(es[i].1)))
  }

  lemma {:induction false} ObjectFromPairs(es: seq<(Key, Json)>)
    ensures Normalize(JObject(es)) == JObject(PyDict.FromPairs(NormalizedPairs(es)))
  {
    assert NormalizedPairs(es) == seq(|es|, i requires 0 <= i < |es| => (NormKey(es[i].0), Normalize(es[i].1)));
  }

  /**
   * A value whose every dict, at any depth, has distinct keys none of which is
   * a string with surrounding whitespace.
   */
  predicate Canonical(j: Json)
    decreases j
  {
    match j
    case JList(items) => forall i :: 0 <= i < |items| ==> Canonical(items[i])
    case JObject(es) =>
      && PyDict.Distinct(PyDict.Keys(es))
      && forall i :: 0 <= i < |es| ==> NormalKey(es[i].0) && Canonical(es[i].1)
    case _ => true
  }

  /** A key normalisation leaves alone: not a string, or a string with no whitespace at either end. */
  predicate NormalKey(k: Key) {
    k.IntKey? || k.s == [] || (!IsSpace(k.s[0]) && !IsSpace(k.s[|k.s| - 1]))
  }

  /** A normal key is its own normal form. */
  lemma {:induction false} NormalKeyFixed(k: Key)
    requires NormalKey(k)
    ensures NormKey(k) == k
  {
    if k.StrKey? { StripTrimmed(k.s); }
  }

  /** Every key comes out of normalisation normal, and then stays as it is. */
  lemma {:induction false} NormKeyNormal(k: Key)
    ensures NormalKey(NormKey(k))
    ensures NormKey(NormKey(k)) == NormKey(k)
  {
    NormalKeyFixed(NormKey(k));
  }

  /** Normalising strips every string key at every depth and leaves no duplicate key. */
  lemma {:induction false} NormalizeCanonical(j: Json)
    ensures Canonical(Normalize(j))
    decreases j
  {
    match j
    case JList(items) =>
      forall i | 0 <= i < |items| ensures Canonical(Normalize(j).items[i]) {
        NormalizeCanonical(items[i]);
      }
    case JObject(es) =>
      ObjectFromPairs(es);
      var ps := NormalizedPairs(es);
      var d := PyDict.FromPairs(ps);
      forall i | 0 <= i < |d| ensures NormalKey(d[i].0) && Canonical(d[i].1) {
        PyDict.FromPairsEntries(ps, d[i]);
        var m :| 0 <= m < |ps| && ps[m] == d[i];
        NormKeyNormal(es[m].0);
        NormalizeCanonical(es[m].1);
      }
    case _ =>
  }

  /** A canonical value is left exactly as it is. */
  lemma {:induction false} CanonicalFixed(j: Json)
    requires Canonical(j)
    ensures Normalize(j) == j
    decreases j
  {
    match j
    case JList(items) =>
      forall i | 0 <= i < |items| ensures Normalize(j).items[i] == items[i] {
        CanonicalFixed(items[i]);
      }
    case JObject(es) =>
      ObjectFromPairs(es);
      var ps := NormalizedPairs(es);
      forall i | 0 <= i < |es| ensures ps[i] == es[i] {
        NormalKeyFixed(es[i].0);
        CanonicalFixed(es[i].1);
      }
      assert ps == es;
      PyDict.FromDistinctPairs(es);
    case _ =>
  }

  /** Normalising twice is normalising once. */
  lemma {:induction false} NormalizeIdempotent(j: Json)
    ensures Normalize(Normalize(j)) == Normalize(j)
  {
    NormalizeCanonical(j);
    CanonicalFixed(Normalize(j));
  }

  /**
   * When several keys of a dict strip to the same key, the value of the last
   * of them, normalised, is the one kept.
   */
  lemma {:induction false} LaterKeyWins(es: seq<(Key, Json)>, i: int)
    requires 0 <= i < |es|
    requires forall m :: i < m < |es| ==> NormKey(es[m].0) != NormKey(es[i].0)
    ensures PyDict.Get(Normalize(JObject(es)).entries, NormKey(es[i].0)) == Some(Normalize(es[i].1))
  {
    ObjectFromPairs(es);
    var ps := NormalizedPairs(es);
    PyDict.FromPairsGet(ps, NormKey(es[i].0));
    PyDict.LastValueAt(ps, i);
  }

  /**
   * The keys of a normalised dict are the normalised keys of the original in
   * the order they first occur, each once.
   */
  lemma {:induction false} NormalizedKeyOrder(es: seq<(Key, Json)>)
    ensures PyDict.Keys(Normalize(JObject(es)).entries)
      == PyDict.Dedup(seq(|es|, i requires 0 <= i < |es| => NormKey(es[i].0)))
  {
    ObjectFromPairs(es);
    var ps := NormalizedPairs(es);
    PyDict.FromPairsKeys(ps);
    assert PyDict.Keys(ps) == seq(|es|, i requires 0 <= i < |es| => NormKey(es[i].0));
  }

  /** A non-string key stays a key of the normalised dict, and no other one appears. */
  lemma {:induction false} NormalizedIntKeys(es: seq<(Key, Json)>, n: int)
    ensures IntKey(n) in PyDict.Keys(es) <==> IntKey(n) in PyDict.Keys(Normalize(JObject(es)).entries)
  {
    var nk := seq(|es|, i requires 0 <= i < |es| => NormKey(es[i].0));
    NormalizedKeyOrder(es);
    if IntKey(n) in PyDict.Keys(es) {
      var i :| 0 <= i < |es| && PyDict.Keys(es)[i] == IntKey(n);
      assert nk[i] == IntKey(n);
    }
    if IntKey(n) in PyDict.Keys(Normalize(JObject(es)).entries) {
      var i :| 0 <= i < |nk| && nk[i] == IntKey(n);
      assert PyDict.Keys(es)[i] == IntKey(n);
    }
  }

  /**
   * `normalize_dict_keys` as the loops it runs: a list comprehension over the
   * elements of a list, and, for a dict, a fresh result dict into which each
   * normalised pair is assigned in turn.
   */
  method NormalizeDictKeys(data: Json) returns (r: Json)
    ensures r == Normalize(data)
    decreases data
  {
    match data
    case JList(items) =>
      var out: seq<Json> := [];
      var i := 0;
      while i < |items|
        invariant 0 <= i <= |items|
        invariant |out| == i && forall k :: 0 <= k < i ==> out[k] == Normalize(items[k])
      {
        var v := NormalizeDictKeys(items[i]);
        out := out + [v];
        i := i + 1;
      }
      r := JList(out);
    case JObject(es) =>
      ObjectFromPairs(es);
      ghost var ps := NormalizedPairs(es);
      var result: PyDict.Dict<Key, Json> := [];
      var i := 0;
      while i < |es|
        invariant 0 <= i <= |es|
        invariant result == PyDict.FromPairs(ps[..i])
      {
        var (key, value) := es[i];
        var normalizedKey := NormKey(key);
        var normalizedValue := NormalizeDictKeys(value);
        Wrappers.TakeTake(ps, i, i + 1);
        result := PyDict.Set(result, normalizedKey, normalizedValue);
        i := i + 1;
      }
      Wrappers.TakeAll(ps);
      r := JObject(result);
    case _ =>
      r := data;
  }

  // ---------------------------------------------------------------- clean-up rules

  /**
   * Where `,\s*X` matches at the start of `s`, for a closing bracket `X`: the
   * length of the match, or 0. The whitespace run is greedy, and giving it back
   * cannot help, since `X` is not whitespace.
   */
  function CommaMatch(s: string, close: char): (m: nat)
    ensures m <= |s| && (m == 0 || m >= 2)
  {
    if s != [] && s[0] == ',' && SpaceRun(s[1..]) < |s| - 1 && s[1 + SpaceRun(s[1..])] == close
    then 2 + SpaceRun(s[1..]) else 0
  }

  /**
   * `re.sub(r',\s*X', 'X', s)`: scanning left to right, a comma whose
   * following whitespace run ends at `X` is dropped with that run; scanning
   * resumes after the `X`.
   */
  function DropTrailingCommas(s: string, close: char): string
    decreases |s|
  {
    if s == [] then []
    else if CommaMatch(s, close) > 0 then [close] + DropTrailingCommas(s[CommaMatch(s, close)..], close)
    else [s[0]] + DropTrailingCommas(s[1..], close)
  }

  /** A match that starts in `pre` ends in `pre` when what follows is neither whitespace nor the bracket. */
  lemma {:induction false} CommaMatchAppend(pre: string, t: string, close: char)
    requires pre != [] && t != [] && !IsSpace(t[0]) && t[0] != close
    ensures CommaMatch(pre + t, close) == CommaMatch(pre, close) < |pre| + 1
    ensures CommaMatch(pre, close) <= |pre|
  {
    var s := pre + t;
    assert s[0] == pre[0];
    assert s[1..] == pre[1..] + t;
    SpaceRunAppend(pre[1..], t);
    var k := SpaceRun(pre[1..]);
    if AllSpace(pre[1..]) {
      assert s[1 + k] == t[0];
    } else {
      assert s[1 + k] == pre[1 + k];
    }
  }

  /** Text that neither ends in whitespace nor runs on into the bracket is rewritten on its own. */
  lemma {:induction false} DropTrailingCommasSplit(pre: string, t: string, close: char)
    requires t != [] && !IsSpace(t[0]) && t[0] != close
    ensures DropTrailingCommas(pre + t, close) == DropTrailingCommas(pre, close) + DropTrailingCommas(t, close)
    decreases |pre|
  {
    if pre == [] {
      assert pre + t == t;
    } else {
      CommaMatchAppend(pre, t, close);
      var m := CommaMatch(pre, close);
      if m > 0 {
        assert (pre + t)[m..] == pre[m..] + t;
        DropTrailingCommasSplit(pre[m..], t, close);
      } else {
        assert (pre + t)[1..] == pre[1..] + t;
        assert (pre + t)[0] == pre[0];
        DropTrailingCommasSplit(pre[1..], t, close);
      }
    }
  }

  /** A comma followed by nothing but whitespace before the bracket is removed, whitespace and all. */
  lemma {:induction false} TrailingCommaDropped(pre: string, ws: string, post: string, close: char)
    requires AllSpace(ws) && (close == '}' || close == ']')
    ensures DropTrailingCommas(pre + [','] + ws + [close] + post, close)
      == DropTrailingCommas(pre, close) + [close] + DropTrailingCommas(post, close)
  {
    GroupAfterFirst(pre, [','], ws, [close], post);
    CommaFirst(ws, post, close);
    DropTrailingCommasSplit(pre, [','] + ws + [close] + post, close);
  }

  /** A comma, whitespace and the bracket at the start become the bracket alone. */
  lemma {:induction false} CommaFirst(ws: string, post: string, close: char)
    requires AllSpace(ws) && (close == '}' || close == ']')
    ensures DropTrailingCommas([','] + ws + [close] + post, close) == [close] + DropTrailingCommas(post, close)
  {
    var t := [','] + ws + [close] + post;
    assert CommaMatch(t, close) == 2 + |ws| by {
      assert t[1..] == ws + ([close] + post);
      SpaceRunAppend(ws, [close] + post);
      assert t[1..][|ws|] == close;
    }
    assert t[2 + |ws|..] == post;
  }

  /** Text without commas passes unchanged. */
  lemma {:induction false} NoCommaUnchanged(s: string, close: char)
    requires ',' !in s
    ensures DropTrailingCommas(s, close) == s
    decreases |s|
  {
    if s != [] {
      NoCommaUnchanged(s[1..], close);
    }
  }

  /**
   * The rule makes a single pass: removing one trailing comma can leave
   * another one in front of the bracket, which then stays.
   */
  lemma {:induction false} SinglePass()
    ensures DropTrailingCommas(",,}", '}') == ",}"
  {
    assert ",,}"[1..] == ",}";
    assert SpaceRun(",}") == 0;
    assert CommaMatch(",,}", '}') == 0;
    assert ",}"[1..] == "}";
    assert SpaceRun("}") == 0;
    assert CommaMatch(",}", '}') == 2;
    assert ",}"[2..] == "";
  }

  /**
   * Where `^```json\s*` matches at the start of `s` in multi-line mode: at the
   * start of a line, the fence mark and the whitespace run after it; 0 when
   * there is no match.
   */
  function OpenMatch(s: string, lineStart: bool): (m: nat)
    ensures m <= |s| && (m == 0 || m >= 7)
  {
    if lineStart && StartsWith(s, "```json") then 7 + SpaceRun(s[7..]) else 0
  }

  /**
   * `re.sub(r'^```json\s*', '', s, flags=re.MULTILINE)`: at the start of a line
   * (the start of the text, or just after a newline of the original text) an
   * opening fence mark and the whitespace run after it are dropped.
   */
  function DropOpenFences(s: string, lineStart: bool): string
    decreases |s|
  {
    if s == [] then []
    else if OpenMatch(s, lineStart) > 0 then
      DropOpenFences(s[OpenMatch(s, lineStart)..], s[OpenMatch(s, lineStart) - 1] == '\n')
    else [s[0]] + DropOpenFences(s[1..], s[0] == '\n')
  }

  /**
   * Where `\s*```$` matches at the start of `s` in multi-line mode: the
   * whitespace run, then a fence that ends the text or its line; 0 when there
   * is no match.
   */
  function CloseMatch(s: string): (m: nat)
    ensures m <= |s| && (m == 0 || m >= 3)
  {
    var k := SpaceRun(s);
    if StartsWith(s[k..], "```") && (|s| == k + 3 || s[k + 3] == '\n') then k + 3 else 0
  }

  /**
   * `re.sub(r'\s*```$', '', s, flags=re.MULTILINE)`: a fence at the end of a
   * line (before a newline or at the end of the text) is dropped together
   * with the whitespace run before it.
   */
  function DropCloseFences(s: string): string
    decreases |s|
  {
    if s == [] then []
    else if CloseMatch(s) > 0 then DropCloseFences(s[CloseMatch(s)..])
    else [s[0]] + DropCloseFences(s[1..])
  }

  /** Text without backticks before a final fence holds no opening fence mark. */
  lemma {:induction false} NoOpenFenceBeforeClose(y: string, lineStart: bool)
    requires '`' !in y
    ensures DropOpenFences(y + "```", lineStart) == y + "```"
    decreases |y|
  {
    if y == [] {
      assert y + "```" == "```";
      assert OpenMatch("```", lineStart) == 0;
      assert "```"[1..] == "``";
      assert OpenMatch("``", false) == 0;
      assert "``"[1..] == "`";
      assert OpenMatch("`", false) == 0;
      assert "`"[1..] == "";
    } else {
      var s := y + "```";
      assert s[0] == y[0];
      assert OpenMatch(s, lineStart) == 0 by { assert "```json"[0] == '`'; }
      assert s[1..] == y[1..] + "```";
      NoOpenFenceBeforeClose(y[1..], y[0] == '\n');
    }
  }

  /** A body without backticks and not ending in whitespace keeps everything but the final fence. */
  lemma {:induction false} CloseFenceDropped(body: string, ws: string)
    requires '`' !in body && AllSpace(ws)
    requires body == [] || !IsSpace(body[|body| - 1])
    ensures DropCloseFences(body + ws + "```") == body
  {
    LoneCloseFenceDropped(ws);
    if body == [] {
      assert body + ws + "```" == ws + "```";
    } else {
      Wrappers.AppendAssoc(body, ws, "```");
      BodyKept(body, ws + "```");
      assert body + [] == body;
    }
  }

  /** No fence rule matches inside a body without backticks that ends in a non-space character. */
  lemma {:induction false} BodyKept(body: string, t: string)
    requires '`' !in body && body != [] && !IsSpace(body[|body| - 1])
    ensures DropCloseFences(body + t) == body + DropCloseFences(t)
    decreases |body|
  {
    var s := body + t;
    SpaceRunAppend(body, t);
    assert !AllSpace(body) by { assert !IsSpace(body[|body| - 1]); }
    var k := SpaceRun(s);
    assert s[k..][0] == body[k] && body[k] != "```"[0];
    assert CloseMatch(s) == 0;
    Wrappers.AppendTail(body, t);
    if |body| == 1 {
      assert body[1..] + t == t;
      assert [s[0]] == body;
    } else {
      BodyKept(body[1..], t);
      Wrappers.AppendAssoc([body[0]], body[1..], DropCloseFences(t));
      Wrappers.HeadTail(body);
    }
  }

  /** A line holding only whitespace and a fence disappears. */
  lemma {:induction false} LoneCloseFenceDropped(ws: string)
    requires AllSpace(ws)
    ensures DropCloseFences(ws + "```") == []
  {
    var s := ws + "```";
    SpaceRunAppend(ws, "```");
    assert SpaceRun("```") == 0;
    assert s[|ws|..] == "```";
    assert CloseMatch(s) == |s|;
    assert s[|s|..] == [];
  }

  /** The clean-up substitutions up to the bracket rules, in the order they are applied. */
  function CleanRules(s: string): string {
    DropTrailingCommas(DropTrailingCommas(DropCloseFences(DropOpenFences(s, true)), '}'), ']')
  }

  /**
   * `clean_json_string`: the fence rules, the two trailing-comma rules, then
   * the key-whitespace repair `repair`. The `\\u` rewrite between them maps
   * every match to itself and is not a step here.
   */
  function Clean(s: string, repair: string -> string): string {
    repair(CleanRules(s))
  }

  /** One step of the opening-fence scan at a match. */
  lemma {:induction false} DropOpenAtMatch(s: string, lineStart: bool)
    requires OpenMatch(s, lineStart) > 0
    ensures DropOpenFences(s, lineStart)
      == DropOpenFences(s[OpenMatch(s, lineStart)..], s[OpenMatch(s, lineStart) - 1] == '\n')
  {
  }

  /** At the start of the text, the fence mark matches together with the whitespace run after it. */
  lemma {:induction false} OpenMatchAtStart(ws: string, tail: string)
    requires AllSpace(ws) && tail != [] && !IsSpace(tail[0])
    ensures OpenMatch("```json" + ws + tail, true) == 7 + |ws|
  {
    var s := "```json" + ws + tail;
    assert s[..7] == "```json";
    assert s[7..] == ws + tail;
    SpaceRunAppend(ws, tail);
    assert SpaceRun(tail) == 0;
  }

  /** A fence mark that opens the text is dropped with the whitespace after it. */
  lemma {:induction false} OpenFenceAtStart(ws: string, tail: string)
    requires AllSpace(ws) && tail != [] && !IsSpace(tail[0])
    ensures DropOpenFences("```json" + ws + tail, true) == DropOpenFences(tail, ("```json" + ws)[|ws| + 6] == '\n')
  {
    var s := "```json" + ws + tail;
    OpenMatchAtStart(ws, tail);
    var m := OpenMatch(s, true);
    assert s[m..] == tail;
    assert s[m - 1] == ("```json" + ws)[|ws| + 6];
    DropOpenAtMatch(s, true);
  }

  /** A fence holding only whitespace leaves nothing. */
  lemma {:induction false} EmptyFenceUnwrapped(ws: string)
    requires AllSpace(ws)
    ensures DropCloseFences(DropOpenFences("```json" + ws + "```", true)) == []
  {
    OpenFenceAtStart(ws, "```");
    NoOpenFenceBeforeClose([], ("```json" + ws)[|ws| + 6] == '\n');
    assert [] + "```" == "```";
    CloseFenceDropped([], []);
    assert [] + [] + "```" == "```";
  }

  /** A fence around a body that starts and ends with a non-space character leaves the body. */
  lemma {:induction false} BodyFenceUnwrapped(ws1: string, body: string, ws2: string)
    requires AllSpace(ws1) && AllSpace(ws2) && '`' !in body
    requires body != [] && !IsSpace(body[0]) && !IsSpace(body[|body| - 1])
    ensures DropCloseFences(DropOpenFences("```json" + ws1 + (body + ws2 + "```"), true)) == body
  {
    var tail := body + ws2 + "```";
    OpenFenceAtStart(ws1, tail);
    assert '`' !in body + ws2 by { assert !IsSpace('`'); }
    assert tail == (body + ws2) + "```";
    NoOpenFenceBeforeClose(body + ws2, ("```json" + ws1)[|ws1| + 6] == '\n');
    CloseFenceDropped(body, ws2);
  }

  /** The two fence rules take a fenced body out of its fence. */
  lemma {:induction false} FencesUnwrapped(ws1: string, body: string, ws2: string)
    requires AllSpace(ws1) && AllSpace(ws2) && '`' !in body
    requires body == [] || (!IsSpace(body[0]) && !IsSpace(body[|body| - 1]))
    ensures DropCloseFences(DropOpenFences("```json" + ws1 + body + ws2 + "```", true)) == body
  {
    if body == [] {
      assert "```json" + ws1 + body + ws2 + "```" == "```json" + (ws1 + ws2) + "```";
      EmptyFenceUnwrapped(ws1 + ws2);
    } else {
      assert "```json" + ws1 + body + ws2 + "```" == "```json" + ws1 + (body + ws2 + "```");
      BodyFenceUnwrapped(ws1, body, ws2);
    }
  }

  /**
   * A reply fenced as ```` ```json ```` … ```` ``` ```` loses both fence marks
   * and the whitespace around the body; then the bracket rules see the body.
   */
  lemma {:induction false} FencedBodyUnwrapped(ws1: string, body: string, ws2: string)
    requires AllSpace(ws1) && AllSpace(ws2) && '`' !in body
    requires body == [] || (!IsSpace(body[0]) && !IsSpace(body[|body| - 1]))
    ensures CleanRules("```json" + ws1 + body + ws2 + "```")
      == DropTrailingCommas(DropTrailingCommas(body, '}'), ']')
  {
    FencesUnwrapped(ws1, body, ws2);
  }

  // ---------------------------------------------------------------- brace slicing

  /**
   * `re.sub(r'^[^{]*', '', t)`: the longest prefix without `{` goes, which is
   * all of the text when it has no `{`.
   */
  function DropBeforeFirstBrace(t: string): (r: string)
    ensures |r| <= |t| && r == t[|t| - |r|..]
    ensures '{' !in t[..|t| - |r|]
    ensures r == [] || r[0] == '{'
  {
    var i := FindChar(t, '{');
    if i == -1 then
      assert t[..|t|] == t;
      []
    else t[i..]
  }

  /**
   * `re.sub(r'[^}]*$', '', u)`: the longest suffix without `}` goes, which is
   * all of the text when it has no `}`. (A `$` before a final newline gives
   * no other match, since that newline is part of the suffix.)
   */
  function DropAfterLastBrace(u: string): (r: string)
    ensures |r| <= |u| && r == u[..|r|]
    ensures '}' !in u[|r|..]
    ensures r == [] || r[|r| - 1] == '}'
  {
    var i := RFindChar(u, '}');
    if i == -1 then
      assert u[0..] == u;
      []
    else u[..i + 1]
  }

  /**
   * The slice of step 4: `text[start:end+1]` for the first `{` and the last
   * `}`, present only when both exist; Python's slice is empty when the last
   * `}` comes before the first `{`.
   */
  function BraceSlice(text: string): Option<string> {
    var start := FindChar(text, '{');
    var end := RFindChar(text, '}');
    if start != -1 && end != -1 then Some(if start <= end then text[start..end + 1] else "") else None
  }

  /** The text `parse_newline_json` hands to the parser. */
  function NewlineFixed(text: string): string {
    DropAfterLastBrace(DropBeforeFirstBrace(text))
  }

  /** The last `}` of a suffix is the last `}` of the text, shifted. */
  lemma {:induction false} RFindInSuffix(t: string, start: int)
    requires 0 <= start <= |t|
    ensures '}' in t[start..] <==> RFindChar(t, '}') >= start
    ensures '}' in t[start..] ==> RFindChar(t[start..], '}') == RFindChar(t, '}') - start
  {
    var end := RFindChar(t, '}');
    var u := t[start..];
    if end >= start {
      assert u[end - start] == '}';
      var e := RFindChar(u, '}');
      assert e == end - start;
    }
  }

  /**
   * The two readers cut the same piece out of the text: from the first `{`
   * to the last `}` inclusive, or nothing when one of them is missing or the
   * last `}` comes first.
   */
  lemma {:induction false} NewlineFixedIsBraceSlice(text: string)
    ensures BraceSlice(text).Some? ==> NewlineFixed(text) == BraceSlice(text).value
    ensures BraceSlice(text).None? ==> NewlineFixed(text) == ""
  {
    var start := FindChar(text, '{');
    if start == -1 {
      assert DropBeforeFirstBrace(text) == [];
      assert NewlineFixed(text) == DropAfterLastBrace([]);
    } else {
      var u := text[start..];
      assert DropBeforeFirstBrace(text) == u;
      RFindInSuffix(text, start);
      var end := RFindChar(text, '}');
      BracesCut(text, start, end, u, DropAfterLastBrace(u));
      assert NewlineFixed(text) == DropAfterLastBrace(u);
      BraceSliceAt(text, start, end);
    }
  }

  /** `BraceSlice` for a found `{` at `start` and the last `}` at `end`. */
  lemma {:induction false} BraceSliceAt(text: string, start: nat, end: int)
    requires start == FindChar(text, '{') && end == RFindChar(text, '}')
    ensures end == -1 ==> BraceSlice(text) == None
    ensures end != -1 ==> BraceSlice(text) == Some(if start <= end then text[start..end + 1] else "")
  {
  }

  /** The second cut of `parse_newline_json`, on the text from its first `{`. */
  lemma {:induction false} BracesCut(text: string, start: nat, end: int, u: string, r: string)
    requires start < |text| && u == text[start..] && end == RFindChar(text, '}') && r == DropAfterLastBrace(u)
    requires '}' in u <==> end >= start
    requires '}' in u ==> RFindChar(u, '}') == end - start
    ensures end >= start ==> r == text[start..end + 1]
    ensures end < start ==> r == []
  {
    if end >= start {
      assert r == u[..end - start + 1];
      Wrappers.DropTake(text, start, end + 1);
    }
  }

  /**
   * `parse_newline_json`: the text cut down to its braces, parsed and
   * normalised, or `None` when the parser gives up.
   */
  function ParseNewlineJson(text: string, loads: string -> Option<Json>): (r: Option<Json>)
    ensures r.Some? <==> loads(NewlineFixed(text)).Some?
    ensures r.Some? ==> Canonical(r.value)
  {
    match loads(NewlineFixed(text))
    case None => None
    case Some(v) =>
      NormalizeCanonical(v);
      Some(Normalize(v))
  }

  // ---------------------------------------------------------------- fenced blocks

  /**
   * For a match of ```` ```(?:json)?\s*([\s\S]*?)``` ```` at the start of
   * `s`: where its group starts, after the optional `json` tag and the
   * whitespace run that follows.
   */
  function GroupStart(s: string): (g: nat)
    requires StartsWith(s, "```")
    ensures 3 <= g <= |s|
  {
    var a := if StartsWith(s[3..], "json") then 7 else 3;
    a + SpaceRun(s[a..])
  }

  /**
   * `re.findall(r'```(?:json)?\s*([\s\S]*?)```', s)`: scanning left to right,
   * each opening fence that has a later closing fence yields the text up to
   * the first such closing fence, and scanning resumes after it. No block
   * holds a fence.
   */
  function FenceBlocks(s: string): seq<string>
    decreases |s|
  {
    if s == [] then []
    else if FenceClose(s) >= 0 then [s[GroupStart(s)..FenceClose(s)]] + FenceBlocks(s[FenceClose(s) + 3..])
    else FenceBlocks(s[1..])
  }

  /**
   * For a match of the fenced-block pattern at the start of `s`: where the
   * closing fence starts, the first one after the group start; -1 when no
   * match starts here.
   */
  function FenceClose(s: string): (e: int)
    ensures e >= 0 ==> StartsWith(s, "```") && GroupStart(s) <= e && e + 3 <= |s|
  {
    if StartsWith(s, "```") then
      var g := GroupStart(s);
      var p := Find(s[g..], "```");
      if p >= 0 then g + p else -1
    else -1
  }

  /** The text before the first fence holds no fence. */
  lemma {:induction false} PieceBeforeFirstFence(rest: string, p: nat)
    requires p == Find(rest, "```")
    ensures forall i: nat :: !OccursAt("```", rest[..p], i)
  {
    forall i: nat ensures !OccursAt("```", rest[..p], i) {
      if i + 3 <= p {
        assert rest[..p][i..i + 3] == rest[i..i + 3];
        assert !OccursAt("```", rest, i);
      }
    }
  }

  /** No block found by the scan holds a fence. */
  lemma {:induction false} FenceBlocksHoldNoFence(s: string)
    ensures forall k :: 0 <= k < |FenceBlocks(s)| ==> forall i: nat :: !OccursAt("```", FenceBlocks(s)[k], i)
    decreases |s|
  {
    if s == [] {
    } else if FenceClose(s) >= 0 {
      var g := GroupStart(s);
      var rest := s[g..];
      var p := Find(rest, "```");
      var block := s[g..g + p];
      assert block == rest[..p];
      PieceBeforeFirstFence(rest, p);
      FenceBlocksHoldNoFence(s[g + p + 3..]);
      FenceBlocksAtMatch(s, g, p, block, s[g + p + 3..]);
    } else {
      FenceBlocksHoldNoFence(s[1..]);
    }
  }

  /** Text without backticks in front of the fences does not change what is found. */
  lemma {:induction false} FenceBlocksSkipPlainText(pre: string, s: string)
    requires '`' !in pre
    ensures FenceBlocks(pre + s) == FenceBlocks(s)
    decreases |pre|
  {
    if pre != [] {
      var t := pre + s;
      assert t[0] == pre[0];
      assert !StartsWith(t, "```");
      assert t[1..] == pre[1..] + s;
      FenceBlocksSkipPlainText(pre[1..], s);
    } else {
      assert pre + s == s;
    }
  }

  /** The group of a `json`-tagged fence starts after the tag and the whitespace that follows it. */
  lemma {:induction false} TaggedGroupStart(ws: string, tail: string)
    requires AllSpace(ws) && tail != [] && !IsSpace(tail[0])
    ensures StartsWith("```json" + ws + tail, "```")
    ensures GroupStart("```json" + ws + tail) == 7 + |ws|
  {
    var s := "```json" + ws + tail;
    assert s[..3] == "```";
    assert s[3..][..4] == "json";
    assert s[7..] == ws + tail;
    SpaceRunAppend(ws, tail);
    assert SpaceRun(tail) == 0;
  }

  /** In a body without backticks, the first fence is the one right after it. */
  lemma {:induction false} FirstFenceAfterBody(body: string, post: string)
    requires '`' !in body
    ensures Find(body + "```" + post, "```") == |body|
  {
    var tail := body + "```" + post;
    var p := Find(tail, "```");
    assert OccursAt("```", tail, |body|) by { assert tail[|body|..|body| + 3] == "```"; }
    assert forall i: nat :: i < |body| ==> !OccursAt("```", tail, i) by {
      forall i: nat | i < |body| ensures !OccursAt("```", tail, i) { assert tail[i] == body[i]; }
    }
  }

  /** One step of the fenced-block scan at a match. */
  lemma {:induction false} FenceBlocksAtMatch(s: string, g: nat, p: nat, block: string, rest: string)
    requires StartsWith(s, "```") && g == GroupStart(s) && p == Find(s[g..], "```")
    requires g + p + 3 <= |s| ==> block == s[g..g + p] && rest == s[g + p + 3..]
    ensures g + p + 3 <= |s| && FenceBlocks(s) == [block] + FenceBlocks(rest)
  {
    assert FenceClose(s) == g + p;
    FenceBlocksAt(s, g + p);
  }

  /** The scan at a match takes the group and carries on after the closing fence. */
  lemma {:induction false} FenceBlocksAt(s: string, e: int)
    requires e == FenceClose(s) && e >= 0
    ensures FenceBlocks(s) == [s[GroupStart(s)..e]] + FenceBlocks(s[e + 3..])
  {
    assert s != [];
  }

  /** A `json`-tagged fence around a body without backticks yields that body. */
  lemma {:induction false} FenceBlocksTaggedBody(ws: string, body: string, post: string)
    requires AllSpace(ws) && '`' !in body && (body == [] || !IsSpace(body[0]))
    ensures FenceBlocks("```json" + ws + body + "```" + post) == [body] + FenceBlocks(post)
  {
    var s := "```json" + ws + body + "```" + post;
    var tail := body + "```" + post;
    var g := 7 + |ws|;
    assert s == "```json" + ws + tail && s[g..] == tail && s[g..g + |body|] == body && s[g + |body| + 3..] == post;
    assert StartsWith(s, "```") && GroupStart(s) == g by {
      assert !IsSpace(tail[0]) by {
        if body != [] { assert tail[0] == body[0]; } else { assert tail[0] == '`'; }
      }
      TaggedGroupStart(ws, tail);
    }
    assert Find(s[g..], "```") == |body| by {
      FirstFenceAfterBody(body, post);
    }
    FenceBlocksAtMatch(s, g, |body|, body, post);
  }

  /**
   * `direct_json_parse`'s text: stripped, and, when it is wrapped in fences,
   * the first fenced block, stripped.
   */
  function Unfenced(text: string): string {
    var stripped := Strip(text);
    if StartsWith(stripped, "```") && EndsWith(stripped, "```") && FenceBlocks(stripped) != [] then
      Strip(FenceBlocks(stripped)[0])
    else stripped
  }

  /**
   * `direct_json_parse`: the unfenced text, cleaned, handed to
   * `directLoads` (which stands for the special-key fix, `json.loads` and the
   * aggressive retry), and the result normalised; `None` for the `ValueError`.
   */
  function DirectJsonParse(text: string, directLoads: string -> Option<Json>, repair: string -> string): (r: Option<Json>)
    ensures r.Some? <==> directLoads(Clean(Unfenced(text), repair)).Some?
    ensures r.Some? ==> Canonical(r.value)
  {
    match directLoads(Clean(Unfenced(text), repair))
    case None => None
    case Some(v) =>
      NormalizeCanonical(v);
      Some(Normalize(v))
  }

  // ---------------------------------------------------------------- the cascade

  const UnparsableMessage: string := "无法解析为有效JSON"

  /** The first fenced block that parses once cleaned, in the order found. */
  function FirstLoaded(blocks: seq<string>, loads: string -> Option<Json>, repair: string -> string): Option<Json> {
    FirstSome(blocks, s => loads(Clean(s, repair)))
  }

  /** The first success of `parse` over `xs`, in order. */
  function FirstSome(xs: seq<string>, parse: string -> Option<Json>): Option<Json>
    decreases |xs|
  {
    if xs == [] then None
    else if parse(xs[0]).Some? then parse(xs[0])
    else FirstSome(xs[1..], parse)
  }

  /**
   * What `FirstLoaded` finds: the blocks before it all fail, and `None` means
   * every block fails.
   */
  lemma {:induction false} FirstLoadedSpec(blocks: seq<string>, loads: string -> Option<Json>, repair: string -> string)
    ensures var r := FirstLoaded(blocks, loads, repair);
      && (r.None? <==> forall k :: 0 <= k < |blocks| ==> loads(Clean(blocks[k], repair)).None?)
      && (r.Some? ==> exists k :: (0 <= k < |blocks| && r == loads(Clean(blocks[k], repair)) &&
            forall m :: 0 <= m < k ==> loads(Clean(blocks[m], repair)).None?))
  {
    var parse := s => loads(Clean(s, repair));
    FirstSomeSpec(blocks, parse);
    assert forall k :: 0 <= k < |blocks| ==> parse(blocks[k]) == loads(Clean(blocks[k], repair));
  }

  /** The result of `FirstSome` is the first success, and `None` means every attempt fails. */
  lemma {:induction false} FirstSomeSpec(xs: seq<string>, parse: string -> Option<Json>)
    ensures var r := FirstSome(xs, parse);
      && (r.None? <==> forall k :: 0 <= k < |xs| ==> parse(xs[k]).None?)
      && (r.Some? ==> exists k :: 0 <= k < |xs| && r == parse(xs[k]) && forall m :: 0 <= m < k ==> parse(xs[m]).None?)
    decreases |xs|
  {
    if xs != [] && parse(xs[0]).None? {
      FirstSomeSpec(xs[1..], parse);
      var r := FirstSome(xs[1..], parse);
      assert forall k :: 1 <= k < |xs| ==> xs[1..][k - 1] == xs[k];
      if r.Some? {
        var k :| 0 <= k < |xs[1..]| && r == parse(xs[1..][k]) && forall m :: 0 <= m < k ==> parse(xs[1..][m]).None?;
        forall m | 0 <= m < k + 1 ensures parse(xs[m]).None? {
          if m > 0 { assert xs[m] == xs[1..][m - 1]; }
        }
        assert r == parse(xs[k + 1]);
      }
    } else if xs != [] {
      assert parse(xs[0]) == FirstSome(xs, parse);
    }
  }

  /**
   * Step 2 as the loop it is: each block is cleaned and parsed in turn, and
   * the first success is returned.
   */
  method TryBlocks(blocks: seq<string>, loads: string -> Option<Json>, repair: string -> string) returns (r: Option<Json>)
    ensures r == FirstLoaded(blocks, loads, repair)
  {
    var i := 0;
    while i < |blocks|
      invariant 0 <= i <= |blocks|
      invariant FirstLoaded(blocks, loads, repair) == FirstLoaded(blocks[i..], loads, repair)
    {
      var parsed := loads(Clean(blocks[i], repair));
      if parsed.Some? {
        return parsed;
      }
      assert blocks[i..][1..] == blocks[i + 1..];
      i := i + 1;
    }
    return None;
  }

  /** A fenced block after plain prose is the first one step 2 tries. */
  lemma {:induction false} FencedBlockTriedFirst(pre: string, ws: string, body: string, post: string,
                              loads: string -> Option<Json>, repair: string -> string)
    requires '`' !in pre && AllSpace(ws) && '`' !in body && (body == [] || !IsSpace(body[0]))
    requires loads(Clean(body, repair)).Some?
    ensures FirstLoaded(FenceBlocks(pre + "```json" + ws + body + "```" + post), loads, repair) == loads(Clean(body, repair))
  {
    assert pre + "```json" + ws + body + "```" + post == pre + ("```json" + ws + body + "```" + post);
    FenceBlocksSkipPlainText(pre, "```json" + ws + body + "```" + post);
    FenceBlocksTaggedBody(ws, body, post);
  }

  /** Step 3: the whole reply, cleaned. */
  function WholeParse(text: string, loads: string -> Option<Json>, repair: string -> string): Option<Json> {
    loads(Clean(text, repair))
  }

  /** Step 4: the brace slice, cleaned; skipped when a brace is missing. */
  function SliceParse(text: string, loads: string -> Option<Json>, repair: string -> string): Option<Json> {
    match BraceSlice(text)
    case None => None
    case Some(p) => loads(Clean(p, repair))
  }

  /** Step 5: `parse_newline_json`, accepted only when its result is truthy. */
  function NewlineParse(text: string, loads: string -> Option<Json>): Option<Json> {
    var r := ParseNewlineJson(text, loads);
    if r.Some? && Truthy(r.value) then r else None
  }

  /**
   * `parse_llm_response`: the direct parse, then the fenced blocks in order,
   * then the whole reply, then the brace slice, then the newline reader; the
   * first that yields a value wins, and when all fail the result is the
   * `ValueError` with its fixed message.
   */
  method ParseLlmResponse(text: string, directLoads: string -> Option<Json>, loads: string -> Option<Json>,
                          repair: string -> string) returns (r: Result<Json, string>)
    ensures DirectJsonParse(text, directLoads, repair).Some? ==> r == Ok(DirectJsonParse(text, directLoads, repair).value)
    ensures (DirectJsonParse(text, directLoads, repair).None? && FirstLoaded(FenceBlocks(text), loads, repair).Some?) ==>
      r == Ok(FirstLoaded(FenceBlocks(text), loads, repair).value)
    ensures (DirectJsonParse(text, directLoads, repair).None? && FirstLoaded(FenceBlocks(text), loads, repair).None?
             && WholeParse(text, loads, repair).Some?) ==>
      r == Ok(WholeParse(text, loads, repair).value)
    ensures (DirectJsonParse(text, directLoads, repair).None? && FirstLoaded(FenceBlocks(text), loads, repair).None?
             && WholeParse(text, loads, repair).None? && SliceParse(text, loads, repair).Some?) ==>
      r == Ok(SliceParse(text, loads, repair).value)
    ensures (DirectJsonParse(text, directLoads, repair).None? && FirstLoaded(FenceBlocks(text), loads, repair).None?
             && WholeParse(text, loads, repair).None? && SliceParse(text, loads, repair).None?
             && NewlineParse(text, loads).Some?) ==>
      r == Ok(NewlineParse(text, loads).value)
    ensures r.Err? <==> (DirectJsonParse(text, directLoads, repair).None? && FirstLoaded(FenceBlocks(text), loads, repair).None?
                         && WholeParse(text, loads, repair).None? && SliceParse(text, loads, repair).None?
                         && NewlineParse(text, loads).None?)
    ensures r.Err? ==> r.error == UnparsableMessage
  {
    var direct := DirectJsonParse(text, directLoads, repair);
    if direct.Some? {
      return Ok(direct.value);
    }
    var matches := FenceBlocks(text);
    var fromBlock := TryBlocks(matches, loads, repair);
    if fromBlock.Some? {
      return Ok(fromBlock.value);
    }
    var whole := loads(Clean(text, repair));
    if whole.Some? {
      return Ok(whole.value);
    }
    var slice := BraceSlice(text);
    if slice.Some? {
      var sliced := loads(Clean(slice.value, repair));
      if sliced.Some? {
        return Ok(sliced.value);
      }
    }
    var result := ParseNewlineJson(text, loads);
    if result.Some? && Truthy(result.value) {
      return Ok(result.value);
    }
    return Err(UnparsableMessage);
  }
}
