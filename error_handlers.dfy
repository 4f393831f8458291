/**
 * The evaluator's stand-in results: the error response returned whenever an
 * evaluation cannot be produced, the short fallback evaluation, and the
 * fallback response that salvages error codes and suggestions from reply text
 * that would not parse.
 */
module ErrorHandlers {
  import opened Wrappers
  import opened Text
  import PyDict
  import opened JsonValue

  // ---------------------------------------------------------------- fixed responses

  /** A `{"pros": …, "cons": …}` assessment. */
  function Assessment(pros: Json, cons: Json): Json {
    JObject([Field("pros", pros), Field("cons", cons)])
  }

  const NoPoints: Json := JList([])

  /** `create_error_response`. */
  function ErrorResponse(message: string): Json {
    JObject([
      Field("error", JStr(message)),
      Field("summary", JStr("评估失败，请稍后再试")),
      Field("improvement_suggestions", StrList(["由于技术原因无法提供详细建议"])),
      Field("overall_score", JStr("0"))
    ])
  }

  /**
   * An error response has exactly the four keys, in order; its `error` is the
   * message it was made from, and its score is `"0"`. Distinct messages give
   * distinct responses.
   */
  lemma {:induction false} ErrorResponseShape(message: string, other: string)
    ensures var r := ErrorResponse(message);
      && KeyNames(r) == [StrKey("error"), StrKey("summary"), StrKey("improvement_suggestions"), StrKey("overall_score")]
      && GetField(r, "error") == Some(JStr(message))
      && GetField(r, "overall_score") == Some(JStr("0"))
    ensures ErrorResponse(message) == ErrorResponse(other) ==> message == other
  {
    var r := ErrorResponse(message);
    assert KeyNames(r)[0] == StrKey("error");
  }

  const FallbackSummaryPrefix: string := "评估部分失败（原因："
  const FallbackSummarySuffix: string := "），请稍后再试"

  /** `create_fallback_evaluation`. */
  function FallbackEvaluation(reason: string): Json {
    JObject([
      Field("improvement_suggestions", StrList(["由于技术问题，无法提供详细评估和建议"])),
      Field("summary", JStr(FallbackSummaryPrefix + reason + FallbackSummarySuffix)),
      Field("overall_score", JStr("0"))
    ])
  }

  /** The reason a summary was built from: what lies between the fixed prefix and suffix. */
  function ReasonIn(summary: string): string
    requires |FallbackSummaryPrefix| + |FallbackSummarySuffix| <= |summary|
  {
    summary[|FallbackSummaryPrefix|..|summary| - |FallbackSummarySuffix|]
  }

  /**
   * A fallback evaluation has exactly three keys, and the reason can be read
   * back out of its summary.
   */
  lemma {:induction false} FallbackEvaluationShape(reason: string)
    ensures var r := FallbackEvaluation(reason);
      && KeyNames(r) == [StrKey("improvement_suggestions"), StrKey("summary"), StrKey("overall_score")]
      && GetField(r, "overall_score") == Some(JStr("0"))
      && GetField(r, "summary").Some? && GetField(r, "summary").value.JStr?
      && var summary := GetField(r, "summary").value.s;
        && StartsWith(summary, FallbackSummaryPrefix) && EndsWith(summary, FallbackSummarySuffix)
        && |FallbackSummaryPrefix| + |FallbackSummarySuffix| <= |summary|
        && ReasonIn(summary) == reason
  {
    var r := FallbackEvaluation(reason);
    assert KeyNames(r)[1] == StrKey("summary");
    var summary := FallbackSummaryPrefix + reason + FallbackSummarySuffix;
    assert summary[..|FallbackSummaryPrefix|] == FallbackSummaryPrefix;
    assert summary[|summary| - |FallbackSummarySuffix|..] == FallbackSummarySuffix;
    assert ReasonIn(summary) == reason;
  }

  // ---------------------------------------------------------------- error codes

  const Codes: seq<string> := ["WA", "TLE", "MLE", "RE", "CE", "AC"]

  /** `xs` is `ys` with some elements left out, the rest in their order. */
  predicate Subsequence(xs: seq<string>, ys: seq<string>)
    decreases |ys|
  {
    if xs == [] then true
    else if ys == [] then false
    else (xs[0] == ys[0] && Subsequence(xs[1..], ys[1..])) || Subsequence(xs, ys[1..])
  }

  /** The codes of `codes` that occur in `text`, in the order of `codes`. */
  function CodesIn(codes: seq<string>, text: string): (r: seq<string>)
    ensures forall c :: c in r <==> c in codes && Occurs(c, text)
    ensures Subsequence(r, codes)
    ensures PyDict.Distinct(codes) ==> PyDict.Distinct(r)
    decreases |codes|
  {
    if codes == [] then []
    else
      var rest := CodesIn(codes[1..], text);
      assert forall c :: c in codes <==> c == codes[0] || c in codes[1..];
      if Contains(text, codes[0]) then [codes[0]] + rest else rest
  }

  /** The loop collecting `error_types`, over the code list it is given. */
  method CollectErrorTypes(codes: seq<string>, text: string) returns (errorTypes: seq<string>)
    ensures errorTypes == CodesIn(codes, text)
  {
    errorTypes := [];
    var i := 0;
    while i < |codes|
      invariant 0 <= i <= |codes|
      invariant errorTypes + CodesIn(codes[i..], text) == CodesIn(codes, text)
    {
      assert codes[i..][1..] == codes[i + 1..];
      if Contains(text, codes[i]) {
        errorTypes := errorTypes + [codes[i]];
      }
      i := i + 1;
    }
    assert codes[i..] == [];
  }

  // ---------------------------------------------------------------- suggestions

  /** `建议` followed by a full-width or an ASCII colon starts at `p`. */
  predicate MarkerAt(s: string, p: nat) {
    p + 3 <= |s| && s[p] == '建' && s[p + 1] == '议' && (s[p + 2] == '：' || s[p + 2] == ':')
  }

  /**
   * Where the lazy group that begins at `q` stops: at the first blank line
   * (`\n\n`) at or after `q`, or at the end of the text.
   */
  function GroupEnd(s: string, q: nat): (e: nat)
    requires q <= |s|
    ensures q <= e <= |s|
    ensures e < |s| ==> OccursAt("\n\n", s, e)
    ensures forall j: nat :: q <= j < e ==> !OccursAt("\n\n", s, j)
  {
    var f := Find(s[q..], "\n\n");
    if f == -1 then
      assert forall j: nat :: q <= j < |s| ==> !OccursAt("\n\n", s, j) by {
        forall j: nat | q <= j < |s| ensures !OccursAt("\n\n", s, j) {
          assert !OccursAt("\n\n", s[q..], j - q);
          if j + 2 <= |s| { assert s[q..][j - q..j - q + 2] == s[j..j + 2]; }
        }
      }
      |s|
    else
      assert OccursAt("\n\n", s[q..], f);
      assert s[q..][f..f + 2] == s[q + f..q + f + 2];
      assert forall j: nat :: q <= j < q + f ==> !OccursAt("\n\n", s, j) by {
        forall j: nat | q <= j < q + f ensures !OccursAt("\n\n", s, j) {
          assert !OccursAt("\n\n", s[q..], j - q);
          assert s[q..][j - q..j - q + 2] == s[j..j + 2];
        }
      }
      q + f
  }

  /**
   * `re.findall(r'建议[：:](.*?)(?=\n\n|\Z)', text, re.DOTALL)`: scanning from
   * the left, each marker yields the text after it up to the next blank line
   * or the end, and the scan resumes where that text stops.
   */
  function SuggestionMatches(s: string): (r: seq<string>)
    ensures forall k :: 0 <= k < |r| ==> !Occurs("\n\n", r[k])
    decreases |s|
  {
    if |s| < 3 then []
    else if MarkerAt(s, 0) then
      var e := GroupEnd(s, 3);
      var m := s[3..e];
      assert forall j: nat :: !OccursAt("\n\n", m, j) by {
        forall j: nat ensures !OccursAt("\n\n", m, j) {
          if j + 2 <= |m| {
            assert m[j] == s[3 + j] && m[j + 1] == s[3 + j + 1];
            assert !OccursAt("\n\n", s, 3 + j);
          }
        }
      }
      [m] + SuggestionMatches(s[e..])
    else SuggestionMatches(s[1..])
  }

  /** Text without the character `建` has no suggestion segment. */
  lemma {:induction false} NoMarkerNoSuggestions(s: string)
    requires '建' !in s
    ensures SuggestionMatches(s) == []
    decreases |s|
  {
    if |s| >= 3 {
      assert s[0] != '建';
      assert forall c :: c in s[1..] ==> c in s;
      NoMarkerNoSuggestions(s[1..]);
    }
  }

  /**
   * A marker at the start takes everything up to the first blank line: the
   * text after a blank line is scanned again from the blank line on.
   */
  lemma {:induction false} SuggestionUpToBlankLine(colon: char, body: string, rest: string)
    requires colon == '：' || colon == ':'
    requires !Occurs("\n\n", body + "\n")
    ensures SuggestionMatches(['建', '议', colon] + body + "\n\n" + rest) ==
      [body] + SuggestionMatches("\n\n" + rest)
  {
    var s := ['建', '议', colon] + body + "\n\n" + rest;
    assert MarkerAt(s, 0);
    var e := GroupEnd(s, 3);
    assert OccursAt("\n\n", s, 3 + |body|);
    assert forall j: nat :: 3 <= j < 3 + |body| ==> !OccursAt("\n\n", s, j) by {
      forall j: nat | 3 <= j < 3 + |body| ensures !OccursAt("\n\n", s, j) {
        assert !OccursAt("\n\n", body + "\n", j - 3);
        assert s[j..j + 2] == (body + "\n")[j - 3..j - 1];
      }
    }
    assert e == 3 + |body|;
    assert s[3..e] == body;
    assert s[e..] == "\n\n" + rest;
  }

  /** A marker at the start with no blank line after it takes the rest of the text. */
  lemma {:induction false} SuggestionToEnd(colon: char, body: string)
    requires colon == '：' || colon == ':'
    requires !Occurs("\n\n", body)
    ensures SuggestionMatches(['建', '议', colon] + body) == [body]
  {
    var s := ['建', '议', colon] + body;
    assert MarkerAt(s, 0);
    assert forall j: nat :: 3 <= j < |s| ==> !OccursAt("\n\n", s, j) by {
      forall j: nat | 3 <= j < |s| ensures !OccursAt("\n\n", s, j) {
        assert !OccursAt("\n\n", body, j - 3);
        if j + 2 <= |s| { assert s[j..j + 2] == body[j - 3..j - 1]; }
      }
    }
    assert GroupEnd(s, 3) == |s|;
    assert s[3..|s|] == body;
    assert SuggestionMatches(s[|s|..]) == [];
    assert SuggestionMatches(s) == [s[3..|s|]] + SuggestionMatches(s[|s|..]);
  }

  /** The loop appending each stripped match. */
  method CollectSuggestions(matches: seq<string>) returns (suggestions: seq<string>)
    ensures suggestions == StripAll(matches)
  {
    suggestions := [];
    for i := 0 to |matches|
      invariant suggestions == StripAll(matches[..i])
    {
      TakeOneMore(matches, i);
      StripAllAppend(matches[..i], matches[i]);
      suggestions := suggestions + [Strip(matches[i])];
    }
    TakeAll(matches);
  }

  // ---------------------------------------------------------------- sentences

  /**
   * The length of the separator of `re.split(r'\.\s+|\n', …)` at the start of
   * `s`: a full stop with the whitespace run after it, a newline, or nothing.
   */
  function SeparatorLength(s: string): (n: nat)
    ensures n <= |s|
  {
    if |s| >= 2 && s[0] == '.' && IsSpace(s[1]) then
      assert SpaceRun(s[1..]) <= |s| - 1;
      1 + SpaceRun(s[1..])
    else if |s| >= 1 && s[0] == '\n' then 1
    else 0
  }

  /** Scanning for separators from the left, `current` being the sentence read so far. */
  function SplitFrom(s: string, current: string): (r: seq<string>)
    ensures |r| >= 1
    decreases |s|
  {
    if s == [] then [current]
    else
      var n := SeparatorLength(s);
      if n > 0 then [current] + SplitFrom(s[n..], "")
      else SplitFrom(s[1..], current + [s[0]])
  }

  /** `re.split(r'\.\s+|\n', text)`. */
  function Sentences(text: string): seq<string> {
    SplitFrom(text, "")
  }

  /** No sentence holds a newline: every newline is, or ends, a separator. */
  lemma {:induction false} SplitFromNoNewline(s: string, current: string)
    requires '\n' !in current
    ensures forall k :: 0 <= k < |SplitFrom(s, current)| ==> '\n' !in SplitFrom(s, current)[k]
    decreases |s|
  {
    if s != [] {
      var n := SeparatorLength(s);
      if n > 0 {
        SplitFromNoNewline(s[n..], "");
      } else {
        assert s[0] != '\n';
        SplitFromNoNewline(s[1..], current + [s[0]]);
      }
    }
  }

  lemma {:induction false} SentencesHaveNoNewline(text: string)
    ensures forall k :: 0 <= k < |Sentences(text)| ==> '\n' !in Sentences(text)[k]
  {
    SplitFromNoNewline(text, "");
  }

  /** A reasonable sentence: more than 20 and fewer than 200 characters, before stripping. */
  predicate Reasonable(sentence: string) {
    20 < |sentence| < 200
  }

  /** The reasonable sentences, stripped, in order. */
  function KeptSentences(sentences: seq<string>): (r: seq<string>)
    ensures |r| <= |sentences|
  {
    if sentences == [] then []
    else
      var rest := KeptSentences(sentences[1..]);
      if Reasonable(sentences[0]) then [Strip(sentences[0])] + rest else rest
  }

  lemma {:induction false} KeptSentencesAppend(a: seq<string>, b: seq<string>)
    ensures KeptSentences(a + b) == KeptSentences(a) + KeptSentences(b)
  {
    if a == [] {
      assert a + b == b;
    } else {
      assert (a + b)[1..] == a[1..] + b;
      KeptSentencesAppend(a[1..], b);
    }
  }

  /** Every kept sentence is a reasonable sentence of the input, stripped. */
  lemma {:induction false} KeptSentencesFrom(sentences: seq<string>)
    ensures forall x :: x in KeptSentences(sentences) ==> exists y :: y in sentences && Reasonable(y) && x == Strip(y)
  {
    if sentences != [] {
      KeptSentencesFrom(sentences[1..]);
      assert forall y :: y in sentences[1..] ==> y in sentences;
    }
  }

  /** The first two kept sentences, or all of them when there are fewer. */
  function FirstTwo(xs: seq<string>): (r: seq<string>)
    ensures |r| == if |xs| < 2 then |xs| else 2
    ensures r == xs[..|r|]
  {
    if |xs| <= 2 then xs else xs[..2]
  }

  /**
   * The sentence loop: reasonable sentences are appended stripped, and the
   * loop stops as soon as two have been collected.
   */
  method PickSentences(sentences: seq<string>) returns (suggestions: seq<string>)
    ensures suggestions == FirstTwo(KeptSentences(sentences))
  {
    suggestions := [];
    var i := 0;
    while i < |sentences|
      invariant 0 <= i <= |sentences|
      invariant suggestions == KeptSentences(sentences[..i])
      invariant |suggestions| < 2
    {
      TakeOneMore(sentences, i);
      KeptSentencesAppend(sentences[..i], [sentences[i]]);
      if Reasonable(sentences[i]) {
        suggestions := suggestions + [Strip(sentences[i])];
        if |suggestions| >= 2 {
          KeptSentencesAppend(sentences[..i + 1], sentences[i + 1..]);
          SplitAt(sentences, i + 1);
          TakeFront(suggestions, KeptSentences(sentences[i + 1..]));
          return;
        }
      }
      i := i + 1;
    }
    TakeAll(sentences);
  }

  // ---------------------------------------------------------------- fallback response

  /** The suggestions salvaged from `text`, before the default is applied. */
  function Suggestions(text: string): seq<string> {
    var matches := SuggestionMatches(text);
    if matches != [] then StripAll(matches) else FirstTwo(KeptSentences(Sentences(text)))
  }

  /** The dict `create_fallback_response` returns, given the collected lists. */
  function FallbackObject(errorTypes: seq<string>, suggestions: seq<string>): Json {
    JObject([
      Field("error_types", StrList(if errorTypes != [] then errorTypes else ["未知"])),
      Field("explanation", JStr("无法解析完整评估结果")),
      Field("code_standard", Assessment(NoPoints, StrList(["无法进行详细评估"]))),
      Field("code_logic", Assessment(NoPoints, NoPoints)),
      Field("code_efficiency", Assessment(NoPoints, NoPoints)),
      Field("improvement_suggestions", StrList(if suggestions != [] then suggestions else ["由于技术问题，无法提供详细建议"])),
      Field("summary", JStr("评估解析失败，仅提供部分信息")),
      Field("overall_score", JStr("0"))
    ])
  }

  /** `create_fallback_response`. */
  method FallbackResponse(text: string) returns (r: Json)
    ensures r == FallbackObject(CodesIn(Codes, text), Suggestions(text))
  {
    var errorTypes := CollectErrorTypes(Codes, text);
    var suggestions: seq<string> := [];
    var matches := SuggestionMatches(text);
    if matches != [] {
      suggestions := CollectSuggestions(matches);
    }
    if suggestions == [] {
      suggestions := PickSentences(Sentences(text));
    }
    r := FallbackObject(errorTypes, suggestions);
  }

  /**
   * The error types of a fallback response are the codes found in the text,
   * each once and in the fixed order, or `["未知"]` when none is found.
   */
  lemma {:induction false} FallbackErrorTypes(text: string)
    ensures var ts := CodesIn(Codes, text);
      && (forall c :: c in ts <==> c in Codes && Occurs(c, text))
      && Subsequence(ts, Codes) && PyDict.Distinct(ts)
    ensures CodesIn(Codes, text) == [] ==>
      GetField(FallbackObject(CodesIn(Codes, text), Suggestions(text)), "error_types") == Some(StrList(["未知"]))
  {
    assert PyDict.Distinct(Codes);
  }

  /**
   * Without a marker segment, at most two reasonable sentences are taken, in
   * order, each stripped.
   */
  lemma {:induction false} SuggestionSources(text: string)
    requires SuggestionMatches(text) == []
    ensures var s := Suggestions(text);
      && |s| <= 2
      && s == KeptSentences(Sentences(text))[..|s|]
      && forall x :: x in s ==> exists y :: y in Sentences(text) && Reasonable(y) && x == Strip(y)
  {
    var kept := KeptSentences(Sentences(text));
    KeptSentencesFrom(Sentences(text));
    var s := FirstTwo(kept);
    assert s == Suggestions(text);
    assert forall x :: x in s ==> x in kept by {
      forall x | x in s ensures x in kept {
        var k :| 0 <= k < |s| && s[k] == x;
        assert kept[k] == x;
      }
    }
  }

  /**
   * The response has the eight keys, a non-empty suggestion list in every
   * case, and the fixed explanation, summary and score.
   */
  lemma {:induction false} FallbackShape(errorTypes: seq<string>, suggestions: seq<string>)
    ensures var r := FallbackObject(errorTypes, suggestions);
      && KeyNames(r) == [StrKey("error_types"), StrKey("explanation"), StrKey("code_standard"), StrKey("code_logic"),
                         StrKey("code_efficiency"), StrKey("improvement_suggestions"), StrKey("summary"), StrKey("overall_score")]
      && r.entries[0].1.JList? && r.entries[0].1.items != []
      && r.entries[5].1.JList? && r.entries[5].1.items != []
      && r.entries[7].1 == JStr("0")
  {
  }
}
