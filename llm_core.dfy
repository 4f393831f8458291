/**
 * The evaluator's two-step evaluation: an error analysis and an improvement
 * analysis, each a language-model reply parsed as JSON, merged into one
 * result. The model replies, `json.dumps` and the JSON decoder are parameters;
 * every path that fails or raises ends in the fixed error response.
 */
module LlmCore {
  import opened Wrappers
  import opened Text
  import PyDict
  import opened JsonValue
  import JsonParser
  import opened ErrorHandlers
  import Formatters
  import opened EvaluationFields
  import opened LlmApi

  const NoApiKeyMessage: string := "未配置OpenAI API密钥"
  const UnavailableMessage: string := "AI评估服务暂时不可用"

  // ---------------------------------------------------------------- the safe analyses

  /** The services the evaluation runs on. */
  datatype Services = Services(
    repr: Json -> string,                  // container `repr` inside f-strings
    analyst: string -> ApiOutcome,         // the error-analysis call, given the formatted test results
    advisor: (string, Json) -> ApiOutcome, // the improvement call, given the results and the analysis
    dumps: Json -> string,                 // `json.dumps`
    directLoads: string -> Option<Json>,   // the decoding inside `direct_json_parse`
    repair: string -> string)              // the regex repairs of `clean_json_string`

  /**
   * `_safe_error_analysis` and `_safe_improvement_analysis`: the reply parsed
   * by `direct_json_parse`, `None` when that raises.
   */
  function SafeAnalysis(outcome: ApiOutcome, s: Services): (r: Option<Json>)
    ensures r.Some? ==> JsonParser.Canonical(r.value)
  {
    JsonParser.DirectJsonParse(CallLlmApi(outcome, s.dumps), s.directLoads, s.repair)
  }

  /**
   * A failed model call is not a failed analysis: when the decoder reads back
   * what `dumps` wrote, the analysis is the error payload itself.
   */
  lemma {:induction false} ApiFailureIsAnalysed(t: string, m: string, s: Services)
    requires var p := ApiErrorPayload(t, m);
      s.directLoads(JsonParser.Clean(JsonParser.Unfenced(s.dumps(p)), s.repair)) == Some(p)
    ensures SafeAnalysis(Raised(t, m), s) == Some(ApiErrorPayload(t, m))
  {
    var p := ApiErrorPayload(t, m);
    PayloadCanonical(t, m);
    JsonParser.CanonicalFixed(p);
    assert CallLlmApi(Raised(t, m), s.dumps) == s.dumps(p);
  }

  // ---------------------------------------------------------------- evaluate_code

  /** Python's `x is None` for what a safe analysis returns: a failure, or JSON `null`. */
  predicate IsNone(o: Option<Json>) {
    o.None? || o.value.JNull?
  }

  /** A result field taken over by `.get`: its key and the default used when the key is missing. */
  datatype Copied = Copied(name: string, default: Json)

  /** The fields taken from the error analysis. */
  const AnalysisCopies: seq<Copied> := [
    Copied("error_types", NoPoints), Copied("explanation", JStr("")), Copied("error_details", NoPoints)]

  /** The fields taken from the improvement data, in the order of the result. */
  const ImprovementCopies: seq<Copied> := [
    Copied("code_standard", EmptyAssessment), Copied("code_logic", EmptyAssessment),
    Copied("code_efficiency", EmptyAssessment), Copied("improvement_suggestions", NoPoints),
    Copied("overall_score", JStr("0")), Copied("summary", JStr(""))]

  /** `{c.name: src.get(c.name, c.default) for c in cs}`. */
  function CopiedFields(src: Json, cs: seq<Copied>): (es: seq<(Key, Json)>)
    requires src.JObject?
    ensures |es| == |cs|
    ensures forall k :: 0 <= k < |cs| ==> es[k] == Field(cs[k].name, GetFieldOr(src, cs[k].name, cs[k].default))
  {
    seq(|cs|, k requires 0 <= k < |cs| => Field(cs[k].name, GetFieldOr(src, cs[k].name, cs[k].default)))
  }

  /** The fixed improvement part of the partial response. */
  const PartialFields: seq<(Key, Json)> := [
    Field("code_standard", Assessment(NoPoints, StrList(["评估部分失败"]))),
    Field("code_logic", EmptyAssessment),
    Field("code_efficiency", EmptyAssessment),
    Field("improvement_suggestions", StrList(["由于部分评估失败，无法提供详细建议"])),
    Field("overall_score", JStr("0")),
    Field("summary", JStr("部分评估完成"))]

  /** The response when the improvement step yields nothing. */
  function PartialResponse(analysis: Json): Json
    requires analysis.JObject?
  {
    JObject(CopiedFields(analysis, AnalysisCopies) + PartialFields)
  }

  /** The merged result: `error_*` from the analysis, the rest from the improvement data. */
  function MergedResponse(analysis: Json, improvement: Json): Json
    requires analysis.JObject? && improvement.JObject?
  {
    JObject(CopiedFields(analysis, AnalysisCopies) + CopiedFields(improvement, ImprovementCopies))
  }

  const ResultKeys: seq<Key> := [
    StrKey("error_types"), StrKey("explanation"), StrKey("error_details"),
    StrKey("code_standard"), StrKey("code_logic"), StrKey("code_efficiency"),
    StrKey("improvement_suggestions"), StrKey("overall_score"), StrKey("summary")]

  /**
   * `evaluate_code`. A missing key and missing test results stop before any
   * model call. A `None` analysis is an error. An analysis that is not a dict
   * makes `.get` raise, and an improvement result that is not a dict makes
   * `_ensure_evaluation_fields` raise; both exceptions end in the error
   * response.
   */
  function EvaluateCode(apiKey: string, testResults: Option<seq<Formatters.TestResult>>, s: Services): (r: Json)
    ensures r.JObject?
  {
    if apiKey == "" then ErrorResponse(NoApiKeyMessage)
    else
      var formatted := Formatters.Formatted(testResults, s.repr);
      if testResults.None? || testResults.value == [] then ErrorResponse(UnavailableMessage)
      else
        var analysis := SafeAnalysis(s.analyst(formatted), s);
        if IsNone(analysis) then ErrorResponse(UnavailableMessage)
        else
          var improvement := SafeAnalysis(s.advisor(formatted, analysis.value), s);
          if !analysis.value.JObject? then ErrorResponse(UnavailableMessage)
          else if IsNone(improvement) then PartialResponse(analysis.value)
          else if !improvement.value.JObject? then ErrorResponse(UnavailableMessage)
          else MergedResponse(analysis.value, JObject(Ensured(improvement.value.entries)))
  }

  /** The analysis the evaluation works from, for the given inputs. */
  function AnalysisOf(testResults: Option<seq<Formatters.TestResult>>, s: Services): Option<Json> {
    SafeAnalysis(s.analyst(Formatters.Formatted(testResults, s.repr)), s)
  }

  function ImprovementOf(testResults: Option<seq<Formatters.TestResult>>, analysis: Json, s: Services): Option<Json> {
    SafeAnalysis(s.advisor(Formatters.Formatted(testResults, s.repr), analysis), s)
  }

  /**
   * The evaluation never fails: it is the error response for a missing key,
   * the error response for every other failure, the partial response, or the
   * merged response.
   */
  lemma {:induction false} EvaluateOutcomes(apiKey: string, testResults: Option<seq<Formatters.TestResult>>, s: Services)
    ensures var r := EvaluateCode(apiKey, testResults, s);
      || r == ErrorResponse(NoApiKeyMessage)
      || r == ErrorResponse(UnavailableMessage)
      || (exists a: Json :: a.JObject? && r == PartialResponse(a))
      || (exists a: Json, i: Obj :: a.JObject? && r == MergedResponse(a, JObject(Ensured(i))))
  {
    var r := EvaluateCode(apiKey, testResults, s);
    if apiKey != "" && testResults.Some? && testResults.value != [] {
      var analysis := AnalysisOf(testResults, s);
      if !IsNone(analysis) && analysis.value.JObject? {
        var improvement := ImprovementOf(testResults, analysis.value, s);
        if IsNone(improvement) {
          assert r == PartialResponse(analysis.value);
        } else if improvement.value.JObject? {
          assert r == MergedResponse(analysis.value, JObject(Ensured(improvement.value.entries)));
        }
      }
    }
  }

  /** Without an API key the answer is the missing-key error, whatever else is given. */
  lemma {:induction false} MissingKeyFirst(testResults: Option<seq<Formatters.TestResult>>, s: Services)
    ensures EvaluateCode("", testResults, s) == ErrorResponse(NoApiKeyMessage)
  {
  }

  /** No test results, or an analysis that yields `None`, give the service-unavailable error. */
  lemma {:induction false} UnavailableCases(apiKey: string, testResults: Option<seq<Formatters.TestResult>>, s: Services)
    requires apiKey != ""
    requires testResults.None? || testResults.value == [] || IsNone(AnalysisOf(testResults, s))
    ensures EvaluateCode(apiKey, testResults, s) == ErrorResponse(UnavailableMessage)
  {
  }

  /** A dict analysis with no improvement result gives the partial response. */
  lemma {:induction false} PartialWhenImprovementFails(apiKey: string, testResults: Option<seq<Formatters.TestResult>>, s: Services)
    requires apiKey != "" && testResults.Some? && testResults.value != []
    requires !IsNone(AnalysisOf(testResults, s)) && AnalysisOf(testResults, s).value.JObject?
    requires IsNone(ImprovementOf(testResults, AnalysisOf(testResults, s).value, s))
    ensures EvaluateCode(apiKey, testResults, s) == PartialResponse(AnalysisOf(testResults, s).value)
  {
  }

  /** The keys of copied fields are the names of their copies. */
  lemma {:induction false} CopiedKeys(src: Json, cs: seq<Copied>)
    requires src.JObject?
    ensures PyDict.Keys(CopiedFields(src, cs)) == seq(|cs|, k requires 0 <= k < |cs| => StrKey(cs[k].name))
  {
  }

  /** Both the partial and the merged response list the nine result keys in this order. */
  lemma {:induction false} ResultKeysOrder()
    ensures seq(3, k requires 0 <= k < 3 => StrKey(AnalysisCopies[k].name)) + PyDict.Keys(PartialFields) == ResultKeys
    ensures seq(3, k requires 0 <= k < 3 => StrKey(AnalysisCopies[k].name))
      + seq(6, k requires 0 <= k < 6 => StrKey(ImprovementCopies[k].name)) == ResultKeys
  {
  }

  /** The partial response has the nine result keys, a score of `"0"` and the summary `部分评估完成`. */
  lemma {:induction false} PartialResponseShape(analysis: Json)
    requires analysis.JObject?
    ensures var r := PartialResponse(analysis);
      && KeyNames(r) == ResultKeys
      && r.entries[7] == Field("overall_score", JStr("0"))
      && r.entries[8] == Field("summary", JStr("部分评估完成"))
  {
    CopiedKeys(analysis, AnalysisCopies);
    ResultKeysOrder();
    var es := CopiedFields(analysis, AnalysisCopies);
    assert PyDict.Keys(es + PartialFields) == PyDict.Keys(es) + PyDict.Keys(PartialFields);
  }

  /** Two dict results are merged, the improvement data after its fields were ensured. */
  lemma {:induction false} MergedWhenBothDicts(apiKey: string, testResults: Option<seq<Formatters.TestResult>>, s: Services)
    requires apiKey != "" && testResults.Some? && testResults.value != []
    requires IsDictValue(AnalysisOf(testResults, s))
    requires IsDictValue(ImprovementOf(testResults, AnalysisOf(testResults, s).value, s))
    ensures EvaluateCode(apiKey, testResults, s) ==
      MergedResponse(AnalysisOf(testResults, s).value,
        JObject(Ensured(ImprovementOf(testResults, AnalysisOf(testResults, s).value, s).value.entries)))
  {
  }

  /**
   * A merged result has exactly the nine keys; when the improvement data has
   * the six fields `_ensure_evaluation_fields` guarantees, each of them is
   * taken over as it is and none of the merge defaults is used.
   */
  lemma {:induction false} MergedShape(analysis: Json, i: Obj)
    requires analysis.JObject?
    requires forall n :: n in RequiredFields ==> Has(i, n)
    ensures var r := MergedResponse(analysis, JObject(i));
      && KeyNames(r) == ResultKeys
      && forall k :: 0 <= k < |ImprovementCopies| ==> Some(r.entries[3 + k].1) == Lookup(i, ImprovementCopies[k].name)
  {
    var es := CopiedFields(analysis, AnalysisCopies);
    var fs := CopiedFields(JObject(i), ImprovementCopies);
    CopiedKeys(analysis, AnalysisCopies);
    CopiedKeys(JObject(i), ImprovementCopies);
    ResultKeysOrder();
    assert PyDict.Keys(es + fs) == PyDict.Keys(es) + PyDict.Keys(fs);
    ImprovementCopiesRequired();
  }

  /** Every field the merge takes from the improvement data is one `_ensure_evaluation_fields` guarantees. */
  lemma {:induction false} ImprovementCopiesRequired()
    ensures forall k :: 0 <= k < |ImprovementCopies| ==> ImprovementCopies[k].name in RequiredFields
  {
  }

  /** After the fields are ensured, the merge takes the six fields from the improvement data. */
  lemma {:induction false} MergedTakesEnsured(analysis: Json, d: Obj)
    requires analysis.JObject?
    ensures var r := MergedResponse(analysis, JObject(Ensured(d)));
      forall k :: 0 <= k < |ImprovementCopies| ==> Some(r.entries[3 + k].1) == Lookup(Ensured(d), ImprovementCopies[k].name)
  {
    forall n | n in RequiredFields
      ensures Has(Ensured(d), n)
    {
      EnsuredComplete(d, n);
    }
    MergedShape(analysis, Ensured(d));
  }

  /**
   * A model call that raises during the error analysis yields, when the
   * decoder reads back what `dumps` wrote, a merged result whose error types
   * are `["API错误"]`.
   */
  lemma {:induction false} ApiFailureReported(apiKey: string, testResults: Option<seq<Formatters.TestResult>>, s: Services, t: string, m: string)
    requires apiKey != "" && testResults.Some? && testResults.value != []
    requires s.analyst(Formatters.Formatted(testResults, s.repr)) == Raised(t, m)
    requires var p := ApiErrorPayload(t, m);
      s.directLoads(JsonParser.Clean(JsonParser.Unfenced(s.dumps(p)), s.repair)) == Some(p)
    requires IsDictValue(ImprovementOf(testResults, ApiErrorPayload(t, m), s))
    ensures GetField(EvaluateCode(apiKey, testResults, s), "error_types") == Some(StrList(["API错误"]))
  {
    var p := ApiErrorPayload(t, m);
    ApiFailureIsAnalysed(t, m, s);
    assert AnalysisOf(testResults, s) == Some(p);
    MergedWhenBothDicts(apiKey, testResults, s);
    MergedErrorTypes(p, JObject(Ensured(ImprovementOf(testResults, p, s).value.entries)));
    PayloadErrorTypes(t, m);
  }

  /** A merged result carries the analysis' error types, or `[]` when it has none. */
  lemma {:induction false} MergedErrorTypes(analysis: Json, improvement: Json)
    requires analysis.JObject? && improvement.JObject?
    ensures GetField(MergedResponse(analysis, improvement), "error_types") == Some(GetFieldOr(analysis, "error_types", NoPoints))
  {
    var es := MergedResponse(analysis, improvement).entries;
    assert AnalysisCopies[0] == Copied("error_types", NoPoints);
    assert es[0] == Field("error_types", GetFieldOr(analysis, "error_types", NoPoints));
    PyDict.GetFirst(es, StrKey("error_types"), GetFieldOr(analysis, "error_types", NoPoints));
  }
}
