/**
 * `_call_llm_api`: one call to the chat model. A reply is passed on as its
 * text; an exception becomes the JSON text of a fixed error payload, which
 * the decoder later reads like any other reply.
 */
module LlmApi {
  import opened Wrappers
  import opened Text
  import PyDict
  import opened JsonValue
  import JsonParser

  /** What one call to the chat model does: reply with text, or raise an exception of some type. */
  datatype ApiOutcome = Replied(text: string) | Raised(exceptionType: string, message: string)

  /** The dict `_call_llm_api` serialises in place of a reply when the call raises. */
  function ApiErrorPayload(exceptionType: string, message: string): Json {
    JObject([
      Field("error", JStr("API调用失败: " + exceptionType + ": " + message)),
      Field("error_types", StrList(["API错误"])),
      Field("explanation", JStr(message))
    ])
  }

  /** `_call_llm_api`: the reply text, or `dumps` of the error payload. */
  function CallLlmApi(outcome: ApiOutcome, dumps: Json -> string): string {
    match outcome
    case Replied(text) => text
    case Raised(t, m) => dumps(ApiErrorPayload(t, m))
  }

  /** The error payload is already in the form `normalize_dict_keys` produces. */
  lemma {:induction false} PayloadCanonical(t: string, m: string)
    ensures JsonParser.Canonical(ApiErrorPayload(t, m))
  {
    StrListCanonical(["API错误"]);
    ErrorObjectCanonical(JStr("API调用失败: " + t + ": " + m), StrList(["API错误"]), JStr(m));
  }

  /** An object with the payload's three keys is canonical when its values are. */
  lemma {:induction false} ErrorObjectCanonical(error: Json, types: Json, explanation: Json)
    requires JsonParser.Canonical(error) && JsonParser.Canonical(types) && JsonParser.Canonical(explanation)
    ensures JsonParser.Canonical(JObject([Field("error", error), Field("error_types", types), Field("explanation", explanation)]))
  {
    PayloadKeysDistinct();
    ThreeFieldsCanonical(StrKey("error"), StrKey("error_types"), StrKey("explanation"), error, types, explanation);
  }

  /** The payload's keys are distinct. */
  lemma {:induction false} PayloadKeysDistinct()
    ensures "error" != "error_types" && "error" != "explanation" && "error_types" != "explanation"
  {
    assert "error_types"[1] != "explanation"[1];
  }

  /** A three-entry dict with distinct normal keys and canonical values is canonical. */
  lemma {:induction false} ThreeFieldsCanonical(k1: Key, k2: Key, k3: Key, v1: Json, v2: Json, v3: Json)
    requires k1 != k2 && k1 != k3 && k2 != k3
    requires JsonParser.NormalKey(k1) && JsonParser.NormalKey(k2) && JsonParser.NormalKey(k3)
    requires JsonParser.Canonical(v1) && JsonParser.Canonical(v2) && JsonParser.Canonical(v3)
    ensures JsonParser.Canonical(JObject([(k1, v1), (k2, v2), (k3, v3)]))
  {
    var es := [(k1, v1), (k2, v2), (k3, v3)];
    assert PyDict.Keys(es) == [k1, k2, k3];
    ObjectCanonical(es);
  }

  lemma {:induction false} StrListCanonical(xs: seq<string>)
    ensures JsonParser.Canonical(StrList(xs))
  {
  }

  lemma {:induction false} ObjectCanonical(es: seq<(Key, Json)>)
    requires PyDict.Distinct(PyDict.Keys(es))
    requires forall e :: e in es ==> JsonParser.NormalKey(e.0) && JsonParser.Canonical(e.1)
    ensures JsonParser.Canonical(JObject(es))
  {
    assert forall i :: 0 <= i < |es| ==> es[i] in es;
  }

  /** The payload's error types are `["API错误"]`. */
  lemma {:induction false} PayloadErrorTypes(t: string, m: string)
    ensures GetField(ApiErrorPayload(t, m), "error_types") == Some(StrList(["API错误"]))
  {
    var ks := PyDict.Keys(ApiErrorPayload(t, m).entries);
    assert ks[1] == StrKey("error_types") && ks[..1] == [StrKey("error")];
    PyDict.IndexOfUnique(ks, StrKey("error_types"), 1);
  }
}
