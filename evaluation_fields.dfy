/**
 * `_ensure_evaluation_fields` of the evaluator: the improvement data a model
 * returns is completed in place with the fields the merged result takes from
 * it. Each statement of the source is a function on the dict; the method
 * runs them on a shared dict object, and the lemmas describe the result key
 * by key.
 */
module EvaluationFields {
  import opened Wrappers
  import PyDict
  import opened JsonValue
  import opened ErrorHandlers

  /** A parsed JSON object, as the dict Python holds it. */
  type Obj = PyDict.Dict<Key, Json>


  const EmptyAssessment: Json := Assessment(NoPoints, NoPoints)

  function Lookup(d: Obj, name: string): Option<Json> {
    PyDict.Get(d, StrKey(name))
  }

  predicate Has(d: Obj, name: string) {
    Lookup(d, name).Some?
  }

  /** Writing back the value a key already holds changes nothing. */
  lemma {:induction false} SetSame(d: Obj, k: Key)
    requires PyDict.Get(d, k).Some?
    ensures PyDict.Set(d, k, PyDict.Get(d, k).value) == d
  {
    var i := PyDict.IndexOf(PyDict.Keys(d), k);
    assert d[i].0 == k;
  }

  /** `if name not in d: d[name] = default`. */
  function EnsureKey(d: Obj, name: string, default: Json): Obj {
    if Has(d, name) then d else PyDict.Set(d, StrKey(name), default)
  }

  /** An assessment field: the empty assessment when missing; a list becomes the `cons` of one. */
  function ListAsCons(d: Obj, name: string): Obj {
    if !Has(d, name) then PyDict.Set(d, StrKey(name), EmptyAssessment)
    else if Lookup(d, name).value.JList? then
      PyDict.Set(d, StrKey(name), Assessment(NoPoints, Lookup(d, name).value))
    else d
  }

  /** A missing field is copied from `source` when that is present, else set to `default`. */
  function CopyIfMissing(d: Obj, name: string, source: string, default: Json): Obj {
    if Has(d, name) then d
    else if Has(d, source) then PyDict.Set(d, StrKey(name), Lookup(d, source).value)
    else PyDict.Set(d, StrKey(name), default)
  }

  /** Everything `_ensure_evaluation_fields` does before its loop, statement by statement. */
  function Defaulted(d: Obj): Obj {
    var d1 := ListAsCons(d, "code_standard");
    var d2 := EnsureKey(d1, "code_logic", EmptyAssessment);
    var d3 := EnsureKey(d2, "code_efficiency", EmptyAssessment);
    var d4 := CopyIfMissing(d3, "improvement_suggestions", "suggestions", NoPoints);
    var d5 := EnsureKey(d4, "summary", JStr(""));
    EnsureKey(d5, "overall_score", JStr("0"))
  }

  /** An assessment dict with `pros` and `cons` added where missing. */
  function Completed(v: Json): Json
    requires v.JObject?
  {
    JObject(EnsureKey(EnsureKey(v.entries, "pros", NoPoints), "cons", NoPoints))
  }

  /** Whether `v` is a dict: the `isinstance(data[field], dict)` test. */
  predicate IsDictValue(v: Option<Json>) {
    v.Some? && v.value.JObject?
  }

  /** Whether `v` is a list. */
  predicate IsListValue(v: Option<Json>) {
    v.Some? && v.value.JList?
  }

  /** One turn of the loop over the assessment fields. */
  function EnsureProsCons(d: Obj, field: string): Obj {
    var v := Lookup(d, field);
    if IsDictValue(v) then PyDict.Set(d, StrKey(field), Completed(v.value)) else d
  }

  /** The loop over the assessment fields, one field after another. */
  function EnsureAllProsCons(d: Obj, fields: seq<string>): Obj
    decreases |fields|
  {
    if fields == [] then d else EnsureAllProsCons(EnsureProsCons(d, fields[0]), fields[1..])
  }

  const AssessmentFields: seq<string> := ["code_standard", "code_logic", "code_efficiency"]

  /** The six keys every ensured evaluation holds. */
  const RequiredFields: seq<string> :=
    ["code_standard", "code_logic", "code_efficiency", "improvement_suggestions", "summary", "overall_score"]

  /** The dict `_ensure_evaluation_fields` leaves behind. */
  function Ensured(d: Obj): Obj {
    EnsureAllProsCons(Defaulted(d), AssessmentFields)
  }

  /** A Python dict object that callers share and methods update in place. */
  class DictObject {
    var entries: Obj

    constructor(entries: Obj)
      ensures this.entries == entries
    {
      this.entries := entries;
    }
  }

  /** `if name not in data: data[name] = default`, on the shared dict. */
  method SetDefault(data: DictObject, name: string, default: Json)
    modifies data
    ensures data.entries == EnsureKey(old(data.entries), name, default)
  {
    if !Has(data.entries, name) {
      data.entries := PyDict.Set(data.entries, StrKey(name), default);
    }
  }

  /** The `code_standard` statement of `_ensure_evaluation_fields`. */
  method WrapListField(data: DictObject, name: string)
    modifies data
    ensures data.entries == ListAsCons(old(data.entries), name)
  {
    if !Has(data.entries, name) {
      data.entries := PyDict.Set(data.entries, StrKey(name), EmptyAssessment);
    } else if Lookup(data.entries, name).value.JList? {
      data.entries := PyDict.Set(data.entries, StrKey(name), Assessment(NoPoints, Lookup(data.entries, name).value));
    }
  }

  /** The `improvement_suggestions` statement of `_ensure_evaluation_fields`. */
  method CopyDefault(data: DictObject, name: string, source: string, default: Json)
    modifies data
    ensures data.entries == CopyIfMissing(old(data.entries), name, source, default)
  {
    if !Has(data.entries, name) {
      if Has(data.entries, source) {
        data.entries := PyDict.Set(data.entries, StrKey(name), Lookup(data.entries, source).value);
      } else {
        data.entries := PyDict.Set(data.entries, StrKey(name), default);
      }
    }
  }

  /**
   * One turn of the loop: a dict under `field` gets `pros` and `cons`. The
   * nested dict is changed through the outer one, so the model writes the
   * changed copy back under `field`.
   */
  method CompleteField(data: DictObject, field: string)
    modifies data
    ensures data.entries == EnsureProsCons(old(data.entries), field)
  {
    var value := Lookup(data.entries, field);
    if value.Some? && value.value.JObject? {
      var inner := value.value.entries;
      if !Has(inner, "pros") {
        inner := PyDict.Set(inner, StrKey("pros"), NoPoints);
      }
      if !Has(inner, "cons") {
        inner := PyDict.Set(inner, StrKey("cons"), NoPoints);
      }
      assert JObject(inner) == Completed(value.value);
      data.entries := PyDict.Set(data.entries, StrKey(field), JObject(inner));
    }
  }

  /** The statements of `_ensure_evaluation_fields` before its loop. */
  method FillDefaults(data: DictObject)
    modifies data
    ensures data.entries == Defaulted(old(data.entries))
  {
    WrapListField(data, "code_standard");
    SetDefault(data, "code_logic", EmptyAssessment);
    SetDefault(data, "code_efficiency", EmptyAssessment);
    CopyDefault(data, "improvement_suggestions", "suggestions", NoPoints);
    SetDefault(data, "summary", JStr(""));
    SetDefault(data, "overall_score", JStr("0"));
  }

  /** The loop of `_ensure_evaluation_fields` over the given fields. */
  method CompleteFields(data: DictObject, fields: seq<string>)
    modifies data
    ensures data.entries == EnsureAllProsCons(old(data.entries), fields)
  {
    for i := 0 to |fields|
      invariant EnsureAllProsCons(data.entries, fields[i..]) == EnsureAllProsCons(old(data.entries), fields)
    {
      assert fields[i..][1..] == fields[i + 1..];
      CompleteField(data, fields[i]);
    }
  }

  /** `_ensure_evaluation_fields`: fills in the evaluation fields of `data` in place. */
  method EnsureEvaluationFields(data: DictObject)
    modifies data
    ensures data.entries == Ensured(old(data.entries))
  {
    FillDefaults(data);
    CompleteFields(data, AssessmentFields);
  }

  // ---------------------------------------------------------------- properties of the defaults

  /**
   * What the defaults put under each key, key by key: a reference
   * description of the statements before the loop.
   */
  function DefaultedValue(d: Obj, k: Key): Option<Json> {
    var g := PyDict.Get(d, k);
    if k == StrKey("code_standard") then
      if g.None? then Some(EmptyAssessment) else if g.value.JList? then Some(Assessment(NoPoints, g.value)) else g
    else if k == StrKey("code_logic") || k == StrKey("code_efficiency") then
      if g.None? then Some(EmptyAssessment) else g
    else if k == StrKey("improvement_suggestions") then
      if g.Some? then g else if Has(d, "suggestions") then Lookup(d, "suggestions") else Some(NoPoints)
    else if k == StrKey("summary") then
      if g.None? then Some(JStr("")) else g
    else if k == StrKey("overall_score") then
      if g.None? then Some(JStr("0")) else g
    else g
  }

  /** What an ensured evaluation holds under each key. */
  function EnsuredValue(d: Obj, k: Key): Option<Json> {
    var g := DefaultedValue(d, k);
    if k.StrKey? && k.s in AssessmentFields && IsDictValue(g) then Some(Completed(g.value)) else g
  }

  lemma {:induction false} EnsureKeyGet(d: Obj, name: string, default: Json, k: Key)
    ensures PyDict.Get(EnsureKey(d, name, default), k) ==
      if k == StrKey(name) && PyDict.Get(d, k).None? then Some(default) else PyDict.Get(d, k)
  {
    if !Has(d, name) { PyDict.SetGet(d, StrKey(name), default, k); }
  }

  lemma {:induction false} ListAsConsGet(d: Obj, name: string, k: Key)
    ensures PyDict.Get(ListAsCons(d, name), k) ==
      var g := PyDict.Get(d, k);
      if k != StrKey(name) then g
      else if g.None? then Some(EmptyAssessment)
      else if g.value.JList? then Some(Assessment(NoPoints, g.value))
      else g
  {
    if !Has(d, name) {
      PyDict.SetGet(d, StrKey(name), EmptyAssessment, k);
    } else if Lookup(d, name).value.JList? {
      PyDict.SetGet(d, StrKey(name), Assessment(NoPoints, Lookup(d, name).value), k);
    }
  }

  lemma {:induction false} CopyIfMissingGet(d: Obj, name: string, source: string, default: Json, k: Key)
    ensures PyDict.Get(CopyIfMissing(d, name, source, default), k) ==
      var g := PyDict.Get(d, k);
      if k != StrKey(name) || g.Some? then g
      else if Has(d, source) then Lookup(d, source)
      else Some(default)
  {
    if !Has(d, name) {
      if Has(d, source) {
        PyDict.SetGet(d, StrKey(name), Lookup(d, source).value, k);
      } else {
        PyDict.SetGet(d, StrKey(name), default, k);
      }
    }
  }

  lemma {:induction false} EnsureProsConsGet(d: Obj, field: string, k: Key)
    ensures PyDict.Get(EnsureProsCons(d, field), k) ==
      if k == StrKey(field) && IsDictValue(PyDict.Get(d, k)) then Some(Completed(PyDict.Get(d, k).value))
      else PyDict.Get(d, k)
  {
    var v := Lookup(d, field);
    if IsDictValue(v) { PyDict.SetGet(d, StrKey(field), Completed(v.value), k); }
  }

  /** The defaults, statement by statement, agree with their key-by-key description. */
  lemma {:induction false} DefaultedGet(d: Obj, k: Key)
    ensures PyDict.Get(Defaulted(d), k) == DefaultedValue(d, k)
  {
    var d1 := ListAsCons(d, "code_standard");
    var d2 := EnsureKey(d1, "code_logic", EmptyAssessment);
    var d3 := EnsureKey(d2, "code_efficiency", EmptyAssessment);
    var d4 := CopyIfMissing(d3, "improvement_suggestions", "suggestions", NoPoints);
    var d5 := EnsureKey(d4, "summary", JStr(""));
    var sg := StrKey("suggestions");
    ListAsConsGet(d, "code_standard", k);
    EnsureKeyGet(d1, "code_logic", EmptyAssessment, k);
    EnsureKeyGet(d2, "code_efficiency", EmptyAssessment, k);
    CopyIfMissingGet(d3, "improvement_suggestions", "suggestions", NoPoints, k);
    EnsureKeyGet(d4, "summary", JStr(""), k);
    EnsureKeyGet(d5, "overall_score", JStr("0"), k);
    ListAsConsGet(d, "code_standard", sg);
    EnsureKeyGet(d1, "code_logic", EmptyAssessment, sg);
    EnsureKeyGet(d2, "code_efficiency", EmptyAssessment, sg);
    assert Lookup(d3, "suggestions") == Lookup(d, "suggestions");
  }

  lemma {:induction false} CompletedGet(v: Json, k: Key)
    requires v.JObject?
    ensures PyDict.Get(Completed(v).entries, k) ==
      if (k == StrKey("pros") || k == StrKey("cons")) && PyDict.Get(v.entries, k).None? then Some(NoPoints)
      else PyDict.Get(v.entries, k)
  {
    var e1 := EnsureKey(v.entries, "pros", NoPoints);
    EnsureKeyGet(v.entries, "pros", NoPoints, k);
    EnsureKeyGet(e1, "cons", NoPoints, k);
  }

  /** Completing an assessment that has `pros` and `cons` changes nothing. */
  lemma {:induction false} CompletedNoop(v: Json)
    requires v.JObject? && Has(v.entries, "pros") && Has(v.entries, "cons")
    ensures Completed(v) == v
  {
  }

  /** What the loop leaves under each key: dict-valued assessment fields completed, the rest as they were. */
  lemma {:induction false} AllProsConsGet(d: Obj, fields: seq<string>, k: Key)
    ensures PyDict.Get(EnsureAllProsCons(d, fields), k) ==
      if k.StrKey? && k.s in fields && IsDictValue(PyDict.Get(d, k)) then Some(Completed(PyDict.Get(d, k).value))
      else PyDict.Get(d, k)
    decreases |fields|
  {
    if fields != [] {
      var d' := EnsureProsCons(d, fields[0]);
      EnsureProsConsGet(d, fields[0], k);
      AllProsConsGet(d', fields[1..], k);
      assert k.StrKey? ==> (k.s in fields <==> k.s == fields[0] || k.s in fields[1..]);
      if k == StrKey(fields[0]) && IsDictValue(PyDict.Get(d, k)) {
        var c := Completed(PyDict.Get(d, k).value);
        CompletedGet(PyDict.Get(d, k).value, StrKey("pros"));
        CompletedGet(PyDict.Get(d, k).value, StrKey("cons"));
        CompletedNoop(c);
      }
    }
  }

  /** The loop changes nothing when every dict-valued field already has `pros` and `cons`. */
  lemma {:induction false} AllProsConsNoop(d: Obj, fields: seq<string>)
    requires forall f :: f in fields && IsDictValue(Lookup(d, f)) ==>
      Has(Lookup(d, f).value.entries, "pros") && Has(Lookup(d, f).value.entries, "cons")
    ensures EnsureAllProsCons(d, fields) == d
    decreases |fields|
  {
    if fields != [] {
      var f := fields[0];
      if IsDictValue(Lookup(d, f)) {
        CompletedNoop(Lookup(d, f).value);
        SetSame(d, StrKey(f));
      }
      assert EnsureProsCons(d, f) == d;
      AllProsConsNoop(d, fields[1..]);
    }
  }

  /** The whole of `_ensure_evaluation_fields`, key by key. */
  lemma {:induction false} EnsuredGet(d: Obj, k: Key)
    ensures PyDict.Get(Ensured(d), k) == EnsuredValue(d, k)
  {
    DefaultedGet(d, k);
    AllProsConsGet(Defaulted(d), AssessmentFields, k);
  }

  /**
   * The six required fields all have a value; `code_standard` is no longer a
   * list; each assessment field that holds a dict holds `pros` and `cons`.
   */
  lemma {:induction false} ValueComplete(d: Obj, n: string)
    ensures n in RequiredFields ==> EnsuredValue(d, StrKey(n)).Some?
    ensures !IsListValue(EnsuredValue(d, StrKey("code_standard")))
    ensures n in AssessmentFields && IsDictValue(EnsuredValue(d, StrKey(n))) ==>
      Has(EnsuredValue(d, StrKey(n)).value.entries, "pros") && Has(EnsuredValue(d, StrKey(n)).value.entries, "cons")
  {
    var g := DefaultedValue(d, StrKey(n));
    if n in AssessmentFields && IsDictValue(g) {
      CompletedGet(g.value, StrKey("pros"));
      CompletedGet(g.value, StrKey("cons"));
    }
  }

  /** Keys other than the six keep their value; so do a present suggestions list, summary and score. */
  lemma {:induction false} ValueKeepsOthers(d: Obj, k: Key)
    ensures (!k.StrKey? || k.s !in RequiredFields) ==> EnsuredValue(d, k) == PyDict.Get(d, k)
    ensures k in [StrKey("improvement_suggestions"), StrKey("summary"), StrKey("overall_score")] && PyDict.Get(d, k).Some? ==>
      EnsuredValue(d, k) == PyDict.Get(d, k)
  {
  }

  /** The `pros` and `cons` of an assessment built from two values. */
  lemma {:induction false} AssessmentParts(pros: Json, cons: Json)
    ensures Lookup(Assessment(pros, cons).entries, "pros") == Some(pros)
    ensures Lookup(Assessment(pros, cons).entries, "cons") == Some(cons)
  {
    var es := Assessment(pros, cons).entries;
    assert PyDict.Keys(es) == [StrKey("pros"), StrKey("cons")];
    assert PyDict.Keys(es)[..1] == [StrKey("pros")];
    PyDict.IndexOfUnique(PyDict.Keys(es), StrKey("pros"), 0);
    PyDict.IndexOfUnique(PyDict.Keys(es), StrKey("cons"), 1);
  }

  /** A list under `code_standard` becomes the `cons` of an assessment with no `pros`. */
  lemma {:induction false} CodeStandardListConverted(d: Obj, xs: seq<Json>)
    requires Lookup(d, "code_standard") == Some(JList(xs))
    ensures EnsuredValue(d, StrKey("code_standard")) == Some(Assessment(NoPoints, JList(xs)))
  {
    AssessmentParts(NoPoints, JList(xs));
    CompletedNoop(Assessment(NoPoints, JList(xs)));
  }

  /** A list under `code_logic` or `code_efficiency` stays a list. */
  lemma {:induction false} OtherAssessmentListKept(d: Obj, field: string, xs: seq<Json>)
    requires field == "code_logic" || field == "code_efficiency"
    requires Lookup(d, field) == Some(JList(xs))
    ensures EnsuredValue(d, StrKey(field)) == Some(JList(xs))
  {
  }

  /** A missing `improvement_suggestions` is taken from `suggestions`, else it is an empty list. */
  lemma {:induction false} SuggestionsFilledIn(d: Obj)
    requires !Has(d, "improvement_suggestions")
    ensures Has(d, "suggestions") ==> EnsuredValue(d, StrKey("improvement_suggestions")) == Lookup(d, "suggestions")
    ensures !Has(d, "suggestions") ==> EnsuredValue(d, StrKey("improvement_suggestions")) == Some(NoPoints)
  {
  }

  /** After `_ensure_evaluation_fields` the six required fields are present and complete. */
  lemma {:induction false} EnsuredComplete(d: Obj, n: string)
    ensures n in RequiredFields ==> Has(Ensured(d), n)
    ensures !IsListValue(Lookup(Ensured(d), "code_standard"))
    ensures n in AssessmentFields && IsDictValue(Lookup(Ensured(d), n)) ==>
      Has(Lookup(Ensured(d), n).value.entries, "pros") && Has(Lookup(Ensured(d), n).value.entries, "cons")
  {
    EnsuredGet(d, StrKey(n));
    EnsuredGet(d, StrKey("code_standard"));
    ValueComplete(d, n);
  }

  /** A dict that already has every field filled in is left as it is. */
  lemma {:induction false} EnsuredFixed(e: Obj)
    requires Has(e, "code_standard") && Has(e, "code_logic") && Has(e, "code_efficiency")
    requires Has(e, "improvement_suggestions") && Has(e, "summary") && Has(e, "overall_score")
    requires !IsListValue(Lookup(e, "code_standard"))
    requires forall f :: f in AssessmentFields && IsDictValue(Lookup(e, f)) ==>
      Has(Lookup(e, f).value.entries, "pros") && Has(Lookup(e, f).value.entries, "cons")
    ensures Ensured(e) == e
  {
    assert ListAsCons(e, "code_standard") == e;
    assert CopyIfMissing(e, "improvement_suggestions", "suggestions", NoPoints) == e;
    assert Defaulted(e) == e;
    AllProsConsNoop(e, AssessmentFields);
  }

  /** Filling in the fields a second time changes nothing. */
  lemma {:induction false} EnsuredIdempotent(d: Obj)
    ensures Ensured(Ensured(d)) == Ensured(d)
  {
    var e := Ensured(d);
    EnsuredComplete(d, "code_standard");
    EnsuredComplete(d, "code_logic");
    EnsuredComplete(d, "code_efficiency");
    EnsuredComplete(d, "improvement_suggestions");
    EnsuredComplete(d, "summary");
    EnsuredComplete(d, "overall_score");
    forall f | f in AssessmentFields && IsDictValue(Lookup(e, f))
      ensures Has(Lookup(e, f).value.entries, "pros") && Has(Lookup(e, f).value.entries, "cons")
    {
      EnsuredComplete(d, f);
    }
    EnsuredFixed(e);
  }
}
