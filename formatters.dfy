/**
 * The text the evaluator shows the language model for a run's test results:
 * one block of labelled lines per result, in input order, the blocks joined
 * by a blank line. A result is a dict; each label falls back to a fixed
 * default when its key is missing.
 */
module Formatters {
  import opened Wrappers
  import opened Text
  import PyDict
  import opened JsonValue

  /** One test result as the judge hands it over: a dict of parsed values. */
  type TestResult = PyDict.Dict<Key, Json>

  const NoResultsText: string := "无测试结果"

  /**
   * What an f-string makes of a value: strings as they are, numbers in
   * decimal, `True`/`False`, `None`. Lists and dicts are rendered by `repr`,
   * which stands for Python's container `repr`.
   */
  function Str(v: Json, repr: Json -> string): string {
    match v
    case JNull => "None"
    case JBool(b) => if b then "True" else "False"
    case JInt(i) => IntToString(i)
    case JStr(s) => s
    case JList(_) => repr(v)
    case JObject(_) => repr(v)
  }

  /** `test.get(name, default)`. */
  function FieldOr(test: TestResult, name: string, default: Json): Json {
    PyDict.Get(test, StrKey(name)).GetOr(default)
  }

  /** The label of the `i`-th result (counting from 0) when it has no `id`. */
  function DefaultId(i: nat): string {
    "测试用例" + NatToString(i + 1)
  }

  function IdOf(i: nat, test: TestResult): Json {
    FieldOr(test, "id", JStr(DefaultId(i)))
  }

  function StatusOf(test: TestResult): Json {
    FieldOr(test, "status", JStr("未知"))
  }

  function InputOf(test: TestResult): Json {
    FieldOr(test, "input", JStr("无输入数据"))
  }

  function ExpectedOf(test: TestResult): Json {
    FieldOr(test, "expected", JStr("无预期输出"))
  }

  function ActualOf(test: TestResult): Json {
    FieldOr(test, "actual", JStr("无实际输出"))
  }

  function ErrorOf(test: TestResult): Json {
    FieldOr(test, "error", JStr(""))
  }

  /** The id, status and input lines every block starts with. */
  function HeaderLines(i: nat, test: TestResult, repr: Json -> string): seq<string> {
    [ "测试用例 " + Str(IdOf(i, test), repr) + ":",
      "状态: " + Str(StatusOf(test), repr),
      "输入: " + Str(InputOf(test), repr) ]
  }

  /**
   * The lines of one block, without their newlines: the header, then the
   * output for status `AC`, otherwise the expected and actual output and,
   * when the error is truthy, the error.
   */
  function BlockLines(i: nat, test: TestResult, repr: Json -> string): seq<string> {
    var actual := Str(ActualOf(test), repr);
    if StatusOf(test) == JStr("AC") then
      HeaderLines(i, test, repr) + ["输出: " + actual]
    else
      HeaderLines(i, test, repr)
        + ["预期: " + Str(ExpectedOf(test), repr)] + ["实际: " + actual]
        + (if Truthy(ErrorOf(test)) then ["错误: " + Str(ErrorOf(test), repr)] else [])
  }

  /** Lines, each closed by a newline. */
  function Lines(ls: seq<string>): string {
    if ls == [] then "" else ls[0] + "\n" + Lines(ls[1..])
  }

  lemma {:induction false} LinesAppend(ls: seq<string>, l: string)
    ensures Lines(ls + [l]) == Lines(ls) + l + "\n"
  {
    if ls == [] {
      assert ls + [l] == [l];
    } else {
      assert (ls + [l])[1..] == ls[1..] + [l];
      LinesAppend(ls[1..], l);
    }
  }

  /** The text of the `i`-th result's block. */
  function Block(i: nat, test: TestResult, repr: Json -> string): string {
    Lines(BlockLines(i, test, repr))
  }

  /** `[f(k, xs[k]) for k, x in enumerate(xs)]`. */
  function Numbered<T>(xs: seq<T>, f: (nat, T) -> string): (ys: seq<string>)
    ensures |ys| == |xs|
  {
    if xs == [] then []
    else
      var n := |xs| - 1;
      Numbered(xs[..n], f) + [f(n, xs[n])]
  }

  /** The `k`-th entry is `f` applied to `k` and the `k`-th element. */
  lemma {:induction false} NumberedAt<T>(xs: seq<T>, f: (nat, T) -> string, k: nat)
    requires k < |xs|
    ensures Numbered(xs, f)[k] == f(k, xs[k])
  {
    var n := |xs| - 1;
    if k < n {
      assert xs[..n][k] == xs[k];
      NumberedAt(xs[..n], f, k);
    }
  }

  lemma {:induction false} NumberedAppend<T>(xs: seq<T>, x: T, f: (nat, T) -> string)
    ensures Numbered(xs + [x], f) == Numbered(xs, f) + [f(|xs|, x)]
  {
    assert (xs + [x])[..|xs|] == xs;
  }

  /** The blocks of all results, numbered by position. */
  function Blocks(tests: seq<TestResult>, repr: Json -> string): seq<string> {
    Numbered(tests, (k: nat, test: TestResult) => Block(k, test, repr))
  }

  /** The `k`-th block is the block of the `k`-th result, numbered `k`. */
  lemma {:induction false} BlockAt(tests: seq<TestResult>, repr: Json -> string, k: nat)
    requires k < |tests|
    ensures |Blocks(tests, repr)| == |tests| && Blocks(tests, repr)[k] == Block(k, tests[k], repr)
  {
    NumberedAt(tests, (k: nat, test: TestResult) => Block(k, test, repr), k);
  }

  /** `format_test_results`, with Python's `None` as `None`. */
  function Formatted(tests: Option<seq<TestResult>>, repr: Json -> string): string {
    if tests.None? || tests.value == [] then NoResultsText
    else Join(Blocks(tests.value, repr), "\n")
  }

  /** The body of the loop in `format_test_results`: one result's text, built line by line. */
  method FormatOne(i: nat, test: TestResult, repr: Json -> string) returns (resultText: string)
    ensures resultText == Block(i, test, repr)
  {
    var testId := IdOf(i, test);
    var status := StatusOf(test);
    var inputData := InputOf(test);
    var expected := ExpectedOf(test);
    var actual := ActualOf(test);
    var error := ErrorOf(test);
    ghost var lines: seq<string> := [];
    resultText := "";
    resultText, lines := AddLine(resultText, lines, "测试用例 " + Str(testId, repr) + ":");
    resultText, lines := AddLine(resultText, lines, "状态: " + Str(status, repr));
    resultText, lines := AddLine(resultText, lines, "输入: " + Str(inputData, repr));
    ghost var header := lines;
    assert header == HeaderLines(i, test, repr);
    if status == JStr("AC") {
      resultText, lines := AddLine(resultText, lines, "输出: " + Str(actual, repr));
      assert lines == BlockLines(i, test, repr);
    } else {
      resultText, lines := AddLine(resultText, lines, "预期: " + Str(expected, repr));
      resultText, lines := AddLine(resultText, lines, "实际: " + Str(actual, repr));
      if Truthy(error) {
        resultText, lines := AddLine(resultText, lines, "错误: " + Str(error, repr));
        assert lines == BlockLines(i, test, repr);
      } else {
        assert lines == BlockLines(i, test, repr);
      }
    }
  }

  /** `text += line + "\n"`: the text stays the rendering of the lines written so far. */
  method AddLine(text: string, ghost ls: seq<string>, l: string) returns (text': string, ghost ls': seq<string>)
    requires text == Lines(ls)
    ensures ls' == ls + [l] && text' == Lines(ls')
    ensures text' == text + l + "\n"
  {
    LinesAppend(ls, l);
    text', ls' := text + l + "\n", ls + [l];
  }

  /**
   * `format_test_results`: each result's text is built line by line and
   * collected; the collected blocks are joined with a newline.
   */
  method FormatTestResults(testResults: Option<seq<TestResult>>, repr: Json -> string) returns (s: string)
    ensures testResults.None? || testResults.value == [] ==> s == NoResultsText
    ensures testResults.Some? && testResults.value != [] ==> s == Join(Blocks(testResults.value, repr), "\n")
  {
    if testResults.None? || testResults.value == [] {
      return NoResultsText;
    }
    var formatted := FormatEach(testResults.value, repr);
    s := Join(formatted, "\n");
  }

  /** The loop of `format_test_results`: one block per result, in order. */
  method FormatEach(tests: seq<TestResult>, repr: Json -> string) returns (formatted: seq<string>)
    ensures formatted == Blocks(tests, repr)
  {
    formatted := [];
    var i := 0;
    while i < |tests|
      invariant 0 <= i <= |tests|
      invariant formatted == Blocks(tests[..i], repr)
    {
      TakeOneMore(tests, i);
      BlocksAppend(tests[..i], tests[i], repr);
      var resultText := FormatOne(i, tests[i], repr);
      formatted := formatted + [resultText];
      i := i + 1;
    }
    assert tests[..i] == tests;
  }

  // ---------------------------------------------------------------- properties

  lemma {:induction false} JoinAppend(parts: seq<string>, p: string, sep: string)
    requires parts != []
    ensures Join(parts + [p], sep) == Join(parts, sep) + sep + p
  {
    if |parts| == 1 {
      assert (parts + [p])[1..] == [p];
    } else {
      assert (parts + [p])[1..] == parts[1..] + [p];
      JoinAppend(parts[1..], p, sep);
    }
  }

  /** A single result gives its block alone, with no separator. */
  lemma {:induction false} OneResult(test: TestResult, repr: Json -> string)
    ensures Formatted(Some([test]), repr) == Block(0, test, repr)
  {
    assert Blocks([test], repr) == [Block(0, test, repr)];
  }

  /**
   * One more result adds one more block at the end, after a blank line,
   * numbered by its position: the blocks keep the input order.
   */
  lemma {:induction false} MoreResults(tests: seq<TestResult>, test: TestResult, repr: Json -> string)
    requires tests != []
    ensures Formatted(Some(tests + [test]), repr) ==
      Formatted(Some(tests), repr) + "\n" + Block(|tests|, test, repr)
  {
    BlocksAppend(tests, test, repr);
    JoinAppend(Blocks(tests, repr), Block(|tests|, test, repr), "\n");
  }

  lemma {:induction false} BlocksAppend(tests: seq<TestResult>, test: TestResult, repr: Json -> string)
    ensures Blocks(tests + [test], repr) == Blocks(tests, repr) + [Block(|tests|, test, repr)]
  {
    NumberedAppend(tests, test, (k: nat, test: TestResult) => Block(k, test, repr));
  }

  /** Each block starts with the id line, the status line and the input line, in that order. */
  lemma {:induction false} BlockStartsWithHeader(i: nat, test: TestResult, repr: Json -> string)
    ensures StartsWith(Block(i, test, repr), Lines(HeaderLines(i, test, repr)))
  {
    var h := HeaderLines(i, test, repr);
    var ls := BlockLines(i, test, repr);
    var tail := ls[3..];
    assert ls == h + tail;
    LinesConcat(h, tail);
  }

  lemma {:induction false} LinesConcat(a: seq<string>, b: seq<string>)
    ensures Lines(a + b) == Lines(a) + Lines(b)
  {
    if a == [] {
      assert a + b == b;
    } else {
      assert (a + b)[1..] == a[1..] + b;
      LinesConcat(a[1..], b);
    }
  }

  /** A result without an `id` is labelled by its position counted from 1. */
  lemma {:induction false} DefaultIdLabel(i: nat, test: TestResult, repr: Json -> string)
    requires StrKey("id") !in PyDict.Keys(test)
    ensures HeaderLines(i, test, repr)[0] == "测试用例 测试用例" + NatToString(i + 1) + ":"
  {
    var n := NatToString(i + 1);
    assert Str(IdOf(i, test), repr) == "测试用例" + n;
    Wrappers.AppendAssoc("测试用例 ", "测试用例", n);
    assert "测试用例 " + "测试用例" == "测试用例 测试用例";
  }

  /** A result without a status is shown as `未知`. */
  lemma {:induction false} DefaultStatusLabel(i: nat, test: TestResult, repr: Json -> string)
    requires StrKey("status") !in PyDict.Keys(test)
    ensures HeaderLines(i, test, repr)[1] == "状态: 未知"
  {
    assert Str(StatusOf(test), repr) == "未知";
  }

  /** Status exactly `AC`: the header and one output line, nothing else. */
  lemma {:induction false} AcceptedBlock(i: nat, test: TestResult, repr: Json -> string)
    requires StatusOf(test) == JStr("AC")
    ensures var ls := BlockLines(i, test, repr);
      |ls| == 4 && StartsWith(ls[3], "输出: ")
  {
  }

  /**
   * Any other status: the header, the expected and the actual lines, then an
   * error line exactly when the error is truthy.
   */
  lemma {:induction false} OtherStatusBlock(i: nat, test: TestResult, repr: Json -> string)
    requires StatusOf(test) != JStr("AC")
    ensures var ls := BlockLines(i, test, repr);
      && |ls| == (if Truthy(ErrorOf(test)) then 6 else 5)
      && StartsWith(ls[3], "预期: ") && StartsWith(ls[4], "实际: ")
      && (|ls| == 6 ==> ls[5] == "错误: " + Str(ErrorOf(test), repr))
  {
    var expected := "预期: " + Str(ExpectedOf(test), repr);
    var actual := "实际: " + Str(ActualOf(test), repr);
    var error := if Truthy(ErrorOf(test)) then ["错误: " + Str(ErrorOf(test), repr)] else [];
    assert BlockLines(i, test, repr) == HeaderLines(i, test, repr) + [expected] + [actual] + error;
    AfterHeader(HeaderLines(i, test, repr), expected, actual, error);
    LabelledStartsWith("预期: ", Str(ExpectedOf(test), repr));
    LabelledStartsWith("实际: ", Str(ActualOf(test), repr));
  }

  /** The lines after a three-line header. */
  lemma {:induction false} AfterHeader(h: seq<string>, x: string, y: string, rest: seq<string>)
    requires |h| == 3
    ensures var ls := h + [x] + [y] + rest;
      |ls| == 5 + |rest| && ls[3] == x && ls[4] == y && (rest != [] ==> ls[5] == rest[0])
  {
  }

  lemma {:induction false} LabelledStartsWith(tag: string, value: string)
    ensures StartsWith(tag + value, tag)
  {
    assert (tag + value)[..|tag|] == tag;
  }
}
