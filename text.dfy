/**
 * The handful of Python `str` operations the backend relies on, stated over
 * `seq<char>` (one element per Unicode code point, as Python counts them):
 * whitespace as `str.isspace` and the regex class `\s` define it, `strip`,
 * `startswith`/`endswith`, substring search, `split` on one separator
 * character, `join`, and the decimal rendering of `str(int)`.
 */
module Text {
  import opened Wrappers

  /** The characters Python's `str.isspace` (and the regex class `\s`) accept. */
  predicate IsSpace(c: char) {
    || c == '\t' || c == '\n' || c == '\U{000B}' || c == '\U{000C}' || c == '\r'
    || ('\U{001C}' <= c <= '\U{001F}')
    || c == ' ' || c == '\U{0085}' || c == '\U{00A0}' || c == '\U{1680}'
    || ('\U{2000}' <= c <= '\U{200A}')
    || c == '\U{2028}' || c == '\U{2029}' || c == '\U{202F}' || c == '\U{205F}' || c == '\U{3000}'
  }

  predicate AllSpace(s: string) {
    forall i :: 0 <= i < |s| ==> IsSpace(s[i])
  }

  /** `s.lstrip()`: drops the leading whitespace and nothing else. */
  function LStrip(s: string): (r: string)
    ensures |r| <= |s| && r == s[|s| - |r|..]
    ensures r == [] || !IsSpace(r[0])
    ensures AllSpace(s[..|s| - |r|])
  {
    if s != [] && IsSpace(s[0]) then
      var r := LStrip(s[1..]);
      assert s[1..][..|s| - 1 - |r|] == s[1..|s| - |r|];
      r
    else s
  }

  /** `s.rstrip()`: drops the trailing whitespace and nothing else. */
  function RStrip(s: string): (r: string)
    ensures |r| <= |s| && r == s[..|r|]
    ensures r == [] || !IsSpace(r[|r| - 1])
    ensures AllSpace(s[|r|..])
  {
    if s != [] && IsSpace(s[|s| - 1]) then
      var r := RStrip(s[..|s| - 1]);
      assert s[..|s| - 1][|r|..] + [s[|s| - 1]] == s[|r|..];
      r
    else s
  }

  /** `r` is what is left of `s` after a whitespace prefix and a whitespace suffix are cut off at `i`. */
  predicate TrimAt(r: string, s: string, i: nat) {
    i + |r| <= |s| && s[i..i + |r|] == r && AllSpace(s[..i]) && AllSpace(s[i + |r|..])
  }

  /**
   * `s.strip()`: the part of `s` left when its leading and trailing whitespace
   * are taken away; it starts and ends with a non-space character, or is empty.
   */
  function Strip(s: string): (r: string)
    ensures |r| <= |s|
    ensures r == [] || (!IsSpace(r[0]) && !IsSpace(r[|r| - 1]))
    ensures exists i: nat :: TrimAt(r, s, i)
  {
    var l := LStrip(s);
    var r := RStrip(l);
    StripWitness(s, l, r);
    assert r != [] ==> r[0] == l[0];
    r
  }

  lemma {:induction false} StripWitness(s: string, l: string, r: string)
    requires |l| <= |s| && l == s[|s| - |l|..] && AllSpace(s[..|s| - |l|])
    requires |r| <= |l| && r == l[..|r|] && AllSpace(l[|r|..])
    ensures TrimAt(r, s, |s| - |l|)
  {
    var i := |s| - |l|;
    assert s[i..][..|r|] == s[i..i + |r|];
    assert s[i + |r|..] == l[|r|..];
  }

  /** A string without whitespace at either end is its own `strip()`. */
  lemma {:induction false} StripTrimmed(s: string)
    requires s == [] || (!IsSpace(s[0]) && !IsSpace(s[|s| - 1]))
    ensures Strip(s) == s
  {
  }

  /** Stripping is idempotent. */
  lemma {:induction false} StripIdempotent(s: string)
    ensures Strip(Strip(s)) == Strip(s)
  {
    StripTrimmed(Strip(s));
  }

  /** Whitespace added around a string does not change its `strip()`. */
  lemma {:induction false} StripPadded(pre: string, s: string, post: string)
    requires AllSpace(pre) && AllSpace(post)
    ensures Strip(pre + s + post) == Strip(s)
  {
    assert pre + s + post == pre + (s + post);
    LStripPadded(pre, s + post);
    LStripAppend(s, post);
    if AllSpace(s) {
      LStripAllSpace(s);
      LStripAllSpace(post);
    } else {
      RStripPadded(LStrip(s), post);
    }
  }

  lemma {:induction false} LStripAllSpace(s: string)
    requires AllSpace(s)
    ensures LStrip(s) == []
  {
  }

  lemma {:induction false} LStripPadded(pre: string, s: string)
    requires AllSpace(pre)
    ensures LStrip(pre + s) == LStrip(s)
  {
    if pre != [] {
      assert (pre + s)[1..] == pre[1..] + s;
      LStripPadded(pre[1..], s);
    } else {
      assert pre + s == s;
    }
  }

  lemma {:induction false} RStripPadded(s: string, post: string)
    requires AllSpace(post)
    ensures RStrip(s + post) == RStrip(s)
  {
    if post != [] {
      assert (s + post)[..|s + post| - 1] == s + post[..|post| - 1];
      RStripPadded(s, post[..|post| - 1]);
    } else {
      assert s + post == s;
    }
  }

  lemma {:induction false} LStripAppend(s: string, post: string)
    ensures !AllSpace(s) ==> LStrip(s + post) == LStrip(s) + post
    ensures AllSpace(s) ==> LStrip(s + post) == LStrip(post)
  {
    if s == [] {
      assert s + post == post;
    } else {
      AppendTail(s, post);
      if IsSpace(s[0]) {
        LStripAppend(s[1..], post);
        AllSpaceTail(s);
      }
    }
  }

  /** After a leading space, the rest decides whether all of it is space. */
  lemma {:induction false} AllSpaceTail(s: string)
    requires s != [] && IsSpace(s[0])
    ensures AllSpace(s) <==> AllSpace(s[1..])
  {
    if AllSpace(s[1..]) {
      forall k | 1 <= k < |s| ensures IsSpace(s[k]) {
        assert s[k] == s[1..][k - 1];
      }
    }
  }

  predicate StartsWith(s: string, prefix: string) {
    |prefix| <= |s| && s[..|prefix|] == prefix
  }

  predicate EndsWith(s: string, suffix: string) {
    |suffix| <= |s| && s[|s| - |suffix|..] == suffix
  }

  /** `pat` occurs in `s` starting at index `i`. */
  predicate OccursAt(pat: string, s: string, i: nat) {
    i + |pat| <= |s| && s[i..i + |pat|] == pat
  }

  /** `pat in s` for strings: `pat` occurs in `s` as a contiguous piece. */
  ghost predicate Occurs(pat: string, s: string) {
    exists i: nat :: OccursAt(pat, s, i)
  }

  /** A decision procedure for `Occurs`, scanning from the left. */
  function Contains(s: string, pat: string): (b: bool)
    ensures b <==> Occurs(pat, s)
    decreases |s|
  {
    if |pat| > |s| then
      assert forall i: nat :: !OccursAt(pat, s, i);
      false
    else if s[..|pat|] == pat then
      assert OccursAt(pat, s, 0);
      true
    else
      var b := Contains(s[1..], pat);
      assert b ==> Occurs(pat, s) by {
        if b {
          var i: nat :| OccursAt(pat, s[1..], i);
          assert s[i + 1..i + 1 + |pat|] == s[1..][i..i + |pat|];
          assert OccursAt(pat, s, i + 1);
        }
      }
      assert Occurs(pat, s) ==> b by {
        if Occurs(pat, s) {
          var i: nat :| OccursAt(pat, s, i);
          assert i != 0;
          assert s[1..][i - 1..i - 1 + |pat|] == s[i..i + |pat|];
          assert OccursAt(pat, s[1..], i - 1);
        }
      }
      b
  }

  /**
   * The length of the longest whitespace prefix of `s`: how far a greedy `\s*`
   * reaches from the start.
   */
  function SpaceRun(s: string): (r: nat)
    ensures r <= |s| && AllSpace(s[..r])
    ensures r < |s| ==> !IsSpace(s[r])
  {
    if s != [] && IsSpace(s[0]) then
      var r := SpaceRun(s[1..]);
      assert s[..r + 1] == [s[0]] + s[1..][..r];
      r + 1
    else 0
  }

  /** A greedy `\s*` run stops inside `a` unless `a` is all whitespace, and then it carries on into `b`. */
  lemma {:induction false} SpaceRunAppend(a: string, b: string)
    ensures !AllSpace(a) ==> SpaceRun(a + b) == SpaceRun(a) < |a|
    ensures AllSpace(a) ==> SpaceRun(a + b) == |a| + SpaceRun(b)
  {
    if a != [] {
      assert (a + b)[1..] == a[1..] + b;
      SpaceRunAppend(a[1..], b);
      if IsSpace(a[0]) && !AllSpace(a[1..]) {
        var k :| 0 <= k < |a[1..]| && !IsSpace(a[1..][k]);
        assert !IsSpace(a[k + 1]);
      }
      if AllSpace(a[1..]) && IsSpace(a[0]) {
        assert forall k :: 0 <= k < |a| ==> IsSpace(a[k]) by {
          forall k | 0 <= k < |a| ensures IsSpace(a[k]) { if k > 0 { assert a[k] == a[1..][k - 1]; } }
        }
      }
    } else {
      assert a + b == b;
    }
  }

  /** `s.find(pat)`: the first index where `pat` occurs, or -1. */
  function Find(s: string, pat: string): (r: int)
    ensures -1 <= r <= |s|
    ensures r >= 0 ==> OccursAt(pat, s, r) && forall i: nat :: i < r ==> !OccursAt(pat, s, i)
    ensures r == -1 ==> forall i: nat :: !OccursAt(pat, s, i)
    decreases |s|
  {
    if |pat| > |s| then -1
    else if s[..|pat|] == pat then 0
    else
      var r := Find(s[1..], pat);
      OccursShifted(pat, s);
      assert !OccursAt(pat, s, 0);
      if r == -1 then -1 else r + 1
  }

  /** An occurrence in the tail is an occurrence one place later in the whole. */
  lemma {:induction false} OccursShifted(pat: string, s: string)
    requires s != []
    ensures forall i: nat :: OccursAt(pat, s[1..], i) <==> OccursAt(pat, s, i + 1)
    ensures forall i: nat :: OccursAt(pat, s, i) ==> i == 0 || OccursAt(pat, s[1..], i - 1)
  {
    forall i: nat ensures OccursAt(pat, s[1..], i) <==> OccursAt(pat, s, i + 1) {
      if i + 1 + |pat| <= |s| { assert s[1..][i..i + |pat|] == s[i + 1..i + 1 + |pat|]; }
    }
  }

  /** `s.find(c)` for one character: the first index of `c`, or -1. */
  function FindChar(s: string, c: char): (r: int)
    ensures -1 <= r < |s|
    ensures r == -1 <==> c !in s
    ensures r >= 0 ==> s[r] == c && c !in s[..r]
  {
    if s == [] then -1
    else if s[0] == c then 0
    else
      var r := FindChar(s[1..], c);
      assert c in s[1..] ==> c in s;
      assert c in s ==> c in s[1..] by {
        if c in s { var k :| 0 <= k < |s| && s[k] == c; assert s[1..][k - 1] == c; }
      }
      if r == -1 then -1
      else
        assert s[..r + 1] == [s[0]] + s[1..][..r];
        r + 1
  }

  /** `s.rfind(c)` for one character: the last index of `c`, or -1. */
  function RFindChar(s: string, c: char): (r: int)
    ensures -1 <= r < |s|
    ensures r == -1 <==> c !in s
    ensures r >= 0 ==> s[r] == c && c !in s[r + 1..]
  {
    if s == [] then -1
    else if s[|s| - 1] == c then |s| - 1
    else
      var front := s[..|s| - 1];
      var r := RFindChar(front, c);
      assert s == front + [s[|s| - 1]];
      assert r >= 0 ==> s[r + 1..] == front[r + 1..] + [s[|s| - 1]];
      r
  }

  /** `sep.join(parts)`. */
  function Join(parts: seq<string>, sep: string): string {
    if parts == [] then ""
    else if |parts| == 1 then parts[0]
    else parts[0] + sep + Join(parts[1..], sep)
  }

  /**
   * `s.split(sep)` for a one-character separator: the pieces between the
   * separators, none of which contains `sep`; joining them with `sep` gives `s`
   * back, and a string without `sep` (the empty one included) is one piece.
   */
  function Split(s: string, sep: char): (parts: seq<string>)
    ensures |parts| >= 1
    ensures forall k :: 0 <= k < |parts| ==> sep !in parts[k]
    ensures Join(parts, [sep]) == s
    ensures sep !in s ==> parts == [s]
    decreases |s|
  {
    var i := FindChar(s, sep);
    if i == -1 then [s]
    else
      var rest := Split(s[i + 1..], sep);
      assert s == s[..i] + [sep] + s[i + 1..];
      [s[..i]] + rest
  }

  function DigitChar(d: nat): char
    requires d < 10
  {
    "0123456789"[d]
  }

  function DigitValue(c: char): nat
    requires '0' <= c <= '9'
  {
    (c as int - '0' as int) as nat
  }

  predicate IsDecimal(s: string) {
    |s| >= 1 && forall i :: 0 <= i < |s| ==> '0' <= s[i] <= '9'
  }

  /** The number a string of decimal digits denotes. */
  function DecimalValue(s: string): nat
    requires forall i :: 0 <= i < |s| ==> '0' <= s[i] <= '9'
  {
    if s == [] then 0 else 10 * DecimalValue(s[..|s| - 1]) + DigitValue(s[|s| - 1])
  }

  /** `str(n)` for a natural number: its decimal digits, most significant first. */
  function NatToString(n: nat): (r: string)
    ensures IsDecimal(r)
    ensures DecimalValue(r) == n
    ensures r[0] == '0' ==> n == 0
  {
    if n < 10 then
      assert DecimalValue([DigitChar(n)]) == DecimalValue([]) * 10 + DigitValue(DigitChar(n));
      [DigitChar(n)]
    else
      var p := NatToString(n / 10);
      var r := p + [DigitChar(n % 10)];
      assert r[..|r| - 1] == p;
      r
  }

  /** `str(i)` for a Python int: a minus sign before the digits of a negative number. */
  function IntToString(i: int): string {
    if i < 0 then "-" + NatToString(-i) else NatToString(i)
  }

  /** Distinct numbers have distinct renderings. */
  lemma {:induction false} NatToStringInjective(m: nat, n: nat)
    requires NatToString(m) == NatToString(n)
    ensures m == n
  {
  }

  /** Python's `<=` on `str`: lexicographic comparison by code point. */
  predicate LexLe(a: string, b: string) {
    a == [] || (b != [] && (a[0] < b[0] || (a[0] == b[0] && LexLe(a[1..], b[1..]))))
  }

  lemma {:induction false} LexLeReflexive(a: string)
    ensures LexLe(a, a)
  {
    if a != [] {
      LexLeReflexive(a[1..]);
    }
  }

  lemma {:induction false} LexLeTotal(a: string, b: string)
    ensures LexLe(a, b) || LexLe(b, a)
  {
    if a != [] && b != [] && a[0] == b[0] {
      LexLeTotal(a[1..], b[1..]);
    }
  }

  lemma {:induction false} LexLeAntisymmetric(a: string, b: string)
    requires LexLe(a, b) && LexLe(b, a)
    ensures a == b
  {
    if a != [] {
      LexLeAntisymmetric(a[1..], b[1..]);
      assert a == [a[0]] + a[1..] && b == [b[0]] + b[1..];
    }
  }

  lemma {:induction false} LexLeTransitive(a: string, b: string, c: string)
    requires LexLe(a, b) && LexLe(b, c)
    ensures LexLe(a, c)
  {
    if a != [] && b != [] && c != [] && a[0] == b[0] && b[0] == c[0] {
      LexLeTransitive(a[1..], b[1..], c[1..]);
    }
  }

  /** `[x.strip() for x in xs]`: each piece stripped, in order. */
  function StripAll(xs: seq<string>): (r: seq<string>)
    ensures |r| == |xs| && forall k :: 0 <= k < |xs| ==> r[k] == Strip(xs[k])
  {
    seq(|xs|, k requires 0 <= k < |xs| => Strip(xs[k]))
  }

  /** One more piece adds its stripped text at the end. */
  lemma {:induction false} StripAllAppend(xs: seq<string>, m: string)
    ensures StripAll(xs + [m]) == StripAll(xs) + [Strip(m)]
  {
    var a := StripAll(xs + [m]);
    var b := StripAll(xs) + [Strip(m)];
    forall k | 0 <= k < |a| ensures a[k] == b[k] {
      if k < |xs| { assert (xs + [m])[k] == xs[k]; }
    }
  }
}
