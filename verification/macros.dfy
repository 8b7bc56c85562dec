/**
 * The pure string macros of amp-analytics (`IF`, `NOT`, `EQUALS`, `DEFAULT`, `TRIM`,
 * `SUBSTR`, `TOLOWERCASE`, `TOUPPERCASE`) as handlers over their already expanded and
 * trimmed string arguments.
 */
module Macros {
  import opened Wrappers
  import opened JsText
  import opened UriComponent

  // ---------------------------------------------------------------------------------------
  // IF, NOT, EQUALS, DEFAULT

  /**
   * The conditions `IF` takes as true: a non-empty string other than the words `false`,
   * `null` and `undefined` (which is how those JavaScript values look once expanded).
   */
  predicate IfTruthy(condition: string) {
    condition != "" && condition != "false" && condition != "null" && condition != "undefined"
  }

  /** `IF(condition, thenValue, elseValue)`. */
  function If(condition: string, thenValue: string, elseValue: string): (r: string)
    ensures r == thenValue || r == elseValue
    ensures thenValue != elseValue ==> (r == thenValue <==> IfTruthy(condition))
  {
    if IfTruthy(condition) then thenValue else elseValue
  }

  /** `NOT(value)`: JavaScript's `!value` written as a string; only the empty string is false. */
  function Not(value: string): (r: string)
    ensures r == "true" || r == "false"
    ensures r == "true" <==> value == ""
  {
    if value == "" then "true" else "false"
  }

  /** `EQUALS(a, b)`: string equality written as a string. */
  function Equals(a: string, b: string): (r: string)
    ensures r == "true" || r == "false"
    ensures r == "true" <==> a == b
  {
    if a == b then "true" else "false"
  }

  /** `DEFAULT(value, fallback)`: the fallback replaces an empty value. */
  function Default(value: string, fallback: string): (r: string)
    ensures r == value || r == fallback
    ensures value != fallback ==> (r == fallback <==> value == "")
  {
    if value == "" then fallback else value
  }

  /**
   * `NOT` and `IF` disagree about the words `false`, `null` and `undefined`: `NOT` treats
   * them as true (they are non-empty strings), `IF` as false. Branching on `NOT(c)` therefore
   * swaps the branches of branching on `c` for every other condition, and only for those.
   */
  lemma IfOfNot(c: string, t: string, f: string)
    requires t != f
    ensures If(Not(c), t, f) == If(c, f, t) <==> (c != "false" && c != "null" && c != "undefined")
  {
  }

  /** `NOT` of anything `NOT` returns is `false`: both of its answers are non-empty strings. */
  lemma NotNot(value: string)
    ensures Not(Not(value)) == "false"
  {
  }

  /** Branching on `EQUALS(a, b)` branches on string equality. */
  lemma IfEquals(a: string, b: string, t: string, f: string)
    ensures If(Equals(a, b), t, f) == (if a == b then t else f)
  {
  }

  /** `EQUALS` is symmetric. */
  lemma EqualsSymmetric(a: string, b: string)
    ensures Equals(a, b) == Equals(b, a)
  {
  }

  /** A second `DEFAULT` with the same fallback changes nothing; with a non-empty fallback the result is non-empty. */
  lemma DefaultIdempotent(value: string, fallback: string)
    ensures Default(Default(value, fallback), fallback) == Default(value, fallback)
    ensures fallback != "" ==> Default(value, fallback) != ""
  {
  }

  // ---------------------------------------------------------------------------------------
  // TRIM

  /** All characters of `s` are white space. */
  predicate AllSpace(s: string) {
    forall k :: 0 <= k < |s| ==> IsJsWhitespace(s[k])
  }

  lemma AllSpaceAppend(a: string, b: string)
    requires AllSpace(a) && AllSpace(b)
    ensures AllSpace(a + b)
  {
    forall k | 0 <= k < |a + b|
      ensures IsJsWhitespace((a + b)[k])
    {
      if k < |a| {
        assert (a + b)[k] == a[k];
      } else {
        assert (a + b)[k] == b[k - |a|];
      }
    }
  }

  /** `s` with its leading white space removed. */
  function TrimStart(s: string): (r: string)
    ensures |r| <= |s|
  {
    if s != [] && IsJsWhitespace(s[0]) then TrimStart(s[1..]) else s
  }

  /** `s` with its trailing white space removed. */
  function TrimEnd(s: string): (r: string)
    ensures |r| <= |s|
  {
    if s != [] && IsJsWhitespace(s[|s| - 1]) then TrimEnd(s[..|s| - 1]) else s
  }

  /** `TRIM(s)`: `String.prototype.trim`. */
  function Trim(s: string): (r: string)
    ensures |r| <= |s|
  {
    TrimEnd(TrimStart(s))
  }

  /** `TrimStart` removes exactly the leading run of white space. */
  lemma {:induction false} TrimStartSpec(s: string)
    ensures s == s[..|s| - |TrimStart(s)|] + TrimStart(s)
    ensures AllSpace(s[..|s| - |TrimStart(s)|])
    ensures TrimStart(s) == [] || !IsJsWhitespace(TrimStart(s)[0])
  {
    if s != [] && IsJsWhitespace(s[0]) {
      TrimStartSpec(s[1..]);
      var r := TrimStart(s[1..]);
      var lead := s[1..][..|s| - 1 - |r|];
      assert s[..|s| - |r|] == [s[0]] + lead;
    }
  }

  /** `TrimEnd` removes exactly the trailing run of white space. */
  lemma {:induction false} TrimEndSpec(s: string)
    ensures s == TrimEnd(s) + s[|TrimEnd(s)|..]
    ensures AllSpace(s[|TrimEnd(s)|..])
    ensures TrimEnd(s) == [] || !IsJsWhitespace(TrimEnd(s)[|TrimEnd(s)| - 1])
  {
    if s != [] && IsJsWhitespace(s[|s| - 1]) {
      var init := s[..|s| - 1];
      TrimEndSpec(init);
      var r := TrimEnd(init);
      var tail := init[|r|..];
      assert s == init + [s[|s| - 1]];
      assert s[|r|..] == tail + [s[|s| - 1]];
      AllSpaceAppend(tail, [s[|s| - 1]]);
    }
  }

  /**
   * `TRIM` cuts `s` into leading white space, a middle that neither starts nor ends with
   * white space, and trailing white space, and returns the middle.
   */
  lemma TrimSpec(s: string)
    ensures s == s[..|s| - |TrimStart(s)|] + Trim(s) + TrimStart(s)[|Trim(s)|..]
    ensures AllSpace(s[..|s| - |TrimStart(s)|]) && AllSpace(TrimStart(s)[|Trim(s)|..])
    ensures Trim(s) == [] || (!IsJsWhitespace(Trim(s)[0]) && !IsJsWhitespace(Trim(s)[|Trim(s)| - 1]))
  {
    TrimSplits(s);
    TrimBoundaries(s);
  }

  /** The leading run, the middle and the trailing run make up `s`, and both runs are white space. */
  lemma TrimSplits(s: string)
    ensures s == s[..|s| - |TrimStart(s)|] + Trim(s) + TrimStart(s)[|Trim(s)|..]
    ensures AllSpace(s[..|s| - |TrimStart(s)|]) && AllSpace(TrimStart(s)[|Trim(s)|..])
  {
    var m := TrimStart(s);
    TrimStartSpec(s);
    TrimEndSpec(m);
    var r := TrimEnd(m);
    var lead := s[..|s| - |m|];
    assert s == lead + (r + m[|r|..]);
    assert lead + (r + m[|r|..]) == lead + r + m[|r|..];
  }

  /** The middle neither starts nor ends with white space. */
  lemma TrimBoundaries(s: string)
    ensures Trim(s) == [] || (!IsJsWhitespace(Trim(s)[0]) && !IsJsWhitespace(Trim(s)[|Trim(s)| - 1]))
  {
    var m := TrimStart(s);
    TrimStartSpec(s);
    TrimEndSpec(m);
    var r := TrimEnd(m);
    assert r != [] ==> r[0] == m[0];
  }

  /** Trailing white space after a text that does not end in white space is all `TrimEnd` removes. */
  lemma {:induction false} TrimEndDropsSpace(a: string, b: string)
    requires AllSpace(b)
    requires a == [] || !IsJsWhitespace(a[|a| - 1])
    ensures TrimEnd(a + b) == a
    decreases |b|
  {
    if b == [] {
      assert a + b == a;
    } else {
      var init := b[..|b| - 1];
      assert (a + b)[..|a + b| - 1] == a + init;
      assert (a + b)[|a + b| - 1] == b[|b| - 1];
      TrimEndDropsSpace(a, init);
    }
  }

  /** A text that neither starts nor ends with white space is left as it is by both halves of `TRIM`. */
  lemma TrimmedIsFixed(s: string)
    requires s == [] || (!IsJsWhitespace(s[0]) && !IsJsWhitespace(s[|s| - 1]))
    ensures Trim(s) == s
  {
  }

  /** Trimming twice is trimming once. */
  lemma TrimIdempotent(s: string)
    ensures Trim(Trim(s)) == Trim(s)
  {
    TrimSpec(s);
    TrimmedIsFixed(Trim(s));
  }

  // ---------------------------------------------------------------------------------------
  // SUBSTR

  function Min(a: int, b: int): int { if a <= b then a else b }
  function Max(a: int, b: int): int { if a >= b then a else b }

  /**
   * `SUBSTR(s, start, length)`: `String.prototype.substr` on the numbers the macro reads
   * from its arguments. A negative start counts from the end; a start past the end gives
   * the empty string; a missing length runs to the end; a negative length gives nothing.
   */
  function Substr(s: string, start: int, length: Option<int>): (r: string)
    ensures |r| <= |s|
    ensures length.Some? ==> |r| <= Max(length.value, 0)
  {
    var from := if start < 0 then Max(|s| + start, 0) else Min(start, |s|);
    var count := if length.None? then |s| - from else Min(Max(length.value, 0), |s| - from);
    s[from..from + count]
  }

  /** From an index inside the string and without a length, `SUBSTR` is the suffix from there. */
  lemma SubstrSuffix(s: string, start: int)
    requires 0 <= start <= |s|
    ensures Substr(s, start, None) == s[start..]
  {
  }

  /** A negative start `-k` picks the last `k` characters (all of them when `k` is too large). */
  lemma SubstrFromEnd(s: string, k: int)
    requires k > 0
    ensures Substr(s, -k, None) == s[Max(|s| - k, 0)..]
  {
  }

  /** A piece of length `n` at `start`, followed by the rest from `start + n`, is the rest from `start`. */
  lemma SubstrSplit(s: string, start: int, n: int)
    requires 0 <= start && 0 <= n
    ensures Substr(s, start, Some(n)) + Substr(s, start + n, None) == Substr(s, start, None)
  {
    var from := Min(start, |s|);
    var mid := Min(start + n, |s|);
    assert from <= mid;
    assert Min(n, |s| - from) == mid - from;
    assert Substr(s, start, Some(n)) == s[from..mid];
    assert Substr(s, start + n, None) == s[mid..];
    assert Substr(s, start, None) == s[from..];
    assert s[from..mid] + s[mid..] == s[from..];
  }

  // ---------------------------------------------------------------------------------------
  // TOLOWERCASE, TOUPPERCASE

  function LowerChar(c: char): char {
    if 'A' <= c <= 'Z' then (c as int + 32) as char else c
  }

  function UpperChar(c: char): char {
    if 'a' <= c <= 'z' then (c as int - 32) as char else c
  }

  /** `TOLOWERCASE(s)` on the ASCII letters. */
  function ToLower(s: string): (r: string)
    ensures |r| == |s|
  {
    if s == [] then [] else [LowerChar(s[0])] + ToLower(s[1..])
  }

  /** `TOUPPERCASE(s)` on the ASCII letters. */
  function ToUpper(s: string): (r: string)
    ensures |r| == |s|
  {
    if s == [] then [] else [UpperChar(s[0])] + ToUpper(s[1..])
  }

  /** Lower-casing maps each character on its own and keeps the length. */
  lemma {:induction false} ToLowerSpec(s: string)
    ensures |ToLower(s)| == |s|
    ensures forall k :: 0 <= k < |s| ==> ToLower(s)[k] == LowerChar(s[k])
  {
    if s != [] {
      ToLowerSpec(s[1..]);
    }
  }

  /** Upper-casing maps each character on its own and keeps the length. */
  lemma {:induction false} ToUpperSpec(s: string)
    ensures |ToUpper(s)| == |s|
    ensures forall k :: 0 <= k < |s| ==> ToUpper(s)[k] == UpperChar(s[k])
  {
    if s != [] {
      ToUpperSpec(s[1..]);
    }
  }

  /** Lower-casing forgets any earlier change of case, and doing it twice is doing it once. */
  lemma CaseRoundTrip(s: string)
    ensures ToLower(ToUpper(s)) == ToLower(s)
    ensures ToLower(ToLower(s)) == ToLower(s)
  {
    ToUpperSpec(s);
    ToLowerSpec(s);
    ToLowerSpec(ToUpper(s));
    ToLowerSpec(ToLower(s));
  }

  /** Case conversion works on each part of a text on its own. */
  lemma {:induction false} ToLowerConcat(a: string, b: string)
    ensures ToLower(a + b) == ToLower(a) + ToLower(b)
  {
    if a == [] {
      assert a + b == b;
    } else {
      assert (a + b)[0] == a[0] && (a + b)[1..] == a[1..] + b;
      ToLowerConcat(a[1..], b);
    }
  }

  /** Upper-casing likewise. */
  lemma {:induction false} ToUpperConcat(a: string, b: string)
    ensures ToUpper(a + b) == ToUpper(a) + ToUpper(b)
  {
    if a == [] {
      assert a + b == b;
    } else {
      assert (a + b)[0] == a[0] && (a + b)[1..] == a[1..] + b;
      ToUpperConcat(a[1..], b);
    }
  }

  /** Two texts that differ only in the case of their letters lower-case to the same text. */
  lemma ToLowerIgnoresCase(a: string, b: string)
    requires |a| == |b|
    requires forall k :: 0 <= k < |a| ==> LowerChar(a[k]) == LowerChar(b[k])
    ensures ToLower(a) == ToLower(b)
  {
    ToLowerSpec(a);
    ToLowerSpec(b);
  }
}
