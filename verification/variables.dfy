/**
 * The synchronous variable expansion of amp-analytics: `getNameArgs`, `encodeVars`,
 * `ExpansionOptions` and `expandTemplateSync`, which replaces every `${key}` of a template
 * by the bound value, expanding values recursively up to a depth bound and percent-encoding
 * the final value once.
 */
module Variables {
  import opened Wrappers
  import opened JsText
  import opened UriComponent

  /** A bound value: a string, an (integer) number or an array of strings. */
  datatype Value = Str(s: string) | Num(n: int) | List(items: seq<string>)

  /** A variable key split into its name and its parenthesised argument list. */
  datatype NameArgs = NameArgs(name: string, argList: string)

  /**
   * The options of one expansion pass: the bindings, the number of recursive passes still
   * allowed, whether to skip encoding, and the names that must stay unexpanded.
   */
  datatype ExpansionOptions = ExpansionOptions(
    vars: map<string, Value>,
    iterations: int,
    noEncode: bool,
    freezeVars: set<string>)

  /** The depth used when the caller gives none. */
  const DEFAULT_ITERATIONS: int := 2

  /** `new ExpansionOptions(vars, opt_iterations, opt_noEncode)`. */
  function NewExpansionOptions(vars: map<string, Value>, optIterations: Option<int>, optNoEncode: bool): (r: ExpansionOptions)
    ensures r.vars == vars && r.noEncode == optNoEncode && r.freezeVars == {}
    ensures optIterations.None? ==> r.iterations == DEFAULT_ITERATIONS
    ensures optIterations.Some? ==> r.iterations == optIterations.value
  {
    ExpansionOptions(vars, if optIterations.Some? then optIterations.value else DEFAULT_ITERATIONS, optNoEncode, {})
  }

  /** `options.freezeVar(name)`. */
  function FreezeVar(options: ExpansionOptions, name: string): (r: ExpansionOptions)
    ensures r.freezeVars == options.freezeVars + {name}
    ensures r.vars == options.vars && r.iterations == options.iterations && r.noEncode == options.noEncode
  {
    options.(freezeVars := options.freezeVars + {name})
  }

  /** `options.getVar(name)`: an unbound name reads as the empty string. */
  function GetVar(options: ExpansionOptions, name: string): (r: Value)
    ensures name in options.vars ==> r == options.vars[name]
    ensures name !in options.vars ==> r == Str("")
  {
    if name in options.vars then options.vars[name] else Str("")
  }

  /** The options of the pass that expands a bound value: one level less, and no encoding. */
  function Nested(options: ExpansionOptions): (r: ExpansionOptions)
    ensures r.noEncode && r.vars == options.vars && r.freezeVars == options.freezeVars
    ensures r.iterations == options.iterations - 1
    ensures options.iterations >= 0 ==> Budget(r.iterations) < Budget(options.iterations)
  {
    options.(iterations := options.iterations - 1, noEncode := true)
  }

  // ---------------------------------------------------------------------------------------
  // getNameArgs

  /**
   * `key` is a call `name(args)` split at `i`: a non-empty name without white space, an
   * opening parenthesis at `i`, and an argument list with no `)` up to the final `)`.
   */
  predicate IsCallSplit(key: string, i: int) {
    0 < i < |key| - 1 && key[i] == '(' && key[|key| - 1] == ')' &&
    (forall k :: 0 <= k < i ==> !IsJsWhitespace(key[k])) &&
    (forall k :: i < k < |key| - 1 ==> key[k] != ')')
  }

  /** The largest split position not above `i`, if any. */
  function LastCallSplit(key: string, i: int): (r: Option<nat>)
    ensures r.Some? ==> r.value <= i && IsCallSplit(key, r.value)
    decreases i
  {
    if i <= 0 then None
    else if IsCallSplit(key, i) then Some(i)
    else LastCallSplit(key, i - 1)
  }

  /**
   * `getNameArgs(key)`: the longest white-space-free name followed by a final `(...)` becomes
   * the name and the argument list; any other key is all name, with an empty argument list.
   */
  function GetNameArgs(key: string): (r: NameArgs)
  {
    match LastCallSplit(key, |key| - 2)
    case None => NameArgs(key, "")
    case Some(i) => NameArgs(key[..i], key[i..])
  }

  // ---------------------------------------------------------------------------------------
  // encodeVars

  /** A scalar: the name is percent-encoded and a trailing argument list is kept as it is. */
  function EncodeScalar(raw: string): string
  {
    var na := GetNameArgs(raw);
    EncodeURIComponent(na.name) + na.argList
  }

  function EncodeEach(items: seq<string>): seq<string>
  {
    if items == [] then [] else [EncodeScalar(items[0])] + EncodeEach(items[1..])
  }

  /** `encodeVars(raw)`: an array is encoded element by element and joined with a plain comma. */
  function EncodeVars(raw: Value): (r: string)
    ensures raw.Str? && GetNameArgs(raw.s).argList == "" ==> DecodeURIComponent(r) == Some(raw.s)
    ensures raw == List([]) ==> r == ""
  {
    match raw
    case Str(s) => if GetNameArgs(s).argList == "" then EncodeScalarPlain(s); EncodeScalar(s) else EncodeScalar(s)
    case Num(n) => EncodeScalar(IntToString(n))
    case List(items) => Join(EncodeEach(items), ',')
  }

  // ---------------------------------------------------------------------------------------
  // expandTemplateSync

  /** A `${` starts at `k`. */
  predicate OpensAt(s: string, k: int) {
    0 <= k && k + 1 < |s| && s[k] == '$' && s[k + 1] == '{'
  }

  /** The first `${` at or after `from`. */
  function FindOpen(s: string, from: nat): (r: Option<nat>)
    ensures r.Some? ==> from <= r.value && OpensAt(s, r.value)
    decreases |s| - from
  {
    if from + 1 >= |s| then None
    else if OpensAt(s, from) then Some(from)
    else FindOpen(s, from + 1)
  }

  /** The first `}` at or after `from`. */
  function FindClose(s: string, from: nat): (r: Option<nat>)
    ensures r.Some? ==> from <= r.value < |s| && s[r.value] == '}'
    decreases |s| - from
  {
    if from >= |s| then None
    else if s[from] == '}' then Some(from)
    else FindClose(s, from + 1)
  }

  /**
   * The next match of `/\${([^}]*)}/`: the first `${` and the first `}` after it. When that
   * `${` has no `}` after it, no later one has either, so the template has no match.
   */
  function NextReference(s: string): (r: Option<(nat, nat)>)
    ensures r.Some? ==> OpensAt(s, r.value.0) && r.value.0 + 2 <= r.value.1 < |s| && s[r.value.1] == '}'
  {
    match FindOpen(s, 0)
    case None => None
    case Some(i) =>
      match FindClose(s, i + 2)
      case None => None
      case Some(j) => Some((i, j))
  }

  /** A template cut around a match: the text before it, `${key}`, and the text after it. */
  lemma ReferenceSplit(s: string, i: nat, j: nat)
    requires OpensAt(s, i) && i + 2 <= j < |s| && s[j] == '}'
    ensures s == s[..i] + ("${" + s[i + 2..j] + "}") + s[j + 1..]
  {
    assert s[i..j + 1] == "${" + s[i + 2..j] + "}";
    assert s == s[..i] + s[i..j + 1] + s[j + 1..];
  }

  /** A measure of the recursion budget: every pass with a non-negative budget lowers it. */
  function Budget(iterations: int): nat {
    if iterations < 0 then 0 else iterations + 1
  }

  /**
   * `expandTemplateSync(template, options)`. Once the depth budget is spent, a template
   * comes back verbatim, references included.
   */
  function ExpandTemplateSync(template: string, options: ExpansionOptions): (r: string)
    ensures options.iterations < 0 ==> r == template
    decreases Budget(options.iterations), |template|
  {
    match NextReference(template)
    case None => template
    case Some((i, j)) =>
      ReferenceSplit(template, i, j);
      template[..i] + ExpandVariable(template[i + 2..j], options) +
      ExpandTemplateSync(template[j + 1..], options)
  }

  /**
   * The replacement of one `${key}`: the reference itself while its name is frozen or once
   * the budget is spent, and nothing for an empty key or a name that is neither bound nor
   * frozen.
   */
  function ExpandVariable(key: string, options: ExpansionOptions): (r: string)
    ensures (options.iterations < 0 || (key != "" && GetNameArgs(key).name in options.freezeVars)) ==>
              r == "${" + key + "}"
    ensures options.iterations >= 0 && key == "" ==> r == ""
    ensures (options.iterations >= 0 && GetNameArgs(key).name !in options.vars &&
             GetNameArgs(key).name !in options.freezeVars) ==> r == ""
    decreases Budget(options.iterations), |key|
  {
    if options.iterations < 0 then "${" + key + "}"
    else if key == "" then ""
    else
      var na := GetNameArgs(key);
      if na.name in options.freezeVars then "${" + key + "}"
      else
        var value := GetVar(options, na.name);
        var resolved := if value.Str? then Str(ExpandTemplateSync(value.s, Nested(options))) else value;
        Render(resolved, options.noEncode, na.argList)
  }

  /**
   * The text a resolved value contributes: encoded unless `noEncode`, with the argument list
   * appended when the value is truthy (a non-empty string, a non-zero number, any array).
   */
  function Render(value: Value, noEncode: bool, argList: string): (r: string)
    ensures value == Str("") ==> r == ""
    ensures r != "" && !(noEncode && value == Num(0)) ==> |argList| <= |r| && r[|r| - |argList|..] == argList
  {
    if !noEncode then
      var encoded := EncodeVars(value);
      if encoded != "" then encoded + argList else encoded
    else
      match value
      case Str(s) => if s != "" then s + argList else s
      case Num(n) => if n != 0 then IntToString(n) + argList else "0"
      case List(items) => Join(items, ',') + argList
  }

  // ---------------------------------------------------------------------------------------
  // Properties of getNameArgs

  /** `LastCallSplit` finds the largest split position not above `i`, and `None` means there is none. */
  lemma {:induction false} LastCallSplitSpec(key: string, i: int)
    ensures LastCallSplit(key, i).Some? ==> forall j :: LastCallSplit(key, i).value < j <= i ==> !IsCallSplit(key, j)
    ensures LastCallSplit(key, i).None? ==> forall j :: j <= i ==> !IsCallSplit(key, j)
    decreases i
  {
    if i > 0 && !IsCallSplit(key, i) {
      LastCallSplitSpec(key, i - 1);
    }
  }

  /**
   * `getNameArgs` cuts the key in two without losing anything; the argument list is non-empty
   * exactly when the key is a call, and then the cut is at the last position where it can be.
   */
  lemma GetNameArgsSpec(key: string)
    ensures GetNameArgs(key).name + GetNameArgs(key).argList == key
    ensures GetNameArgs(key).argList != "" ==>
      IsCallSplit(key, |GetNameArgs(key).name|) && forall j :: |GetNameArgs(key).name| < j ==> !IsCallSplit(key, j)
    ensures GetNameArgs(key).argList == "" <==> forall j :: !IsCallSplit(key, j)
  {
    LastCallSplitSpec(key, |key| - 2);
    match LastCallSplit(key, |key| - 2)
    case None =>
    case Some(i) =>
      assert key[..i] + key[i..] == key;
      assert |key[..i]| == i;
  }

  /** A name without white space followed by `(args)`, with no parenthesis in `args`, splits there. */
  lemma NameArgsOfCall(name: string, args: string)
    requires name != ""
    requires forall k :: 0 <= k < |name| ==> !IsJsWhitespace(name[k])
    requires '(' !in args && ')' !in args
    ensures GetNameArgs(name + "(" + args + ")") == NameArgs(name, "(" + args + ")")
  {
    var key := name + "(" + args + ")";
    assert key[..|name|] == name;
    assert key[|name|..] == "(" + args + ")";
    assert IsCallSplit(key, |name|);
    forall j | |name| < j < |key| - 1
      ensures !IsCallSplit(key, j)
    {
      assert key[j] == args[j - |name| - 1];
    }
    GetNameArgsSpec(key);
    var r := GetNameArgs(key);
    assert |r.name| == |name|;
    assert r.name == key[..|name|];
  }

  /** A key whose first `(` comes after white space is all name. */
  lemma NameArgsAfterWhitespace(key: string, w: nat)
    requires w < |key| && IsJsWhitespace(key[w])
    requires forall k :: 0 <= k < w ==> key[k] != '('
    ensures GetNameArgs(key) == NameArgs(key, "")
  {
  }

  /** A key ending in `))` is all name: the argument list may not contain `)`. */
  lemma NameArgsDoubleClose(key: string)
    requires |key| >= 2 && key[|key| - 2] == ')' && key[|key| - 1] == ')'
    ensures GetNameArgs(key) == NameArgs(key, "")
  {
  }

  /** A key that does not end in `)` is all name. */
  lemma NameArgsWithoutClose(key: string)
    requires key == "" || key[|key| - 1] != ')'
    ensures GetNameArgs(key) == NameArgs(key, "")
  {
  }

  // ---------------------------------------------------------------------------------------
  // Properties of encodeVars

  /** Each element of an array is encoded on its own, in order. */
  lemma {:induction false} EncodeEachSpec(items: seq<string>)
    ensures |EncodeEach(items)| == |items|
    ensures forall k :: 0 <= k < |items| ==> EncodeEach(items)[k] == EncodeScalar(items[k])
  {
    if items != [] {
      EncodeEachSpec(items[1..]);
      assert EncodeEach(items) == [EncodeScalar(items[0])] + EncodeEach(items[1..]);
      forall k | 1 <= k < |items|
        ensures EncodeEach(items)[k] == EncodeScalar(items[k])
      {
        assert items[k] == items[1..][k - 1];
      }
    }
  }

  /** A scalar that is not a call is percent-encoded as a whole. */
  lemma EncodeScalarPlain(raw: string)
    requires GetNameArgs(raw).argList == ""
    ensures EncodeScalar(raw) == EncodeURIComponent(raw)
    ensures DecodeURIComponent(EncodeScalar(raw)) == Some(raw)
    ensures ',' !in EncodeScalar(raw)
  {
    DecodeEncode(raw);
    EncodedHasNoComma(raw);
  }

  /** A call whose name has only unreserved characters is emitted unchanged. */
  lemma EncodeScalarKeepsCall(name: string, args: string)
    requires name != ""
    requires forall k :: 0 <= k < |name| ==> IsUnreserved(name[k])
    requires '(' !in args && ')' !in args
    ensures EncodeScalar(name + "(" + args + ")") == name + "(" + args + ")"
  {
    forall k | 0 <= k < |name|
      ensures !IsJsWhitespace(name[k])
    {
      assert IsUnreserved(name[k]);
    }
    NameArgsOfCall(name, args);
    EncodeUnreservedIsIdentity(name);
  }

  /**
   * An array of non-call strings is encoded so that splitting at the commas gives one piece
   * per element, and each piece decodes to that element: the commas that join the elements
   * are the only plain commas, and each element is encoded on its own.
   */
  lemma EncodeArraySeparates(items: seq<string>)
    requires |items| >= 1
    requires forall k :: 0 <= k < |items| ==> GetNameArgs(items[k]).argList == ""
    ensures |Split(EncodeVars(List(items)), ',')| == |items|
    ensures forall k :: 0 <= k < |items| ==>
      DecodeURIComponent(Split(EncodeVars(List(items)), ',')[k]) == Some(items[k])
  {
    var parts := EncodeEach(items);
    EncodeEachSpec(items);
    forall k | 0 <= k < |parts|
      ensures ',' !in parts[k]
      ensures DecodeURIComponent(parts[k]) == Some(items[k])
    {
      EncodeScalarPlain(items[k]);
    }
    SplitJoin(parts, ',');
  }

  // ---------------------------------------------------------------------------------------
  // Properties of expandTemplateSync

  /** `FindOpen` finds the first `${` at or after `from`, and `None` means there is none. */
  lemma {:induction false} FindOpenSpec(s: string, from: nat)
    ensures FindOpen(s, from).Some? ==> forall k :: from <= k < FindOpen(s, from).value ==> !OpensAt(s, k)
    ensures FindOpen(s, from).None? ==> forall k :: from <= k ==> !OpensAt(s, k)
    decreases |s| - from
  {
    if from + 1 < |s| && !OpensAt(s, from) {
      FindOpenSpec(s, from + 1);
    }
  }

  /** `FindClose` finds the first `}` at or after `from`, and `None` means there is none. */
  lemma {:induction false} FindCloseSpec(s: string, from: nat)
    ensures FindClose(s, from).Some? ==> forall k :: from <= k < FindClose(s, from).value ==> s[k] != '}'
    ensures FindClose(s, from).None? ==> forall k :: from <= k < |s| ==> s[k] != '}'
    decreases |s| - from
  {
    if from < |s| && s[from] != '}' {
      FindCloseSpec(s, from + 1);
    }
  }

  /** A template with no `${` (plain text, or macro syntax such as `MACRO(a,b)`) is returned as it is. */
  lemma ExpandWithoutReferences(template: string, options: ExpansionOptions)
    requires forall k :: !OpensAt(template, k)
    ensures ExpandTemplateSync(template, options) == template
  {
    assert FindOpen(template, 0).None?;
  }

  /**
   * Expansion proceeds left to right: text before the first `${` is kept, the reference is
   * replaced, and the rest is expanded with the same options.
   */
  lemma ExpandStep(t: string, prefix: string, key: string, rest: string, options: ExpansionOptions)
    requires t == prefix + "${" + key + "}" + rest
    requires forall k :: !OpensAt(prefix, k)
    requires '}' !in key
    ensures ExpandTemplateSync(t, options) ==
      prefix + ExpandVariable(key, options) + ExpandTemplateSync(rest, options)
  {
    var i := |prefix|;
    var j := i + 2 + |key|;
    assert OpensAt(t, i);
    forall k | 0 <= k < i
      ensures !OpensAt(t, k)
    {
      if k + 1 < i {
        assert t[k] == prefix[k] && t[k + 1] == prefix[k + 1];
        assert !OpensAt(prefix, k);
      }
    }
    FindOpenSpec(t, 0);
    assert FindOpen(t, 0) == Some(i);
    assert t[j] == '}';
    forall k | i + 2 <= k < j
      ensures t[k] != '}'
    {
      assert t[k] == key[k - i - 2];
    }
    FindCloseSpec(t, i + 2);
    assert FindClose(t, i + 2) == Some(j);
    assert t[..i] == prefix;
    assert t[i + 2..j] == key;
    assert t[j + 1..] == rest;
  }

  /** Two references in a row: `ExpandStep` applied twice. */
  lemma ExpandTwo(t: string, p1: string, k1: string, m1: string, p2: string, k2: string, rest: string,
                  options: ExpansionOptions)
    requires t == p1 + "${" + k1 + "}" + m1 && m1 == p2 + "${" + k2 + "}" + rest
    requires forall k :: !OpensAt(p1, k)
    requires forall k :: !OpensAt(p2, k)
    requires '}' !in k1 && '}' !in k2
    ensures ExpandTemplateSync(t, options) ==
      p1 + ExpandVariable(k1, options) + (p2 + ExpandVariable(k2, options) + ExpandTemplateSync(rest, options))
  {
    ExpandStep(m1, p2, k2, rest, options);
    ExpandStep(t, p1, k1, m1, options);
  }

  /** Three references in a row. */
  lemma ExpandThree(t: string, p1: string, k1: string, m1: string, p2: string, k2: string, m2: string,
                    p3: string, k3: string, rest: string, options: ExpansionOptions)
    requires t == p1 + "${" + k1 + "}" + m1 && m1 == p2 + "${" + k2 + "}" + m2
    requires m2 == p3 + "${" + k3 + "}" + rest
    requires forall k :: !OpensAt(p1, k)
    requires forall k :: !OpensAt(p2, k)
    requires forall k :: !OpensAt(p3, k)
    requires '}' !in k1 && '}' !in k2 && '}' !in k3
    ensures ExpandTemplateSync(t, options) ==
      p1 + ExpandVariable(k1, options) + (p2 + ExpandVariable(k2, options) +
      (p3 + ExpandVariable(k3, options) + ExpandTemplateSync(rest, options)))
  {
    ExpandTwo(m1, p2, k2, m2, p3, k3, rest, options);
    ExpandStep(t, p1, k1, m1, options);
  }

  /** Four references in a row. */
  lemma ExpandFour(t: string, p1: string, k1: string, m1: string, p2: string, k2: string, m2: string,
                   p3: string, k3: string, m3: string, p4: string, k4: string, rest: string,
                   options: ExpansionOptions)
    requires t == p1 + "${" + k1 + "}" + m1 && m1 == p2 + "${" + k2 + "}" + m2
    requires m2 == p3 + "${" + k3 + "}" + m3 && m3 == p4 + "${" + k4 + "}" + rest
    requires forall k :: !OpensAt(p1, k)
    requires forall k :: !OpensAt(p2, k)
    requires forall k :: !OpensAt(p3, k)
    requires forall k :: !OpensAt(p4, k)
    requires '}' !in k1 && '}' !in k2 && '}' !in k3 && '}' !in k4
    ensures ExpandTemplateSync(t, options) ==
      p1 + ExpandVariable(k1, options) + (p2 + ExpandVariable(k2, options) +
      (p3 + ExpandVariable(k3, options) + (p4 + ExpandVariable(k4, options) + ExpandTemplateSync(rest, options))))
  {
    ExpandThree(m1, p2, k2, m2, p3, k3, m3, p4, k4, rest, options);
    ExpandStep(t, p1, k1, m1, options);
  }

  /** A bound string is expanded one level down, then rendered with the key's argument list. */
  lemma ExpandBoundString(key: string, name: string, argList: string, options: ExpansionOptions, expanded: string)
    requires options.iterations >= 0 && key != "" && GetNameArgs(key) == NameArgs(name, argList)
    requires name !in options.freezeVars && name in options.vars && options.vars[name].Str?
    requires ExpandTemplateSync(options.vars[name].s, Nested(options)) == expanded
    ensures ExpandVariable(key, options) == Render(Str(expanded), options.noEncode, argList)
  {
  }

  /** A bound number or array is rendered as it is, with the key's argument list. */
  lemma ExpandBoundOther(key: string, name: string, argList: string, options: ExpansionOptions)
    requires options.iterations >= 0 && key != "" && GetNameArgs(key) == NameArgs(name, argList)
    requires name !in options.freezeVars && name in options.vars && !options.vars[name].Str?
    ensures ExpandVariable(key, options) == Render(options.vars[name], options.noEncode, argList)
  {
  }

  /** A non-empty string that is not a call renders as itself, or percent-encoded. */
  lemma RenderPlainString(s: string, noEncode: bool)
    requires s != "" && GetNameArgs(s).argList == ""
    ensures Render(Str(s), noEncode, "") == if noEncode then s else EncodeURIComponent(s)
  {
    assert s + "" == s;
    if !noEncode {
      EncodeScalarPlain(s);
      assert EncodeURIComponent(s) != "" by {
        EncodeConcat([s[0]], s[1..]);
        assert [s[0]] + s[1..] == s;
      }
      assert EncodeURIComponent(s) + "" == EncodeURIComponent(s);
    }
  }

  /**
   * Encode once: for a string binding whose expansion is not a call, the encoded replacement
   * decodes to exactly the replacement produced without encoding. Nested passes never encode,
   * so the value is percent-encoded once, at the top level.
   */
  lemma EncodeOnce(key: string, options: ExpansionOptions)
    requires !options.noEncode && options.iterations >= 0 && key != ""
    requires GetNameArgs(key).argList == ""
    requires GetNameArgs(key).name !in options.freezeVars
    requires GetVar(options, GetNameArgs(key).name).Str?
    requires GetNameArgs(ExpandTemplateSync(GetVar(options, GetNameArgs(key).name).s, Nested(options))).argList == ""
    ensures DecodeURIComponent(ExpandVariable(key, options)) ==
      Some(ExpandVariable(key, options.(noEncode := true)))
  {
    var raw := options.(noEncode := true);
    assert Nested(raw) == Nested(options);
    var w := ExpandTemplateSync(GetVar(options, GetNameArgs(key).name).s, Nested(options));
    EncodeScalarPlain(w);
    assert ExpandVariable(key, raw) == w;
    assert ExpandVariable(key, options) == EncodeURIComponent(w);
  }
}
