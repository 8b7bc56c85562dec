/**
 * The concrete behaviour the analytics variable service documents through its examples,
 * derived from the model in `Variables`: `encodeVars` on scalars and arrays, and
 * `expandTemplateSync` on nested, unknown, frozen, zero-valued, array-valued and recursive
 * bindings.
 *
 * Expanding a template by unfolding the definitions on long literals is beyond the solver,
 * so each example is proved in three small steps: the template is split at its references
 * (`ExpandStep` and its multi-reference forms), each reference is resolved on its own, and
 * the pieces are put back together. Long expected strings are written as a concatenation of
 * short literal pieces for the same reason.
 */
module VariablesOracles {
  import opened Wrappers
  import opened UriComponent
  import opened JsText
  import opened Variables
  import opened EncodingExamples

  /** `o` holds exactly `vars`, has `iterations` passes left, the given mode, and nothing frozen. */
  predicate Options(o: ExpansionOptions, vars: map<string, Value>, iterations: int, noEncode: bool) {
    o.vars == vars && o.iterations == iterations && o.noEncode == noEncode && o.freezeVars == {}
  }

  // ---------------------------------------------------------------------------------------
  // Templates that are one reference

  /** A template that is one reference expands to that reference's value. */
  lemma ExpandReference(key: string, o: ExpansionOptions)
    requires '}' !in key
    ensures ExpandTemplateSync("${" + key + "}", o) == ExpandVariable(key, o)
  {
    ExpandStep("${" + key + "}", "", key, "", o);
    ExpandWithoutReferences("", o);
    assert "" + "${" + key + "}" + "" == "${" + key + "}";
    assert "" + ExpandVariable(key, o) + "" == ExpandVariable(key, o);
  }

  lemma ExpandReferenceA(o: ExpansionOptions)
    ensures ExpandTemplateSync("${a}", o) == ExpandVariable("a", o)
  {
    assert "${a}" == "${" + "a" + "}";
    ExpandReference("a", o);
  }

  lemma ExpandReferenceB(o: ExpansionOptions)
    ensures ExpandTemplateSync("${b}", o) == ExpandVariable("b", o)
  {
    assert "${b}" == "${" + "b" + "}";
    ExpandReference("b", o);
  }

  lemma ExpandReferenceC(o: ExpansionOptions)
    ensures ExpandTemplateSync("${c}", o) == ExpandVariable("c", o)
  {
    assert "${c}" == "${" + "c" + "}";
    ExpandReference("c", o);
  }

  lemma ExpandReferenceZero(o: ExpansionOptions)
    ensures ExpandTemplateSync("${zero}", o) == ExpandVariable("zero", o)
  {
    assert "${zero}" == "${" + "zero" + "}";
    ExpandReference("zero", o);
  }

  lemma ExpandReferenceEmpty(o: ExpansionOptions)
    ensures ExpandTemplateSync("${}", o) == ExpandVariable("", o)
  {
    assert "${}" == "${" + "" + "}";
    ExpandReference("", o);
  }

  lemma ExpandReferenceArray(o: ExpansionOptions)
    ensures ExpandTemplateSync("${array}", o) == ExpandVariable("array", o)
  {
    assert "${array}" == "${" + "array" + "}";
    ExpandReference("array", o);
  }

  lemma ExpandReferenceWorld(o: ExpansionOptions)
    ensures ExpandTemplateSync("${world}", o) == ExpandVariable("world", o)
  {
    assert "${world}" == "${" + "world" + "}";
    ExpandReference("world", o);
  }

  lemma ExpandReferenceHello(o: ExpansionOptions)
    ensures ExpandTemplateSync("${hello}", o) == ExpandVariable("hello", o)
  {
    assert "${hello}" == "${" + "hello" + "}";
    ExpandReference("hello", o);
  }

  lemma ExpandReferenceFoo(o: ExpansionOptions)
    ensures ExpandTemplateSync("${foo}", o) == ExpandVariable("foo", o)
  {
    assert "${foo}" == "${" + "foo" + "}";
    ExpandReference("foo", o);
  }

  lemma ExpandReferenceAll(o: ExpansionOptions)
    ensures ExpandTemplateSync("${all}", o) == ExpandVariable("all", o)
  {
    assert "${all}" == "${" + "all" + "}";
    ExpandReference("all", o);
  }

  lemma ExpandReferenceOne(o: ExpansionOptions)
    ensures ExpandTemplateSync("${1}", o) == ExpandVariable("1", o)
  {
    assert "${1}" == "${" + "1" + "}";
    ExpandReference("1", o);
  }

  // ---------------------------------------------------------------------------------------
  // encodeVars

  /** Routes a scalar's encoding to `encodeVars`. */
  lemma EncodeVarsOfScalar(s: string, expected: string)
    requires EncodeScalar(s) == expected
    ensures EncodeVars(Str(s)) == expected
  {
  }

  /** Routes the encodings of two elements to the encoding of the array holding them. */
  lemma EncodeVarsOfPair(a: string, b: string, ea: string, eb: string, expected: string)
    requires EncodeScalar(a) == ea && EncodeScalar(b) == eb
    requires expected == ea + "," + eb
    ensures EncodeVars(List([a, b])) == expected
  {
    var parts := EncodeEach([a, b]);
    EncodeEachSpec([a, b]);
    assert parts == [ea, eb];
    assert EncodeVars(List([a, b])) == JsText.Join(parts, ',');
    assert JsText.Join(parts, ',') == ea + [','] + JsText.Join([eb], ',');
  }

  /** Routes the encodings of three elements to the encoding of the array holding them. */
  lemma EncodeVarsOfTriple(a: string, b: string, c: string, ea: string, eb: string, ec: string, expected: string)
    requires EncodeScalar(a) == ea && EncodeScalar(b) == eb && EncodeScalar(c) == ec
    requires expected == ea + "," + (eb + "," + ec)
    ensures EncodeVars(List([a, b, c])) == expected
  {
    var parts := EncodeEach([a, b, c]);
    EncodeEachSpec([a, b, c]);
    assert parts == [ea, eb, ec];
    assert EncodeVars(List([a, b, c])) == JsText.Join(parts, ',');
    assert JsText.Join(parts, ',') == ea + [','] + JsText.Join([eb, ec], ',');
    assert JsText.Join([eb, ec], ',') == eb + [','] + JsText.Join([ec], ',');
  }

  lemma ScalarSpecialChars()
    ensures EncodeScalar("abc %&") == "abc%20%25%26"
  {
    NameArgsWithoutClose("abc %&");
    EncodeSpecialChars();
  }

  lemma ScalarSpaceInside()
    ensures EncodeScalar("a b") == "a%20b"
  {
    NameArgsWithoutClose("a b");
    EncodeSpaceInside();
  }

  lemma ScalarSlashInside()
    ensures EncodeScalar("ab/c") == "ab%2Fc"
  {
    NameArgsWithoutClose("ab/c");
    EncodeSlashInside();
  }

  lemma ScalarNumberLike()
    ensures EncodeScalar("12.3") == "12.3"
  {
    NameArgsWithoutClose("12.3");
    EncodeUnreservedIsIdentity("12.3");
  }

  lemma ScalarMacroPieces()
    ensures EncodeScalar("SOME_MACRO" + "(" + "abc,123" + ")") == "SOME_MACRO" + "(" + "abc,123" + ")"
  {
    EncodeScalarKeepsCall("SOME_MACRO", "abc,123");
  }

  lemma MacroPieces()
    ensures "SOME_MACRO" + "(" + "abc,123" + ")" == "SOME_MACRO(abc,123)"
  {
  }

  lemma ScalarMacro()
    ensures EncodeScalar("SOME_MACRO(abc,123)") == "SOME_MACRO(abc,123)"
  {
    MacroPieces();
    ScalarMacroPieces();
  }

  /** A plain scalar is percent-encoded. */
  lemma EncodeVarsScalar()
    ensures EncodeVars(Str("abc %&")) == "abc%20%25%26"
  {
    ScalarSpecialChars();
    EncodeVarsOfScalar("abc %&", "abc%20%25%26");
  }

  /** A macro call is emitted as it is. */
  lemma EncodeVarsMacro()
    ensures EncodeVars(Str("SOME_MACRO(abc,123)")) == "SOME_MACRO(abc,123)"
  {
    ScalarMacro();
    EncodeVarsOfScalar("SOME_MACRO(abc,123)", "SOME_MACRO(abc,123)");
  }

  /** Array elements are encoded one by one and joined with a plain comma. */
  lemma EncodeVarsArray()
    ensures EncodeVars(List(["abc %&", "a b"])) == "abc%20%25%26,a%20b"
  {
    ScalarSpecialChars();
    ScalarSpaceInside();
    EncodeVarsOfPair("abc %&", "a b", "abc%20%25%26", "a%20b", "abc%20%25%26,a%20b");
  }

  lemma MixedArrayPieces()
    ensures "12.3" + "," + ("SOME_MACRO(abc,123)" + "," + "ab%2Fc") == "12.3,SOME_MACRO(abc,123),ab%2Fc"
  {
  }

  /** An array mixing a number-like string, a macro call and a string with a slash. */
  lemma EncodeVarsMixedArray()
    ensures EncodeVars(List(["12.3", "SOME_MACRO(abc,123)", "ab/c"])) == "12.3,SOME_MACRO(abc,123),ab%2Fc"
  {
    MixedArrayPieces();
    ScalarNumberLike();
    ScalarMacro();
    ScalarSlashInside();
    EncodeVarsOfTriple("12.3", "SOME_MACRO(abc,123)", "ab/c", "12.3", "SOME_MACRO(abc,123)", "ab%2Fc",
      "12.3,SOME_MACRO(abc,123),ab%2Fc");
  }

  // ---------------------------------------------------------------------------------------
  // expandTemplateSync: nested bindings, encoded once

  /** The innermost value of the chain, written in pieces. */
  function Url(): string {
    "https:" + "//www." + "google.com" + "/a?b=1&c=2"
  }

  lemma UrlIsLiteral()
    ensures Url() == "https://www.google.com/a?b=1&c=2"
  {
  }

  function ChainVars(): map<string, Value> {
    map["a" := Str("${b}"), "b" := Str("${c}"), "c" := Str(Url())]
  }

  lemma EncodeUrlPieces()
    ensures EncodeURIComponent(Url()) ==
      "https%3A" + "%2F%2Fwww." + "google.com" + "%2Fa%3Fb%3D" + "1%26c%3D2"
  {
    assert Url() == "https:" + "//www." + "google.com" + "/a?b=" + "1&c=2";
    EncodeConcat("https:", "//www.");
    EncodeConcat("https:" + "//www.", "google.com");
    EncodeConcat("https:" + "//www." + "google.com", "/a?b=");
    EncodeConcat("https:" + "//www." + "google.com" + "/a?b=", "1&c=2");
    EncodeUrlScheme();
    EncodeUrlSlashes();
    EncodeUrlHost();
    EncodeUrlPath();
    EncodeUrlQuery();
  }

  lemma EncodedUrlIsLiteral()
    ensures "https%3A" + "%2F%2Fwww." + "google.com" + "%2Fa%3Fb%3D" + "1%26c%3D2" ==
      "https%3A%2F%2Fwww.google.com%2Fa%3Fb%3D1%26c%3D2"
  {
  }

  lemma ChainInner(o: ExpansionOptions)
    requires Options(o, ChainVars(), 0, true)
    ensures ExpandVariable("c", o) == Url()
  {
    NameArgsWithoutClose("c");
  }

  lemma ChainMiddle(o: ExpansionOptions)
    requires Options(o, ChainVars(), 1, true)
    ensures ExpandVariable("b", o) == Url()
  {
    NameArgsWithoutClose("b");
    ChainInner(Nested(o));
    ExpandReferenceC(Nested(o));
  }

  lemma ChainOuter(o: ExpansionOptions)
    requires Options(o, ChainVars(), 2, o.noEncode)
    ensures ExpandVariable("a", o) == if o.noEncode then Url() else EncodeURIComponent(Url())
  {
    NameArgsWithoutClose("a");
    ChainMiddle(Nested(o));
    ExpandReferenceB(Nested(o));
    ExpandBoundString("a", "a", "", o, Url());
    NameArgsWithoutClose(Url());
    RenderPlainString(Url(), o.noEncode);
  }

  /** `${a}` with `a -> ${b} -> ${c} -> url`: the url, percent-encoded once. */
  lemma ExpandChainEncoded(o: ExpansionOptions)
    requires o == NewExpansionOptions(ChainVars(), None, false)
    ensures ExpandTemplateSync("${a}", o) == "https%3A%2F%2Fwww.google.com%2Fa%3Fb%3D1%26c%3D2"
  {
    ExpandReferenceA(o);
    ChainOuter(o);
    EncodedUrlIsLiteral();
    EncodeUrlPieces();
  }

  /** The same chain without encoding gives the url itself. */
  lemma ExpandChainRaw(o: ExpansionOptions)
    requires o == NewExpansionOptions(ChainVars(), None, true)
    ensures ExpandTemplateSync("${a}", o) == "https://www.google.com/a?b=1&c=2"
  {
    ExpandReferenceA(o);
    ChainOuter(o);
    UrlIsLiteral();
  }

  // ---------------------------------------------------------------------------------------
  // expandTemplateSync: small cases

  /** A key bound to a non-empty string without references and not ending in `)` resolves to it. */
  lemma ResolvesToPlain(key: string, o: ExpansionOptions, value: string)
    requires o.iterations >= 0 && key != "" && key[|key| - 1] != ')'
    requires key !in o.freezeVars && key in o.vars && o.vars[key] == Str(value)
    requires value != "" && value[|value| - 1] != ')'
    requires forall k :: !OpensAt(value, k)
    ensures ExpandVariable(key, o) == if o.noEncode then value else EncodeURIComponent(value)
  {
    NameArgsWithoutClose(key);
    ExpandWithoutReferences(value, Nested(o));
    ExpandBoundString(key, key, "", o, value);
    NameArgsWithoutClose(value);
    RenderPlainString(value, o.noEncode);
  }

  lemma ZeroRendered(o: ExpansionOptions)
    requires Options(o, map["zero" := Num(0)], 2, false)
    ensures ExpandVariable("zero", o) == "0"
  {
    NameArgsWithoutClose("zero");
    assert JsText.IntToString(0) == "0";
    NameArgsWithoutClose("0");
    EncodeUnreservedIsIdentity("0");
  }

  /** A number zero is emitted as `0`. */
  lemma ExpandZero(o: ExpansionOptions)
    requires o == NewExpansionOptions(map["zero" := Num(0)], None, false)
    ensures ExpandTemplateSync("${zero}", o) == "0"
  {
    ExpandReferenceZero(o);
    ZeroRendered(o);
  }

  lemma UnknownDropped(o: ExpansionOptions)
    requires Options(o, map["known" := Str("KNOWN")], 2, false)
    ensures ExpandVariable("unknown", o) == ""
  {
    NameArgsWithoutClose("unknown");
  }

  lemma KnownKept(o: ExpansionOptions)
    requires Options(o, map["known" := Str("KNOWN")], 2, false)
    ensures ExpandVariable("known", o) == "KNOWN"
  {
    ResolvesToPlain("known", o, "KNOWN");
    EncodeUnreservedIsIdentity("KNOWN");
  }

  lemma UnknownPieces()
    ensures "a=" + "KNOWN" + ("&b=" + "" + "") == "a=KNOWN&b="
  {
  }

  /** An unbound name expands to nothing; the text around it stays. */
  lemma ExpandDropsUnknown(o: ExpansionOptions)
    requires o == NewExpansionOptions(map["known" := Str("KNOWN")], None, false)
    ensures ExpandTemplateSync("a=${known}&b=${unknown}", o) == "a=KNOWN&b="
  {
    ExpandTwo("a=${known}&b=${unknown}", "a=", "known", "&b=${unknown}", "&b=", "unknown", "", o);
    KnownKept(o);
    UnknownDropped(o);
    ExpandWithoutReferences("", o);
    UnknownPieces();
  }

  /** Macro syntax outside `${...}` is not touched. */
  lemma ExpandLeavesMacros(o: ExpansionOptions)
    requires o == NewExpansionOptions(map[], None, false)
    ensures ExpandTemplateSync("MACRO(a,b)", o) == "MACRO(a,b)"
  {
    ExpandWithoutReferences("MACRO(a,b)", o);
  }

  /** `${}` expands to the empty string. */
  lemma ExpandEmptyName(o: ExpansionOptions)
    requires o == NewExpansionOptions(map[], None, false)
    ensures ExpandTemplateSync("${}", o) == ""
  {
    ExpandReferenceEmpty(o);
  }

  // ---------------------------------------------------------------------------------------
  // expandTemplateSync: an array binding

  /** An array whose elements are not expanded: a macro call is kept, anything else encoded. */
  function ArrayVars(): map<string, Value> {
    map["foo" := Str("bar"), "array" := List(["xy&x", "MACRO(abc,def)", "MACRO(abc,def)" + "&123", "${foo}"])]
  }

  /** Routes the encodings of four elements to the encoding of the array holding them. */
  lemma EncodeVarsOfQuad(a: string, b: string, c: string, d: string,
                         ea: string, eb: string, ec: string, ed: string, expected: string)
    requires EncodeScalar(a) == ea && EncodeScalar(b) == eb && EncodeScalar(c) == ec && EncodeScalar(d) == ed
    requires expected == ea + "," + (eb + "," + (ec + "," + ed))
    ensures EncodeVars(List([a, b, c, d])) == expected
  {
    var parts := EncodeEach([a, b, c, d]);
    EncodeEachSpec([a, b, c, d]);
    assert parts == [ea, eb, ec, ed];
    assert JsText.Join(parts, ',') == ea + [','] + JsText.Join([eb, ec, ed], ',');
    assert JsText.Join([eb, ec, ed], ',') == eb + [','] + JsText.Join([ec, ed], ',');
    assert JsText.Join([ec, ed], ',') == ec + [','] + JsText.Join([ed], ',');
  }

  lemma ScalarAmpersand()
    ensures EncodeScalar("xy&x") == "xy%26x"
  {
    NameArgsWithoutClose("xy&x");
    EncodeAmpersandInside();
  }

  lemma ArrayMacroPieces()
    ensures "MACRO" + "(" + "abc,def" + ")" == "MACRO(abc,def)"
  {
  }

  lemma ScalarArrayMacro()
    ensures EncodeScalar("MACRO(abc,def)") == "MACRO(abc,def)"
  {
    ArrayMacroPieces();
    EncodeScalarKeepsCall("MACRO", "abc,def");
  }

  lemma NotAMacroPieces()
    ensures "MACRO(abc,def)" + "&123" == "MACRO(abc" + ",def)" + "&123"
  {
  }

  /** A call followed by more text is not a call: it is encoded as a whole. */
  lemma EncodeNotAMacro()
    ensures EncodeURIComponent("MACRO(abc,def)" + "&123") == "MACRO(abc" + "%2Cdef)" + "%26123"
  {
    NotAMacroPieces();
    assert EncodeURIComponent("MACRO(abc") == "MACRO(abc" by {
      assert "MACRO(abc" == "MACRO" + "(abc";
      KeepBoth("MACRO", "(abc");
    }
    EncodeCommaDef();
    EncodeAmpersandDigits();
    EncodeChunks("MACRO(abc", ",def)", "&123", "MACRO(abc", "%2Cdef)", "%26123");
  }

  lemma ScalarNotAMacro()
    ensures EncodeScalar("MACRO(abc,def)" + "&123") == "MACRO(abc" + "%2Cdef)" + "%26123"
  {
    NameArgsWithoutClose("MACRO(abc,def)" + "&123");
    EncodeNotAMacro();
  }

  lemma ScalarReference()
    ensures EncodeScalar("${foo}") == "%24%7Bfoo%7D"
  {
    NameArgsWithoutClose("${foo}");
    EncodeFooReference();
  }

  lemma ArrayPieces()
    ensures "xy%26x" + "," + ("MACRO(abc,def)" + "," + ("MACRO(abc" + "%2Cdef)" + "%26123" + "," + "%24%7Bfoo%7D")) ==
      "xy%26x,MACRO(abc,def)," + "MACRO(abc%2Cdef)%26123," + "%24%7Bfoo%7D"
  {
  }

  lemma ArrayRendered(o: ExpansionOptions)
    requires Options(o, ArrayVars(), 2, false)
    ensures ExpandVariable("array", o) == "xy%26x,MACRO(abc,def)," + "MACRO(abc%2Cdef)%26123," + "%24%7Bfoo%7D"
  {
    NameArgsWithoutClose("array");
    ExpandBoundOther("array", "array", "", o);
    ScalarAmpersand();
    ScalarArrayMacro();
    ScalarNotAMacro();
    ScalarReference();
    ArrayPieces();
    EncodeVarsOfQuad("xy&x", "MACRO(abc,def)", "MACRO(abc,def)" + "&123", "${foo}",
      "xy%26x", "MACRO(abc,def)", "MACRO(abc" + "%2Cdef)" + "%26123", "%24%7Bfoo%7D",
      "xy%26x,MACRO(abc,def)," + "MACRO(abc%2Cdef)%26123," + "%24%7Bfoo%7D");
  }

  /**
   * An array binding is encoded element by element: special characters are encoded, a macro
   * call is kept, text after a call makes it a plain string, and a `${...}` inside an element
   * is not expanded.
   */
  lemma ExpandArrayVars(o: ExpansionOptions)
    requires o == NewExpansionOptions(ArrayVars(), None, false)
    ensures ExpandTemplateSync("${array}", o) == "xy%26x,MACRO(abc,def)," + "MACRO(abc%2Cdef)%26123," + "%24%7Bfoo%7D"
  {
    ExpandReferenceArray(o);
    ArrayRendered(o);
  }

  // ---------------------------------------------------------------------------------------
  // expandTemplateSync: a binding that refers to several others

  function ComplexVars(): map<string, Value> {
    map["foo" := Str("${a}+${b}+${c}+${hello}"), "a" := Str("${hello}/${world}"), "b" := Str("${world}"),
        "c" := Str("${hello}"), "hello" := Str("HELLO"), "world" := Str("WORLD")]
  }

  /** The expansion of `foo` before encoding, in pieces. */
  function ComplexText(): string {
    "HELLO/" + "WORLD+" + "WORLD+" + "HELLO+" + "HELLO"
  }

  lemma ComplexLeaves(o: ExpansionOptions)
    requires o.vars == ComplexVars() && o.iterations >= 0 && o.noEncode && o.freezeVars == {}
    ensures ExpandVariable("hello", o) == "HELLO" && ExpandVariable("world", o) == "WORLD"
  {
    ResolvesToPlain("hello", o, "HELLO");
    ResolvesToPlain("world", o, "WORLD");
  }

  lemma ComplexAPieces()
    ensures "" + "HELLO" + ("/" + "WORLD" + "") == "HELLO/WORLD"
  {
  }

  lemma ComplexAValue(o: ExpansionOptions)
    requires Options(o, ComplexVars(), 0, true)
    ensures ExpandTemplateSync("${hello}/${world}", o) == "HELLO/WORLD"
  {
    ExpandTwo("${hello}/${world}", "", "hello", "/${world}", "/", "world", "", o);
    ComplexLeaves(o);
    ExpandWithoutReferences("", o);
    ComplexAPieces();
  }

  lemma ComplexA(o: ExpansionOptions)
    requires Options(o, ComplexVars(), 1, true)
    ensures ExpandVariable("a", o) == "HELLO/WORLD"
  {
    ComplexAValue(Nested(o));
    NameArgsWithoutClose("a");
    ExpandBoundString("a", "a", "", o, "HELLO/WORLD");
    NameArgsWithoutClose("HELLO/WORLD");
    RenderPlainString("HELLO/WORLD", true);
  }

  lemma ComplexB(o: ExpansionOptions)
    requires Options(o, ComplexVars(), 1, true)
    ensures ExpandVariable("b", o) == "WORLD"
  {
    ExpandReferenceWorld(Nested(o));
    ComplexLeaves(Nested(o));
    NameArgsWithoutClose("b");
    ExpandBoundString("b", "b", "", o, "WORLD");
    NameArgsWithoutClose("WORLD");
    RenderPlainString("WORLD", true);
  }

  lemma ComplexC(o: ExpansionOptions)
    requires Options(o, ComplexVars(), 1, true)
    ensures ExpandVariable("c", o) == "HELLO"
  {
    ExpandReferenceHello(Nested(o));
    ComplexLeaves(Nested(o));
    NameArgsWithoutClose("c");
    ExpandBoundString("c", "c", "", o, "HELLO");
    NameArgsWithoutClose("HELLO");
    RenderPlainString("HELLO", true);
  }

  lemma ComplexFooPieces()
    ensures "" + "HELLO/WORLD" + ("+" + "WORLD" + ("+" + "HELLO" + ("+" + "HELLO" + ""))) == ComplexText()
  {
  }

  lemma ComplexTemplatePieces()
    ensures "${a}+${b}+${c}+${hello}" == "" + "${" + "a" + "}" + "+${b}+${c}+${hello}"
    ensures "+${b}+${c}+${hello}" == "+" + "${" + "b" + "}" + "+${c}+${hello}"
    ensures "+${c}+${hello}" == "+" + "${" + "c" + "}" + "+${hello}"
    ensures "+${hello}" == "+" + "${" + "hello" + "}" + ""
  {
  }

  lemma ComplexFooValue(o: ExpansionOptions)
    requires Options(o, ComplexVars(), 1, true)
    ensures ExpandTemplateSync("${a}+${b}+${c}+${hello}", o) == ComplexText()
  {
    ComplexTemplatePieces();
    ExpandFour("${a}+${b}+${c}+${hello}", "", "a", "+${b}+${c}+${hello}", "+", "b", "+${c}+${hello}",
      "+", "c", "+${hello}", "+", "hello", "", o);
    ComplexA(o);
    ComplexB(o);
    ComplexC(o);
    ComplexLeaves(o);
    ExpandWithoutReferences("", o);
    ComplexFooPieces();
  }

  lemma ComplexFoo(o: ExpansionOptions)
    requires Options(o, ComplexVars(), 2, false)
    ensures ExpandVariable("foo", o) == EncodeURIComponent(ComplexText())
  {
    ComplexFooValue(Nested(o));
    NameArgsWithoutClose("foo");
    ExpandBoundString("foo", "foo", "", o, ComplexText());
    NameArgsWithoutClose(ComplexText());
    RenderPlainString(ComplexText(), false);
  }

  lemma EncodeComplexPieces()
    ensures EncodeURIComponent(ComplexText()) ==
      "HELLO%2F" + "WORLD%2B" + "WORLD%2B" + "HELLO%2B" + "HELLO"
  {
    EncodeConcat("HELLO/", "WORLD+");
    EncodeConcat("HELLO/" + "WORLD+", "WORLD+");
    EncodeConcat("HELLO/" + "WORLD+" + "WORLD+", "HELLO+");
    EncodeConcat("HELLO/" + "WORLD+" + "WORLD+" + "HELLO+", "HELLO");
    EncodeHelloSlash();
    EncodeWorldPlus();
    EncodeHelloPlus();
    EncodeUnreservedIsIdentity("HELLO");
  }

  lemma EncodedComplexIsLiteral()
    ensures "HELLO%2F" + "WORLD%2B" + "WORLD%2B" + "HELLO%2B" + "HELLO" == "HELLO%2FWORLD%2BWORLD%2BHELLO%2BHELLO"
  {
  }

  /** Every reference inside a binding is expanded, and the whole is encoded once. */
  lemma ExpandComplicated(o: ExpansionOptions)
    requires o == NewExpansionOptions(ComplexVars(), None, false)
    ensures ExpandTemplateSync("${foo}", o) == "HELLO%2FWORLD%2BWORLD%2BHELLO%2BHELLO"
  {
    ExpandReferenceFoo(o);
    ComplexFoo(o);
    EncodedComplexIsLiteral();
    EncodeComplexPieces();
  }

  // ---------------------------------------------------------------------------------------
  // expandTemplateSync: argument lists

  /** A non-empty value without encoding is followed by the key's argument list. */
  lemma RenderRaw(s: string, argList: string)
    requires s != ""
    ensures Render(Str(s), true, argList) == s + argList
  {
  }

  /** A value whose encoding is non-empty is followed by the key's argument list. */
  lemma RenderEncoded(s: string, argList: string, encoded: string)
    requires EncodeScalar(s) == encoded && encoded != ""
    ensures Render(Str(s), false, argList) == encoded + argList
  {
  }

  lemma NestedCommaPieces()
    ensures "AAA(BBB(1,2))" == "AAA(BBB(1" + ",2))"
    ensures "AAA(BBB(1" + "%2C2))" == "AAA(BBB(1%2C2))"
  {
  }

  lemma EncodeNestedCallWithComma()
    ensures EncodeURIComponent("AAA(BBB(1,2))") == "AAA(BBB(1%2C2))"
  {
    NestedCommaPieces();
    EncodeConcat("AAA(BBB(1", ",2))");
    assert EncodeURIComponent("AAA(BBB(1") == "AAA(BBB(1" by {
      assert "AAA(BBB(1" == "AAA(" + "BBB(1";
      KeepBoth("AAA(", "BBB(1");
    }
    EncodeCommaTail();
  }

  lemma NestedCallValue(o: ExpansionOptions, value: string, encoded: string)
    requires Options(o, map["foo" := Str(value)], 2, false)
    requires value != "" && value[|value| - 1] == ')' && |value| >= 2 && value[|value| - 2] == ')'
    requires forall k :: !OpensAt(value, k)
    requires EncodeURIComponent(value) == encoded
    ensures ExpandVariable("foo", o) == encoded
  {
    NameArgsWithoutClose("foo");
    ExpandWithoutReferences(value, Nested(o));
    ExpandBoundString("foo", "foo", "", o, value);
    NameArgsDoubleClose(value);
    RenderPlainString(value, false);
  }

  /** A value ending in `))` is not a call: it is encoded as a whole (`(` and `)` stay). */
  lemma ExpandNestedCall(o: ExpansionOptions)
    requires o == NewExpansionOptions(map["foo" := Str("AAA(BBB(1))")], None, false)
    ensures ExpandTemplateSync("${foo}", o) == "AAA(BBB(1))"
  {
    ExpandReferenceFoo(o);
    NestedCallPlainValue(o);
  }

  lemma NestedCallPlainValue(o: ExpansionOptions)
    requires Options(o, map["foo" := Str("AAA(BBB(1))")], 2, false)
    ensures ExpandVariable("foo", o) == "AAA(BBB(1))"
  {
    assert EncodeURIComponent("AAA(BBB(1))") == "AAA(BBB(1))" by {
      assert "AAA(BBB(1))" == "AAA(B" + "BB(1))";
      KeepBoth("AAA(B", "BB(1))");
    }
    NoOpeningInPlainNestedCall();
    NestedCallValue(o, "AAA(BBB(1))", "AAA(BBB(1))");
  }

  lemma NoOpeningInPlainNestedCall()
    ensures forall k :: !OpensAt("AAA(BBB(1))", k)
  {
    var s := "AAA(BBB(1))";
    forall k | 0 <= k < |s| ensures s[k] != '$' { }
  }

  /** The same with a comma inside: the comma is encoded. */
  lemma ExpandNestedCallWithComma(o: ExpansionOptions)
    requires o == NewExpansionOptions(map["foo" := Str("AAA(BBB(1,2))")], None, false)
    ensures ExpandTemplateSync("${foo}", o) == "AAA(BBB(1%2C2))"
  {
    ExpandReferenceFoo(o);
    NestedCallWithCommaValue(o);
  }

  lemma NestedCallWithCommaValue(o: ExpansionOptions)
    requires Options(o, map["foo" := Str("AAA(BBB(1,2))")], 2, false)
    ensures ExpandVariable("foo", o) == "AAA(BBB(1%2C2))"
  {
    EncodeNestedCallWithComma();
    NoOpeningInNestedCall();
    NestedCallValue(o, "AAA(BBB(1,2))", "AAA(BBB(1%2C2))");
  }

  lemma NoOpeningInNestedCall()
    ensures forall k :: !OpensAt("AAA(BBB(1,2))", k)
  {
    var s := "AAA(BBB(1,2))";
    forall k | 0 <= k < |s| ensures s[k] != '$' { }
  }

  function CallVars(): map<string, Value> {
    map["foo" := Str("FOO(1,2)"), "bar" := Str("BAR")]
  }

  lemma CallPieces()
    ensures "FOO(1,2)" == "FOO" + "(" + "1,2" + ")"
    ensures "bar(3,4)" == "bar" + "(" + "3,4" + ")"
    ensures "BAR" + "(3,4)" == "BAR(3,4)"
    ensures "" + "FOO(1,2)" + ("&" + "BAR(3,4)" + "") == "FOO(1,2)&BAR(3,4)"
  {
  }

  lemma CallValueFoo(o: ExpansionOptions)
    requires Options(o, CallVars(), 2, false)
    ensures ExpandVariable("foo", o) == "FOO(1,2)"
  {
    NameArgsWithoutClose("foo");
    NoOpeningInFooCall();
    ExpandWithoutReferences("FOO(1,2)", Nested(o));
    ExpandBoundString("foo", "foo", "", o, "FOO(1,2)");
    ScalarFooCall();
    RenderEncoded("FOO(1,2)", "", "FOO(1,2)");
  }

  lemma NoOpeningInFooCall()
    ensures forall k :: !OpensAt("FOO(1,2)", k)
  {
    var s := "FOO(1,2)";
    forall k | 0 <= k < |s| ensures s[k] != '$' { }
  }

  lemma ScalarFooCall()
    ensures EncodeScalar("FOO(1,2)") == "FOO(1,2)"
  {
    CallPieces();
    EncodeScalarKeepsCall("FOO", "1,2");
  }

  lemma CallValueBar(o: ExpansionOptions)
    requires Options(o, CallVars(), 2, false)
    ensures ExpandVariable("bar(3,4)", o) == "BAR(3,4)"
  {
    CallPieces();
    NameArgsOfCall("bar", "3,4");
    ExpandWithoutReferences("BAR", Nested(o));
    ExpandBoundString("bar(3,4)", "bar", "(3,4)", o, "BAR");
    NameArgsWithoutClose("BAR");
    EncodeUnreservedIsIdentity("BAR");
    RenderEncoded("BAR", "(3,4)", "BAR");
  }

  /** The argument list of a reference follows the value of its name. */
  lemma ExpandCallArguments(o: ExpansionOptions)
    requires o == NewExpansionOptions(CallVars(), None, false)
    ensures ExpandTemplateSync("${foo}&${bar(3,4)}", o) == "FOO(1,2)&BAR(3,4)"
  {
    ExpandTwo("${foo}&${bar(3,4)}", "", "foo", "&${bar(3,4)}", "&", "bar(3,4)", "", o);
    CallValueFoo(o);
    CallValueBar(o);
    ExpandWithoutReferences("", o);
    CallPieces();
  }

  /**
   * A binding that passes argument lists to other bindings. The nested pass does not encode,
   * so the commas of the inner calls reach the top level, where only the last `(7,8)` is an
   * argument list; everything before it is encoded as one name.
   */
  function AllVars(): map<string, Value> {
    map["a" := Str("AAA"), "b" := Str("BBB"), "c" := Str("CCC(5,6)"), "d" := Str("DDD(7,8)"),
        "all" := Str(AllTemplate())]
  }

  function AllTemplate(): string {
    "${a(1,2)}" + "&${b(3,4)}" + "&${c}" + "&${d}"
  }

  /** The text of `${all}` after the nested pass. */
  function AllRaw(): string {
    "AAA(1,2)" + "&BBB(3,4)" + "&CCC(5,6)" + "&DDD(7,8)"
  }

  /** The name part of `AllRaw()`, which ends before the final `(7,8)`. */
  function AllName(): string {
    "AAA(1,2)" + "&BBB(3,4)" + "&CCC(5,6)" + "&DDD"
  }

  lemma AllTemplatePieces()
    ensures AllTemplate() == "" + "${" + "a(1,2)" + "}" + ("&${b(3,4)}" + "&${c}" + "&${d}")
    ensures "&${b(3,4)}" + "&${c}" + "&${d}" == "&" + "${" + "b(3,4)" + "}" + ("&${c}" + "&${d}")
    ensures "&${c}" + "&${d}" == "&" + "${" + "c" + "}" + "&${d}"
    ensures "&${d}" == "&" + "${" + "d" + "}" + ""
    ensures "a(1,2)" == "a" + "(" + "1,2" + ")" && "b(3,4)" == "b" + "(" + "3,4" + ")"
  {
  }

  lemma AllRawPieces()
    ensures "" + "AAA(1,2)" + ("&" + "BBB(3,4)" + ("&" + "CCC(5,6)" + ("&" + "DDD(7,8)" + ""))) == AllRaw()
    ensures "AAA" + "(1,2)" == "AAA(1,2)" && "BBB" + "(3,4)" == "BBB(3,4)"
    ensures AllRaw() == AllName() + "(" + "7,8" + ")"
  {
  }

  /** `name` is bound to the string `value` in a pass that does not encode. */
  predicate BoundRaw(n: ExpansionOptions, name: string, value: string) {
    n.noEncode && n.iterations >= 0 && name !in n.freezeVars && name in n.vars && n.vars[name] == Str(value)
  }

  /** A key bound to a call without references is left as it is by a pass that does not encode. */
  lemma RawCallValue(n: ExpansionOptions, key: string, value: string)
    requires BoundRaw(n, key, value) && key != "" && key[|key| - 1] != ')'
    requires value != "" && forall k :: 0 <= k < |value| ==> value[k] != '$'
    ensures ExpandVariable(key, n) == value
  {
    NameArgsWithoutClose(key);
    ExpandWithoutReferences(value, Nested(n));
    ExpandBoundString(key, key, "", n, value);
    RenderRaw(value, "");
  }

  /** A call `name(args)` gives the name's value followed by the argument list, unencoded. */
  lemma RawArgumentValue(n: ExpansionOptions, name: string, args: string, value: string)
    requires BoundRaw(n, name, value) && name != ""
    requires forall k :: 0 <= k < |name| ==> !IsJsWhitespace(name[k])
    requires '(' !in args && ')' !in args
    requires value != "" && forall k :: 0 <= k < |value| ==> value[k] != '$'
    ensures ExpandVariable(name + "(" + args + ")", n) == value + "(" + args + ")"
  {
    NameArgsOfCall(name, args);
    ExpandWithoutReferences(value, Nested(n));
    ExpandBoundString(name + "(" + args + ")", name, "(" + args + ")", n, value);
    RenderRaw(value, "(" + args + ")");
  }

  /** The value of `${all}` holds four references, with `&` between them. */
  lemma AllStructure(n: ExpansionOptions)
    ensures ExpandTemplateSync(AllTemplate(), n) ==
      "" + ExpandVariable("a(1,2)", n) + ("&" + ExpandVariable("b(3,4)", n) +
      ("&" + ExpandVariable("c", n) + ("&" + ExpandVariable("d", n) + ExpandTemplateSync("", n))))
  {
    AllTemplatePieces();
    ExpandFour(AllTemplate(), "", "a(1,2)", "&${b(3,4)}" + "&${c}" + "&${d}",
      "&", "b(3,4)", "&${c}" + "&${d}", "&", "c", "&${d}", "&", "d", "", n);
  }

  lemma AllArgumentValues(n: ExpansionOptions)
    requires Options(n.(noEncode := false), AllVars(), 1, false) && n.noEncode
    ensures ExpandVariable("a(1,2)", n) == "AAA(1,2)" && ExpandVariable("b(3,4)", n) == "BBB(3,4)"
  {
    assert BoundRaw(n, "a", "AAA") && BoundRaw(n, "b", "BBB");
    AllArgumentPieces();
    RawArgumentValue(n, "a", "1,2", "AAA");
    RawArgumentValue(n, "b", "3,4", "BBB");
  }

  lemma AllCallValues(n: ExpansionOptions)
    requires Options(n.(noEncode := false), AllVars(), 1, false) && n.noEncode
    ensures ExpandVariable("c", n) == "CCC(5,6)" && ExpandVariable("d", n) == "DDD(7,8)"
  {
    assert BoundRaw(n, "c", "CCC(5,6)") && BoundRaw(n, "d", "DDD(7,8)");
    RawCallValue(n, "c", "CCC(5,6)");
    RawCallValue(n, "d", "DDD(7,8)");
  }

  lemma AllArgumentPieces()
    ensures "a" + "(" + "1,2" + ")" == "a(1,2)" && "b" + "(" + "3,4" + ")" == "b(3,4)"
    ensures "AAA" + "(" + "1,2" + ")" == "AAA(1,2)" && "BBB" + "(" + "3,4" + ")" == "BBB(3,4)"
  {
  }

  /** The nested pass over `${all}`'s value expands all four references without encoding. */
  lemma AllNested(n: ExpansionOptions)
    requires Options(n.(noEncode := false), AllVars(), 1, false) && n.noEncode
    ensures ExpandTemplateSync(AllTemplate(), n) == AllRaw()
  {
    AllStructure(n);
    AllArgumentValues(n);
    AllCallValues(n);
    ExpandWithoutReferences("", n);
    AllRawPieces();
  }

  lemma AllNameChunks()
    ensures AllName() == "AAA(1,2)" + "&BBB(3,4)" + "&CCC(5,6)" + "&DDD"
    ensures "AAA(1%2C2)" + "%26BBB(3%2C4)" + "%26CCC(5%2C6)" + "%26DDD" + "(" + "7,8" + ")" == AllExpected()
  {
  }

  /** The name before the final argument list is encoded as a whole. */
  lemma EncodeAllName()
    ensures EncodeURIComponent(AllName()) + "(" + "7,8" + ")" == AllExpected()
  {
    AllNameChunks();
    EncodeFirstCall();
    EncodeSecondCall();
    EncodeThirdCall();
    EncodeAmpersandD();
    EncodeChunks("AAA(1,2)", "&BBB(3,4)", "&CCC(5,6)", "AAA(1%2C2)", "%26BBB(3%2C4)", "%26CCC(5%2C6)");
    EncodeTwo("AAA(1,2)" + "&BBB(3,4)" + "&CCC(5,6)", "&DDD", "AAA(1%2C2)" + "%26BBB(3%2C4)" + "%26CCC(5%2C6)", "%26DDD");
  }

  lemma AllNameHasNoSpace()
    ensures forall k :: 0 <= k < |AllName()| ==> !IsJsWhitespace(AllName()[k])
  {
    var s := AllName();
    forall k | 0 <= k < |s| ensures !IsJsWhitespace(s[k]) {
      assert s[k] in "AAA(1,2)&BBB(3,4)&CCC(5,6)&DDD";
    }
  }

  /** `AAA(1%2C2)%26BBB(3%2C4)%26CCC(5%2C6)%26DDD(7,8)`. */
  function AllExpected(): string {
    "AAA(1%2C2)%26BBB(3%2C4)" + "%26CCC(5%2C6)%26DDD(7,8)"
  }

  /** A scalar is encoded from the name and argument list `getNameArgs` splits it into. */
  lemma EncodeScalarOfSplit(raw: string, na: NameArgs)
    requires GetNameArgs(raw) == na
    ensures EncodeScalar(raw) == EncodeURIComponent(na.name) + na.argList
  {
  }

  /** `getNameArgs` splits the top-level value before its last `(7,8)`. */
  lemma AllSplit()
    ensures GetNameArgs(AllRaw()) == NameArgs(AllName(), "(" + "7,8" + ")")
  {
    AllRawPieces();
    AllNameHasNoSpace();
    NameArgsOfCall(AllName(), "7,8");
  }

  /** At the top level only the last `(7,8)` counts as an argument list. */
  lemma ScalarAll()
    ensures EncodeScalar(AllRaw()) == AllExpected()
  {
    AllSplit();
    EncodeScalarOfSplit(AllRaw(), NameArgs(AllName(), "(" + "7,8" + ")"));
    EncodeAllName();
  }

  lemma AllValue(o: ExpansionOptions)
    requires Options(o, AllVars(), 2, false)
    ensures ExpandVariable("all", o) == AllExpected()
  {
    NameArgsWithoutClose("all");
    AllNested(Nested(o));
    ExpandBoundString("all", "all", "", o, AllRaw());
    ScalarAll();
    RenderEncoded(AllRaw(), "", AllExpected());
  }

  /**
   * Argument lists passed inside a binding: the inner commas are encoded and only the last
   * call keeps its plain argument list.
   */
  lemma ExpandPassedArguments(o: ExpansionOptions)
    requires o == NewExpansionOptions(AllVars(), None, false)
    ensures ExpandTemplateSync("${all}", o) == AllExpected()
  {
    AllValue(o);
    ExpandReferenceAll(o);
  }

  // ---------------------------------------------------------------------------------------
  // Frozen variables

  function FreezeOptions(): ExpansionOptions {
    FreezeVar(NewExpansionOptions(map["fooParam" := Str("QUERY_PARAM"), "freeze" := Str("error")], None, false), "freeze")
  }

  lemma FreezePieces()
    ensures "fooParam(foo,bar)" == "fooParam" + "(" + "foo,bar" + ")"
    ensures "${" + "freeze" + "}" == "${freeze}"
  {
  }

  lemma FreezeResultPieces()
    ensures "" + ("QUERY_PARAM" + "(foo,bar)") + ("" + "" + ("" + "${freeze}" + "")) == "QUERY_PARAM(foo,bar)${freeze}"
  {
    assert "" + "" + ("" + "${freeze}" + "") == "${freeze}";
    assert "" + ("QUERY_PARAM" + "(foo,bar)") == "QUERY_PARAM(foo,bar)";
  }

  lemma FooParamIsName()
    ensures forall k :: 0 <= k < |"fooParam"| ==> !IsJsWhitespace("fooParam"[k])
  {
  }

  lemma FreezeValueFooParam(o: ExpansionOptions)
    requires o == FreezeOptions()
    ensures ExpandVariable("fooParam(foo,bar)", o) == "QUERY_PARAM" + "(foo,bar)"
  {
    FreezePieces();
    FooParamIsName();
    NameArgsOfCall("fooParam", "foo,bar");
    ExpandWithoutReferences("QUERY_PARAM", Nested(o));
    ExpandBoundString("fooParam(foo,bar)", "fooParam", "(foo,bar)", o, "QUERY_PARAM");
    NameArgsWithoutClose("QUERY_PARAM");
    EncodeQueryParam();
    RenderEncoded("QUERY_PARAM", "(foo,bar)", "QUERY_PARAM");
  }

  lemma FreezeValueOthers(o: ExpansionOptions)
    requires o == FreezeOptions()
    ensures ExpandVariable("nonfreeze", o) == ""
    ensures ExpandVariable("freeze", o) == "${freeze}"
  {
    FreezePieces();
    NameArgsWithoutClose("nonfreeze");
    NameArgsWithoutClose("freeze");
  }

  /** A frozen name stays a literal reference while the other references are expanded. */
  lemma ExpandRespectsFreeze(o: ExpansionOptions)
    requires o == FreezeOptions()
    ensures ExpandTemplateSync("${fooParam(foo,bar)}${nonfreeze}${freeze}", o) == "QUERY_PARAM(foo,bar)${freeze}"
  {
    FreezeTemplate(o);
    FreezeValueFooParam(o);
    FreezeValueOthers(o);
    FreezeResultPieces();
  }

  lemma FreezeTemplateHead()
    ensures "${fooParam(foo,bar)}${nonfreeze}${freeze}" == "" + "${" + "fooParam(foo,bar)" + "}" + "${nonfreeze}${freeze}"
  {
  }

  lemma FreezeTemplateTail()
    ensures "${nonfreeze}${freeze}" == "" + "${" + "nonfreeze" + "}" + "${freeze}"
    ensures "${freeze}" == "" + "${" + "freeze" + "}" + ""
  {
  }

  lemma FreezeKeysAreClosed()
    ensures '}' !in "fooParam(foo,bar)" && '}' !in "nonfreeze" && '}' !in "freeze"
  {
  }

  lemma FreezeTemplate(o: ExpansionOptions)
    ensures ExpandTemplateSync("${fooParam(foo,bar)}${nonfreeze}${freeze}", o) ==
      "" + ExpandVariable("fooParam(foo,bar)", o) + ("" + ExpandVariable("nonfreeze", o) +
      ("" + ExpandVariable("freeze", o) + ""))
  {
    FreezeTemplateHead();
    FreezeTemplateTail();
    FreezeKeysAreClosed();
    ExpandThree("${fooParam(foo,bar)}${nonfreeze}${freeze}", "", "fooParam(foo,bar)",
      "${nonfreeze}${freeze}", "", "nonfreeze", "${freeze}", "", "freeze", "", o);
    ExpandWithoutReferences("", o);
  }

  // ---------------------------------------------------------------------------------------
  // Cyclic bindings

  /** `1` refers to `2`, `2` to `3`, `3` to `4` and `4` back to `1`. */
  function RecVars(): map<string, Value> {
    map["1" := Str("1${2}"), "2" := Str("2${3}"), "3" := Str("3${4}"), "4" := Str("4${1}")]
  }

  /** A one-character name bound to itself followed by `${next}`, read without encoding. */
  lemma RecLink(o: ExpansionOptions, key: string, next: string, tail: string)
    requires o.iterations >= 0 && o.noEncode && |key| == 1 && key != ")" && next != "" && '}' !in next
    requires key !in o.freezeVars && key in o.vars && o.vars[key] == Str(key + "${" + next + "}")
    requires ExpandVariable(next, Nested(o)) == tail
    ensures ExpandVariable(key, o) == key + tail
  {
    var n := Nested(o);
    ExpandStep(key + "${" + next + "}", key, next, "", n);
    ExpandWithoutReferences("", n);
    assert key + "${" + next + "}" + "" == key + "${" + next + "}";
    NameArgsWithoutClose(key);
    ExpandBoundString(key, key, "", o, key + tail + "");
    RenderRaw(key + tail + "", "");
    assert key + tail + "" + "" == key + tail;
  }

  /** On the last pass a bound string comes back verbatim, its references included. */
  lemma RecLast(o: ExpansionOptions, key: string)
    requires o.iterations == 0 && o.noEncode && key != "" && key[|key| - 1] != ')'
    requires key !in o.freezeVars && key in o.vars && o.vars[key].Str? && o.vars[key].s != ""
    ensures ExpandVariable(key, o) == o.vars[key].s
  {
    NameArgsWithoutClose(key);
    ExpandBoundString(key, key, "", o, o.vars[key].s);
    RenderRaw(o.vars[key].s, "");
    assert o.vars[key].s + "" == o.vars[key].s;
  }

  /** A reference to a plain name whose bound string expands to `raw` is encoded once. */
  lemma RecTop(o: ExpansionOptions, key: string, raw: string, encoded: string)
    requires o.iterations >= 0 && !o.noEncode && key != "" && key[|key| - 1] != ')'
    requires key !in o.freezeVars && key in o.vars && o.vars[key].Str?
    requires ExpandTemplateSync(o.vars[key].s, Nested(o)) == raw
    requires raw != "" && raw[|raw| - 1] != ')' && EncodeURIComponent(raw) == encoded
    ensures ExpandVariable(key, o) == encoded
  {
    NameArgsWithoutClose(key);
    ExpandBoundString(key, key, "", o, raw);
    NameArgsWithoutClose(raw);
    RenderPlainString(raw, false);
  }

  /** The recursive bindings, each cut around its one reference. */
  lemma RecPieces()
    ensures "1${2}" == "1" + "${" + "2" + "}" && "2${3}" == "2" + "${" + "3" + "}"
    ensures "3${4}" == "3" + "${" + "4" + "}" && "4${1}" == "4" + "${" + "1" + "}"
    ensures "${1}" == "" + "${" + "1" + "}" + ""
  {
  }

  lemma RecFivePieces()
    ensures "123412" + "%24%7B3%7D" == "123412%24%7B3%7D"
  {
  }

  /** The unencoded result at depth 5, `123412${3}`. */
  function RecFiveText(): string {
    "123412" + "${3}"
  }

  lemma RecFiveRaw()
    ensures "1" + ("2" + ("3" + ("4" + ("1" + "2${3}")))) == RecFiveText()
  {
  }

  lemma EncodeRecFive()
    ensures EncodeURIComponent(RecFiveText()) == "123412%24%7B3%7D"
  {
    RecFivePieces();
    EncodeConcat("123412", "${3}");
    EncodeUnreservedIsIdentity("123412");
    EncodeRecFiveTail();
  }

  /** At the default depth the cycle `1 → 2 → 3` stops after two nested passes. */
  lemma RecDefaultValue(o: ExpansionOptions)
    requires Options(o, RecVars(), 2, false)
    ensures ExpandTemplateSync("1${2}", Nested(o)) == "1" + ("2" + "3${4}")
  {
    var n1 := Nested(o);
    var n2 := Nested(n1);
    RecPieces();
    RecLast(n2, "3");
    RecLink(n1, "2", "3", "3${4}");
    ExpandStep("1${2}", "1", "2", "", n1);
    ExpandWithoutReferences("", n1);
    assert "1" + ExpandVariable("2", n1) + "" == "1" + ("2" + "3${4}");
  }

  /** A cyclic binding terminates: at the default depth `${1}` leaves `${4}` unexpanded (and encoded). */
  lemma ExpandRecursiveDefault(o: ExpansionOptions)
    requires o == NewExpansionOptions(RecVars(), None, false)
    ensures ExpandTemplateSync("${1}", o) == "123%24%7B4%7D"
  {
    RecDefaultTop(o);
    ExpandReferenceOne(o);
  }

  lemma RecDefaultTop(o: ExpansionOptions)
    requires Options(o, RecVars(), 2, false)
    ensures ExpandVariable("1", o) == "123%24%7B4%7D"
  {
    RecDefaultValue(o);
    assert "1" + ("2" + "3${4}") == "123${4}";
    EncodeRecDefault();
    RecTop(o, "1", "123${4}", "123%24%7B4%7D");
  }

  lemma RecFiveTail(o: ExpansionOptions)
    requires Options(o, RecVars(), 5, false)
    ensures ExpandVariable("4", Nested(Nested(Nested(o)))) == "4" + ("1" + "2${3}")
  {
    var n3 := Nested(Nested(Nested(o)));
    var n4 := Nested(n3);
    RecPieces();
    RecLast(Nested(n4), "2");
    RecLink(n4, "1", "2", "2${3}");
    RecLink(n3, "4", "1", "1" + "2${3}");
  }

  lemma RecFiveMiddle(o: ExpansionOptions)
    requires Options(o, RecVars(), 5, false)
    ensures ExpandVariable("2", Nested(o)) == "2" + ("3" + ("4" + ("1" + "2${3}")))
  {
    var n2 := Nested(Nested(o));
    RecPieces();
    RecFiveTail(o);
    RecLink(n2, "3", "4", "4" + ("1" + "2${3}"));
    RecLink(Nested(o), "2", "3", "3" + ("4" + ("1" + "2${3}")));
  }

  lemma RecFiveValue(o: ExpansionOptions)
    requires Options(o, RecVars(), 5, false)
    ensures ExpandTemplateSync("1${2}", Nested(o)) == "1" + ("2" + ("3" + ("4" + ("1" + "2${3}"))))
  {
    var n1 := Nested(o);
    RecPieces();
    RecFiveMiddle(o);
    ExpandStep("1${2}", "1", "2", "", n1);
    ExpandWithoutReferences("", n1);
    assert "1" + ExpandVariable("2", n1) + "" == "1" + ExpandVariable("2", n1);
  }

  /** With five passes the cycle is followed once round and stops at `${3}`. */
  lemma ExpandRecursiveFive(o: ExpansionOptions)
    requires o == NewExpansionOptions(RecVars(), Some(5), false)
    ensures ExpandTemplateSync("${1}", o) == "123412%24%7B3%7D"
  {
    RecFiveTop(o);
    ExpandReferenceOne(o);
  }

  lemma RecFiveTop(o: ExpansionOptions)
    requires Options(o, RecVars(), 5, false)
    ensures ExpandVariable("1", o) == "123412%24%7B3%7D"
  {
    RecFiveExpanded(o);
    EncodeRecFive();
    RecTop(o, "1", RecFiveText(), "123412%24%7B3%7D");
  }

  lemma RecFiveExpanded(o: ExpansionOptions)
    requires Options(o, RecVars(), 5, false)
    ensures o.vars["1"].Str? && ExpandTemplateSync(o.vars["1"].s, Nested(o)) == RecFiveText()
    ensures RecFiveText() != "" && RecFiveText()[|RecFiveText()| - 1] != ')'
  {
    RecFiveValue(o);
    RecFiveRaw();
  }

  // ---------------------------------------------------------------------------------------
  // getNameArgs

  /** Keys that are not `identifier(args)` are all name, with an empty argument list. */
  lemma NameArgsWholeName()
    ensures GetNameArgs("abc") == NameArgs("abc", "")
    ensures GetNameArgs("client id") == NameArgs("client id", "")
    ensures GetNameArgs("client id\nand something") == NameArgs("client id\nand something", "")
  {
    NameArgsWithoutClose("abc");
    NameArgsWithoutClose("client id");
    NameArgsWithoutClose("client id\nand something");
  }

  /** A call whose name contains white space is all name. */
  lemma NameArgsSpacedCall()
    ensures GetNameArgs("client id()") == NameArgs("client id()", "")
    ensures GetNameArgs("client id (abc)") == NameArgs("client id (abc)", "")
    ensures GetNameArgs("client id\nclientId()") == NameArgs("client id\nclientId()", "")
  {
    NameArgsAfterWhitespace("client id()", 6);
    NameArgsAfterWhitespace("client id (abc)", 6);
    NameArgsAfterWhitespace("client id\nclientId()", 6);
  }

  lemma ClientIdIsName()
    ensures forall k :: 0 <= k < |"clientId"| ==> !IsJsWhitespace("clientId"[k])
  {
  }

  lemma ClientIdPieces()
    ensures "clientId()" == "clientId" + "(" + "" + ")"
    ensures "clientId(abc)" == "clientId" + "(" + "abc" + ")"
    ensures "clientId(abc,def)" == "clientId" + "(" + "abc,def" + ")"
    ensures "clientId(abc, def)" == "clientId" + "(" + "abc, def" + ")"
  {
  }

  /** `identifier(args)` splits into the identifier and the parenthesised arguments. */
  lemma NameArgsCalls()
    ensures GetNameArgs("clientId()") == NameArgs("clientId", "()")
    ensures GetNameArgs("clientId(abc)") == NameArgs("clientId", "(abc)")
    ensures GetNameArgs("clientId(abc,def)") == NameArgs("clientId", "(abc,def)")
    ensures GetNameArgs("clientId(abc, def)") == NameArgs("clientId", "(abc, def)")
  {
    ClientIdIsName();
    ClientIdPieces();
    NameArgsOfCall("clientId", "");
    NameArgsOfCall("clientId", "abc");
    NameArgsOfCall("clientId", "abc,def");
    NameArgsOfCall("clientId", "abc, def");
  }
}
