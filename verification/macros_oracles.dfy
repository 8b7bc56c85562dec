/**
 * The documented results of the string macros, derived from the model in `Macros`. The
 * URL expansion that calls a macro percent-encodes its result; where that encoding changes
 * the text, the example is stated with `EncodeURIComponent` around the macro.
 */
module MacrosOracles {
  import opened Wrappers
  import opened JsText
  import opened UriComponent
  import opened Macros

  /** `DEFAULT` with an empty first argument, given directly or as `TRIM()`, gives the fallback. */
  lemma DefaultWithoutFirst()
    ensures Default("", "two") == "two"
    ensures Default(Trim(""), "two") == "two"
  {
  }

  lemma SubstrHello()
    ensures Substr("Hello world!", 1, Some(4)) == "ello"
  {
  }

  lemma NumberText()
    ensures IntToString(123456) == "123456"
  {
    assert NatToString(1) == "1";
    assert NatToString(12) == "12";
    assert NatToString(123) == "123";
    assert NatToString(1234) == "1234";
    assert NatToString(12345) == "12345";
    assert NatToString(123456) == "123456";
  }

  /** A number is turned into its decimal text before `SUBSTR` applies. */
  lemma SubstrNumber()
    ensures Substr(IntToString(123456), 2, Some(5)) == "3456"
  {
    NumberText();
  }

  lemma TrimHello()
    ensures Trim("hello      ") == "hello"
  {
    assert TrimStart("hello      ") == "hello      ";
    assert "hello      " == "hello" + "      ";
    assert AllSpace("      ");
    TrimEndDropsSpace("hello", "      ");
  }

  lemma EncodeSpaced(a: string, b: string, ea: string, eb: string)
    requires EncodeURIComponent(a) == ea && EncodeURIComponent(b) == eb
    ensures EncodeURIComponent(a + " " + b) == ea + "%20" + eb
  {
    EncodeConcat(a + " ", b);
    EncodeConcat(a, " ");
  }

  lemma LowerWords()
    ensures ToLower("HeLLO") == "hello" && ToLower(" ") == " " && ToLower("WOrld!") == "world!"
  {
    ToLowerSpec("HeLLO");
    ToLowerSpec(" ");
    ToLowerSpec("WOrld!");
  }

  lemma LowerText()
    ensures ToLower("HeLLO WOrld!") == "hello" + " " + "world!"
  {
    assert "HeLLO WOrld!" == "HeLLO" + " " + "WOrld!";
    ToLowerConcat("HeLLO" + " ", "WOrld!");
    ToLowerConcat("HeLLO", " ");
    LowerWords();
  }

  lemma UpperWords()
    ensures ToUpper("HeLLO") == "HELLO" && ToUpper(" ") == " " && ToUpper("WOrld!") == "WORLD!"
  {
    ToUpperSpec("HeLLO");
    ToUpperSpec(" ");
    ToUpperSpec("WOrld!");
  }

  lemma UpperText()
    ensures ToUpper("HeLLO WOrld!") == "HELLO" + " " + "WORLD!"
  {
    assert "HeLLO WOrld!" == "HeLLO" + " " + "WOrld!";
    ToUpperConcat("HeLLO" + " ", "WOrld!");
    ToUpperConcat("HeLLO", " ");
    UpperWords();
  }

  lemma EncodeLowerWords()
    ensures EncodeURIComponent("hello") == "hello" && EncodeURIComponent("world!") == "world!"
  {
    EncodeUnreservedIsIdentity("hello");
    EncodeUnreservedIsIdentity("world!");
  }

  lemma EncodeUpperWords()
    ensures EncodeURIComponent("HELLO") == "HELLO" && EncodeURIComponent("WORLD!") == "WORLD!"
  {
    EncodeUnreservedIsIdentity("HELLO");
    EncodeUnreservedIsIdentity("WORLD!");
  }

  lemma CasePieces()
    ensures "hello" + "%20" + "world!" == "hello%20world!"
    ensures "HELLO" + "%20" + "WORLD!" == "HELLO%20WORLD!"
  {
  }

  /** `TOLOWERCASE` lower-cases the letters; the space is then encoded. */
  lemma LowerCaseEncoded()
    ensures EncodeURIComponent(ToLower("HeLLO WOrld!")) == "hello%20world!"
  {
    LowerText();
    EncodeLowerWords();
    EncodeSpaced("hello", "world!", "hello", "world!");
    CasePieces();
  }

  /** `TOUPPERCASE` upper-cases the letters; the space is then encoded. */
  lemma UpperCaseEncoded()
    ensures EncodeURIComponent(ToUpper("HeLLO WOrld!")) == "HELLO%20WORLD!"
  {
    UpperText();
    EncodeUpperWords();
    EncodeSpaced("HELLO", "WORLD!", "HELLO", "WORLD!");
    CasePieces();
  }

  lemma NotExamples()
    ensures Not("hello") == "false"
    ensures Not("") == "true"
  {
  }

  /** `IF` takes `true` and any other word as true, and `false`, empty, `null`, `undefined` as false. */
  lemma IfExamples()
    ensures If("true", "truthy", "falsey") == "truthy"
    ensures If("test", "truthy", "falsey") == "truthy"
    ensures If("false", "truthy", "falsey") == "falsey"
    ensures If("", "truthy", "falsey") == "falsey"
    ensures If("null", "truthy", "falsey") == "falsey"
    ensures If("undefined", "truthy", "falsey") == "falsey"
  {
  }

  lemma EqualsExamples()
    ensures Equals("testValue", "testValue") == "true"
    ensures Equals("testValue", "otherValue") == "false"
    ensures If(Equals("A", "A"), "truthy", "falsey") == "truthy"
    ensures If(Equals("A", "B"), "truthy", "falsey") == "falsey"
  {
  }

  /** Macros chain: `SUBSTR` without a length runs to the end, and its result can be upper-cased. */
  lemma ChainingExamples()
    ensures Substr("Hello world!", 6, None) == "world!"
    ensures ToUpper(Substr("Hello world!", 6, None)) == "WORLD!"
  {
    assert Substr("Hello world!", 6, None) == "world!";
  }
}
