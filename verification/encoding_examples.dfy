/**
 * Concrete results of `encodeURIComponent` on the short texts the documented examples use.
 * Each text is split into runs of unreserved characters, which are kept, and single
 * reserved ASCII characters, each of which becomes one `%XY` escape; the runs and escapes
 * are then put back together with `EncodeConcat`.
 */
module EncodingExamples {
  import opened UriComponent

  /** A reserved ASCII character is written as one `%XY` escape of its code. */
  lemma EscapedAscii(c: char)
    requires c as int < 0x80 && !IsUnreserved(c)
    ensures EncodeURIComponent([c]) == ['%', HexDigit(c as int / 16), HexDigit(c as int % 16)]
  {
    assert [c][1..] == [];
    assert Utf8(c) == [c as int];
    assert EscapeBytes([c as int]) == Escape(c as int) + EscapeBytes([]);
  }

  lemma EncodeSpace() ensures EncodeURIComponent(" ") == "%20" { EscapedAscii(' '); }
  lemma EncodeDollar() ensures EncodeURIComponent("$") == "%24" { EscapedAscii('$'); }
  lemma EncodePercent() ensures EncodeURIComponent("%") == "%25" { EscapedAscii('%'); }
  lemma EncodeAmpersand() ensures EncodeURIComponent("&") == "%26" { EscapedAscii('&'); }
  lemma EncodePlus() ensures EncodeURIComponent("+") == "%2B" { EscapedAscii('+'); }
  lemma EncodeComma() ensures EncodeURIComponent(",") == "%2C" { EscapedAscii(','); }
  lemma EncodeSlash() ensures EncodeURIComponent("/") == "%2F" { EscapedAscii('/'); }
  lemma EncodeColon() ensures EncodeURIComponent(":") == "%3A" { EscapedAscii(':'); }
  lemma EncodeEquals() ensures EncodeURIComponent("=") == "%3D" { EscapedAscii('='); }
  lemma EncodeQuestion() ensures EncodeURIComponent("?") == "%3F" { EscapedAscii('?'); }
  lemma EncodeOpenBrace() ensures EncodeURIComponent("{") == "%7B" { EscapedAscii('{'); }
  lemma EncodeCloseBrace() ensures EncodeURIComponent("}") == "%7D" { EscapedAscii('}'); }

  /** Two chunks encoded separately give the encoding of their concatenation. */
  lemma EncodeTwo(a: string, b: string, ea: string, eb: string)
    requires EncodeURIComponent(a) == ea && EncodeURIComponent(b) == eb
    ensures EncodeURIComponent(a + b) == ea + eb
  {
    EncodeConcat(a, b);
  }

  /** One escaped character followed by unreserved text. */
  lemma EscapeThenKeep(c: char, t: string, ec: string)
    requires EncodeURIComponent([c]) == ec
    requires forall k :: 0 <= k < |t| ==> IsUnreserved(t[k])
    ensures EncodeURIComponent([c] + t) == ec + t
  {
    EncodeUnreservedIsIdentity(t);
    EncodeConcat([c], t);
  }

  /** Unreserved text followed by one escaped character. */
  lemma KeepThenEscape(t: string, c: char, ec: string)
    requires EncodeURIComponent([c]) == ec
    requires forall k :: 0 <= k < |t| ==> IsUnreserved(t[k])
    ensures EncodeURIComponent(t + [c]) == t + ec
  {
    EncodeUnreservedIsIdentity(t);
    EncodeConcat(t, [c]);
  }

  /** Three chunks encoded separately give the encoding of their concatenation. */
  lemma EncodeChunks(a: string, b: string, c: string, ea: string, eb: string, ec: string)
    requires EncodeURIComponent(a) == ea && EncodeURIComponent(b) == eb && EncodeURIComponent(c) == ec
    ensures EncodeURIComponent(a + b + c) == ea + eb + ec
  {
    EncodeConcat(a + b, c);
    EncodeConcat(a, b);
  }

  lemma EncodeReferenceOpening()
    ensures EncodeURIComponent("${") == "%24%7B"
  {
    EncodeDollar();
    EncodeOpenBrace();
    EncodeTwo("$", "{", "%24", "%7B");
    assert "$" + "{" == "${";
    assert "%24" + "%7B" == "%24%7B";
  }

  /** Two runs of unreserved text are kept as they are. */
  lemma KeepBoth(a: string, b: string)
    requires forall k :: 0 <= k < |a| ==> IsUnreserved(a[k])
    requires forall k :: 0 <= k < |b| ==> IsUnreserved(b[k])
    ensures EncodeURIComponent(a + b) == a + b
  {
    EncodeUnreservedIsIdentity(a);
    EncodeUnreservedIsIdentity(b);
    EncodeConcat(a, b);
  }

  /** `${x}` for a name `x` of unreserved characters: the three punctuation marks are escaped. */
  lemma EncodeReferenceText(name: string)
    requires forall k :: 0 <= k < |name| ==> IsUnreserved(name[k])
    ensures EncodeURIComponent("${" + name + "}") == "%24%7B" + name + "%7D"
  {
    EncodeReferenceOpening();
    EncodeCloseBrace();
    EncodeUnreservedIsIdentity(name);
    EncodeChunks("${", name, "}", "%24%7B", name, "%7D");
  }

  // ---------------------------------------------------------------------------------------
  // The texts of the documented examples

  lemma EncodeAmpersandInside()
    ensures EncodeURIComponent("xy&x") == "xy%26x"
  {
    assert "xy&x" == "xy" + "&" + "x";
    EncodeUnreservedIsIdentity("xy");
    EncodeUnreservedIsIdentity("x");
    EncodeAmpersand();
    EncodeChunks("xy", "&", "x", "xy", "%26", "x");
    assert "xy" + "%26" + "x" == "xy%26x";
  }

  lemma EncodeFooReference()
    ensures EncodeURIComponent("${foo}") == "%24%7Bfoo%7D"
  {
    assert "${foo}" == "${" + "foo" + "}";
    EncodeReferenceText("foo");
    assert "%24%7B" + "foo" + "%7D" == "%24%7Bfoo%7D";
  }

  lemma EncodePercentAmpersand()
    ensures EncodeURIComponent("%&") == "%25%26"
  {
    assert "%&" == "%" + "&";
    EncodePercent();
    EncodeAmpersand();
    EncodeTwo("%", "&", "%25", "%26");
    assert "%25" + "%26" == "%25%26";
  }

  lemma EncodeSpecialChars()
    ensures EncodeURIComponent("abc %&") == "abc%20%25%26"
  {
    assert "abc %&" == "abc" + " " + "%&";
    EncodeUnreservedIsIdentity("abc");
    EncodeSpace();
    EncodePercentAmpersand();
    EncodeChunks("abc", " ", "%&", "abc", "%20", "%25%26");
    assert "abc" + "%20" + "%25%26" == "abc%20%25%26";
  }

  lemma EncodeSpaceInside()
    ensures EncodeURIComponent("a b") == "a%20b"
  {
    assert "a b" == "a" + " " + "b";
    EncodeUnreservedIsIdentity("a");
    EncodeUnreservedIsIdentity("b");
    EncodeSpace();
    EncodeChunks("a", " ", "b", "a", "%20", "b");
    assert "a" + "%20" + "b" == "a%20b";
  }

  lemma EncodeSlashInside()
    ensures EncodeURIComponent("ab/c") == "ab%2Fc"
  {
    assert "ab/c" == "ab" + "/" + "c";
    EncodeUnreservedIsIdentity("ab");
    EncodeUnreservedIsIdentity("c");
    EncodeSlash();
    EncodeChunks("ab", "/", "c", "ab", "%2F", "c");
    assert "ab" + "%2F" + "c" == "ab%2Fc";
  }

  lemma EncodeUrlScheme()
    ensures EncodeURIComponent("https:") == "https%3A"
  {
    assert "https:" == "https" + ":";
    EncodeColon();
    KeepThenEscape("https", ':', "%3A");
    assert "https" + "%3A" == "https%3A";
  }

  lemma EncodeSlashHost()
    ensures EncodeURIComponent("/www.") == "%2Fwww."
  {
    assert "/www." == "/" + "www.";
    EncodeSlash();
    EscapeThenKeep('/', "www.", "%2F");
    assert "%2F" + "www." == "%2Fwww.";
  }

  lemma EncodeUrlSlashes()
    ensures EncodeURIComponent("//www.") == "%2F%2Fwww."
  {
    assert "//www." == "/" + "/www.";
    EncodeSlash();
    EncodeSlashHost();
    EncodeTwo("/", "/www.", "%2F", "%2Fwww.");
    assert "%2F" + "%2Fwww." == "%2F%2Fwww.";
  }

  lemma EncodeUrlHost()
    ensures EncodeURIComponent("google.com") == "google.com"
  {
    assert "google.com" == "google" + ".com";
    KeepBoth("google", ".com");
  }

  lemma EncodeSlashA()
    ensures EncodeURIComponent("/a") == "%2Fa"
  {
    assert "/a" == "/" + "a";
    EncodeSlash();
    EscapeThenKeep('/', "a", "%2F");
    assert "%2F" + "a" == "%2Fa";
  }

  lemma EncodeBEquals()
    ensures EncodeURIComponent("b=") == "b%3D"
  {
    assert "b=" == "b" + "=";
    EncodeEquals();
    KeepThenEscape("b", '=', "%3D");
    assert "b" + "%3D" == "b%3D";
  }

  lemma EncodeUrlPath()
    ensures EncodeURIComponent("/a?b=") == "%2Fa%3Fb%3D"
  {
    assert "/a?b=" == "/a" + "?" + "b=";
    EncodeSlashA();
    EncodeQuestion();
    EncodeBEquals();
    EncodeChunks("/a", "?", "b=", "%2Fa", "%3F", "b%3D");
    assert "%2Fa" + "%3F" + "b%3D" == "%2Fa%3Fb%3D";
  }

  lemma EncodeOneAmpersand()
    ensures EncodeURIComponent("1&") == "1%26"
  {
    assert "1&" == "1" + "&";
    EncodeAmpersand();
    KeepThenEscape("1", '&', "%26");
    assert "1" + "%26" == "1%26";
  }

  lemma EncodeEqualsTwo()
    ensures EncodeURIComponent("=2") == "%3D2"
  {
    assert "=2" == "=" + "2";
    EncodeEquals();
    EscapeThenKeep('=', "2", "%3D");
    assert "%3D" + "2" == "%3D2";
  }

  lemma EncodeUrlQuery()
    ensures EncodeURIComponent("1&c=2") == "1%26c%3D2"
  {
    assert "1&c=2" == "1&" + "c" + "=2";
    EncodeOneAmpersand();
    EncodeUnreservedIsIdentity("c");
    EncodeEqualsTwo();
    EncodeChunks("1&", "c", "=2", "1%26", "c", "%3D2");
    assert "1%26" + "c" + "%3D2" == "1%26c%3D2";
  }

  lemma EncodeCommaDef()
    ensures EncodeURIComponent(",def)") == "%2Cdef)"
  {
    assert ",def)" == "," + "def)";
    EncodeComma();
    EscapeThenKeep(',', "def)", "%2C");
    assert "%2C" + "def)" == "%2Cdef)";
  }

  lemma EncodeAmpersandDigits()
    ensures EncodeURIComponent("&123") == "%26123"
  {
    assert "&123" == "&" + "123";
    EncodeAmpersand();
    EscapeThenKeep('&', "123", "%26");
    assert "%26" + "123" == "%26123";
  }

  lemma EncodeHelloSlash()
    ensures EncodeURIComponent("HELLO/") == "HELLO%2F"
  {
    assert "HELLO/" == "HELLO" + "/";
    EncodeSlash();
    KeepThenEscape("HELLO", '/', "%2F");
    assert "HELLO" + "%2F" == "HELLO%2F";
  }

  lemma EncodeWorldPlus()
    ensures EncodeURIComponent("WORLD+") == "WORLD%2B"
  {
    assert "WORLD+" == "WORLD" + "+";
    EncodePlus();
    KeepThenEscape("WORLD", '+', "%2B");
    assert "WORLD" + "%2B" == "WORLD%2B";
  }

  lemma EncodeHelloPlus()
    ensures EncodeURIComponent("HELLO+") == "HELLO%2B"
  {
    assert "HELLO+" == "HELLO" + "+";
    EncodePlus();
    KeepThenEscape("HELLO", '+', "%2B");
    assert "HELLO" + "%2B" == "HELLO%2B";
  }

  lemma EncodeCommaTail()
    ensures EncodeURIComponent(",2))") == "%2C2))"
  {
    assert ",2))" == "," + "2))";
    EncodeComma();
    EscapeThenKeep(',', "2))", "%2C");
    assert "%2C" + "2))" == "%2C2))";
  }

  lemma EncodeCommaTwo()
    ensures EncodeURIComponent(",2)") == "%2C2)"
  {
    assert ",2)" == "," + "2)";
    EncodeComma();
    EscapeThenKeep(',', "2)", "%2C");
    assert "%2C" + "2)" == "%2C2)";
  }

  lemma EncodeCommaFour()
    ensures EncodeURIComponent(",4)") == "%2C4)"
  {
    assert ",4)" == "," + "4)";
    EncodeComma();
    EscapeThenKeep(',', "4)", "%2C");
    assert "%2C" + "4)" == "%2C4)";
  }

  lemma EncodeCommaSix()
    ensures EncodeURIComponent(",6)") == "%2C6)"
  {
    assert ",6)" == "," + "6)";
    EncodeComma();
    EscapeThenKeep(',', "6)", "%2C");
    assert "%2C" + "6)" == "%2C6)";
  }

  lemma EncodeAmpersandB()
    ensures EncodeURIComponent("&BBB(3") == "%26BBB(3"
  {
    assert "&BBB(3" == "&" + "BBB(3";
    EncodeAmpersand();
    EscapeThenKeep('&', "BBB(3", "%26");
    assert "%26" + "BBB(3" == "%26BBB(3";
  }

  lemma EncodeAmpersandC()
    ensures EncodeURIComponent("&CCC(5") == "%26CCC(5"
  {
    assert "&CCC(5" == "&" + "CCC(5";
    EncodeAmpersand();
    EscapeThenKeep('&', "CCC(5", "%26");
    assert "%26" + "CCC(5" == "%26CCC(5";
  }

  lemma EncodeAmpersandD()
    ensures EncodeURIComponent("&DDD") == "%26DDD"
  {
    assert "&DDD" == "&" + "DDD";
    EncodeAmpersand();
    EscapeThenKeep('&', "DDD", "%26");
    assert "%26" + "DDD" == "%26DDD";
  }

  lemma EncodeQueryParam()
    ensures EncodeURIComponent("QUERY_PARAM") == "QUERY_PARAM"
  {
    assert "QUERY_PARAM" == "QUERY" + "_PARAM";
    KeepBoth("QUERY", "_PARAM");
  }

  lemma EncodeFourReference()
    ensures EncodeURIComponent("${4}") == "%24%7B4%7D"
  {
    assert "${4}" == "${" + "4" + "}";
    EncodeReferenceText("4");
    assert "%24%7B" + "4" + "%7D" == "%24%7B4%7D";
  }

  lemma EncodeRecDefault()
    ensures EncodeURIComponent("123${4}") == "123%24%7B4%7D"
  {
    assert "123${4}" == "123" + "${4}";
    EncodeUnreservedIsIdentity("123");
    EncodeFourReference();
    EncodeTwo("123", "${4}", "123", "%24%7B4%7D");
    assert "123" + "%24%7B4%7D" == "123%24%7B4%7D";
  }

  lemma EncodeRecFiveTail()
    ensures EncodeURIComponent("${3}") == "%24%7B3%7D"
  {
    assert "${3}" == "${" + "3" + "}";
    EncodeReferenceText("3");
    assert "%24%7B" + "3" + "%7D" == "%24%7B3%7D";
  }

  lemma EncodeFirstCall()
    ensures EncodeURIComponent("AAA(1,2)") == "AAA(1%2C2)"
  {
    assert "AAA(1,2)" == "AAA(1" + ",2)";
    EncodeUnreservedIsIdentity("AAA(1");
    EncodeCommaTwo();
    EncodeTwo("AAA(1", ",2)", "AAA(1", "%2C2)");
    assert "AAA(1" + "%2C2)" == "AAA(1%2C2)";
  }

  lemma EncodeSecondCall()
    ensures EncodeURIComponent("&BBB(3,4)") == "%26BBB(3%2C4)"
  {
    assert "&BBB(3,4)" == "&BBB(3" + ",4)";
    EncodeAmpersandB();
    EncodeCommaFour();
    EncodeTwo("&BBB(3", ",4)", "%26BBB(3", "%2C4)");
    assert "%26BBB(3" + "%2C4)" == "%26BBB(3%2C4)";
  }

  lemma EncodeThirdCall()
    ensures EncodeURIComponent("&CCC(5,6)") == "%26CCC(5%2C6)"
  {
    assert "&CCC(5,6)" == "&CCC(5" + ",6)";
    EncodeAmpersandC();
    EncodeCommaSix();
    EncodeTwo("&CCC(5", ",6)", "%26CCC(5", "%2C6)");
    assert "%26CCC(5" + "%2C6)" == "%26CCC(5%2C6)";
  }
}
