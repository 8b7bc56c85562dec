/**
 * JavaScript's `encodeURIComponent`, which the analytics variable encoder applies to every
 * resolved value, and the matching strict decoder that undoes it.
 */
module UriComponent {
  import opened Wrappers

  /** A UTF-8 byte. */
  type Byte = b: int | 0 <= b < 256

  /** The characters `encodeURIComponent` leaves as they are: A-Z a-z 0-9 - _ . ! ~ * ' ( ) */
  predicate IsUnreserved(c: char) {
    ('A' <= c <= 'Z') || ('a' <= c <= 'z') || ('0' <= c <= '9') ||
    c == '-' || c == '_' || c == '.' || c == '!' || c == '~' || c == '*' ||
    c == '\'' || c == '(' || c == ')'
  }

  /** Upper-case hexadecimal digit, as `encodeURIComponent` writes them. */
  function HexDigit(d: int): (c: char)
    requires 0 <= d < 16
  {
    "0123456789ABCDEF"[d]
  }

  /** The value of a hexadecimal digit of either case. */
  function HexValue(c: char): (r: Option<int>)
    ensures r.Some? ==> 0 <= r.value < 16
  {
    if '0' <= c <= '9' then Some(c as int - '0' as int)
    else if 'A' <= c <= 'F' then Some(c as int - 'A' as int + 10)
    else if 'a' <= c <= 'f' then Some(c as int - 'a' as int + 10)
    else None
  }

  /** Every character `encodeURIComponent` can emit: an unreserved character, `%` or a hex digit. */
  predicate IsEncodedChar(c: char) {
    IsUnreserved(c) || c == '%'
  }

  /** The UTF-8 encoding of one Unicode scalar value. */
  function Utf8(c: char): (bs: seq<Byte>)
    ensures 1 <= |bs| <= 4
  {
    var n := c as int;
    if n < 0x80 then [n]
    else if n < 0x800 then [0xC0 + n / 64, 0x80 + n % 64]
    else if n < 0x10000 then
      var low := n % 4096;
      [0xE0 + n / 4096, 0x80 + low / 64, 0x80 + low % 64]
    else
      var mid := n % 262144;
      var low := mid % 4096;
      [0xF0 + n / 262144, 0x80 + mid / 4096, 0x80 + low / 64, 0x80 + low % 64]
  }

  /** `%XY` for one byte. */
  function Escape(b: Byte): (r: string)
    ensures |r| == 3 && r[0] == '%'
  {
    ['%', HexDigit(b / 16), HexDigit(b % 16)]
  }

  function EscapeBytes(bs: seq<Byte>): (r: string)
    ensures |r| == 3 * |bs|
  {
    if bs == [] then "" else Escape(bs[0]) + EscapeBytes(bs[1..])
  }

  /** The encoding of one character: itself when unreserved, else its escaped UTF-8 bytes. */
  function EncodeChar(c: char): (r: string)
  {
    if IsUnreserved(c) then [c] else EscapeBytes(Utf8(c))
  }

  /** `encodeURIComponent(s)`. */
  function EncodeURIComponent(s: string): (r: string)
  {
    if s == [] then "" else EncodeChar(s[0]) + EncodeURIComponent(s[1..])
  }

  /** The encoding holds only unreserved characters, `%` and hexadecimal digits. */
  lemma {:induction false} EncodedIsSafe(s: string)
    ensures forall k :: 0 <= k < |EncodeURIComponent(s)| ==>
      IsEncodedChar(EncodeURIComponent(s)[k]) || HexValue(EncodeURIComponent(s)[k]).Some?
  {
    if s != [] {
      EncodeCharIsSafe(s[0]);
      EncodedIsSafe(s[1..]);
    }
  }

  lemma EncodeCharIsSafe(c: char)
    ensures |EncodeChar(c)| >= 1
    ensures forall k :: 0 <= k < |EncodeChar(c)| ==>
      IsEncodedChar(EncodeChar(c)[k]) || HexValue(EncodeChar(c)[k]).Some?
  {
    if !IsUnreserved(c) {
      var bs := Utf8(c);
      EscapeBytesIsSafe(bs);
    }
  }

  lemma {:induction false} EscapeBytesIsSafe(bs: seq<Byte>)
    ensures forall k :: 0 <= k < |EscapeBytes(bs)| ==>
      EscapeBytes(bs)[k] == '%' || HexValue(EscapeBytes(bs)[k]).Some?
  {
    if bs != [] {
      EscapeBytesIsSafe(bs[1..]);
      var e := Escape(bs[0]);
      assert HexValue(e[1]).Some? && HexValue(e[2]).Some?;
    }
  }

  /** The byte written as `%XY` at the front of `s`, if there is one. */
  function ByteAt(s: string): (r: Option<Byte>)
  {
    if |s| >= 3 && s[0] == '%' && HexValue(s[1]).Some? && HexValue(s[2]).Some? then
      Some(16 * HexValue(s[1]).value + HexValue(s[2]).value)
    else None
  }

  /** A UTF-8 continuation byte `%XY` at the front of `s`: its six payload bits. */
  function ContinuationAt(s: string): (r: Option<int>)
    ensures r.Some? ==> 0 <= r.value < 64
  {
    match ByteAt(s)
    case Some(b) => if 0x80 <= b < 0xC0 then Some(b - 0x80) else None
    case None => None
  }

  predicate IsScalar(n: int) {
    (0 <= n < 0xD800) || (0xE000 <= n < 0x110000)
  }

  /** Decodes one escaped UTF-8 sequence at the front of `s`: the character and the text consumed. */
  function DecodeEscaped(s: string): (r: Option<(char, nat)>)
    ensures r.Some? ==> 3 <= r.value.1 <= |s|
  {
    match ByteAt(s)
    case None => None
    case Some(b0) =>
      if b0 < 0x80 then Some((b0 as char, 3))
      else if 0xC0 <= b0 < 0xE0 then
        match ContinuationAt(s[3..])
        case None => None
        case Some(c1) =>
          var n := (b0 - 0xC0) * 64 + c1;
          if 0x80 <= n then Some((n as char, 6)) else None
      else if 0xE0 <= b0 < 0xF0 then
        match ContinuationAt(s[3..])
        case None => None
        case Some(c1) =>
          match ContinuationAt(s[6..])
          case None => None
          case Some(c2) =>
            var n := (b0 - 0xE0) * 4096 + c1 * 64 + c2;
            if 0x800 <= n && IsScalar(n) then Some((n as char, 9)) else None
      else if 0xF0 <= b0 < 0xF8 then
        match ContinuationAt(s[3..])
        case None => None
        case Some(c1) =>
          match ContinuationAt(s[6..])
          case None => None
          case Some(c2) =>
            match ContinuationAt(s[9..])
            case None => None
            case Some(c3) =>
              var n := (b0 - 0xF0) * 262144 + c1 * 4096 + c2 * 64 + c3;
              if 0x10000 <= n && IsScalar(n) then Some((n as char, 12)) else None
      else None
  }

  /**
   * `decodeURIComponent(s)`; `None` where JavaScript throws `URIError`. Decoding never
   * lengthens the text.
   */
  function DecodeURIComponent(s: string): (r: Option<string>)
    ensures r.Some? ==> |r.value| <= |s|
    decreases |s|
  {
    if s == [] then Some("")
    else if s[0] != '%' then
      match DecodeURIComponent(s[1..])
      case None => None
      case Some(t) => Some([s[0]] + t)
    else
      match DecodeEscaped(s)
      case None => None
      case Some(p) =>
        match DecodeURIComponent(s[p.1..])
        case None => None
        case Some(t) => Some([p.0] + t)
  }

  lemma HexRoundTrip(d: int)
    requires 0 <= d < 16
    ensures HexValue(HexDigit(d)) == Some(d)
  {
  }

  lemma EscapeRoundTrip(b: Byte, s: string)
    requires |s| >= 3 && s[..3] == Escape(b)
    ensures ByteAt(s) == Some(b)
  {
    assert s[0] == '%' && s[1] == HexDigit(b / 16) && s[2] == HexDigit(b % 16);
    HexRoundTrip(b / 16);
    HexRoundTrip(b % 16);
  }

  lemma EscapeBytesFront(bs: seq<Byte>, rest: string)
    requires |bs| >= 1
    ensures (EscapeBytes(bs) + rest)[..3] == Escape(bs[0])
    ensures (EscapeBytes(bs) + rest)[3..] == EscapeBytes(bs[1..]) + rest
  {
    assert EscapeBytes(bs) + rest == Escape(bs[0]) + (EscapeBytes(bs[1..]) + rest);
  }

  /** The escaped UTF-8 form of a character decodes back to that character. */
  lemma DecodeEscapedChar(c: char, rest: string)
    ensures DecodeEscaped(EscapeBytes(Utf8(c)) + rest) == Some((c, 3 * |Utf8(c)|))
  {
    var n := c as int;
    if n < 0x80 {
      DecodeEscapedOneByte(c, rest);
    } else if n < 0x800 {
      DecodeEscapedTwoBytes(c, rest);
    } else if n < 0x10000 {
      DecodeEscapedThreeBytes(c, rest);
    } else {
      DecodeEscapedFourBytes(c, rest);
    }
  }

  lemma DecodeEscapedOneByte(c: char, rest: string)
    requires c as int < 0x80
    ensures DecodeEscaped(EscapeBytes(Utf8(c)) + rest) == Some((c, 3))
  {
    var bs := Utf8(c);
    var s := EscapeBytes(bs) + rest;
    EscapeBytesFront(bs, rest);
    EscapeRoundTrip(bs[0], s);
  }

  lemma DecodeEscapedTwoBytes(c: char, rest: string)
    requires 0x80 <= c as int < 0x800
    ensures DecodeEscaped(EscapeBytes(Utf8(c)) + rest) == Some((c, 6))
  {
    var bs := Utf8(c);
    var s := EscapeBytes(bs) + rest;
    EscapeBytesFront(bs, rest);
    EscapeRoundTrip(bs[0], s);
    EscapeBytesFront(bs[1..], rest);
    EscapeRoundTrip(bs[1], s[3..]);
    DecodeTwo(s, c as int);
  }

  lemma DecodeEscapedThreeBytes(c: char, rest: string)
    requires 0x800 <= c as int < 0x10000
    ensures DecodeEscaped(EscapeBytes(Utf8(c)) + rest) == Some((c, 9))
  {
    var n := c as int;
    var bs := Utf8(c);
    assert bs == [0xE0 + n / 4096, 0x80 + (n % 4096) / 64, 0x80 + (n % 4096) % 64];
    var s := EscapeBytes(bs) + rest;
    assert ByteAt(s) == Some(bs[0]) by {
      EscapeBytesFront(bs, rest);
      EscapeRoundTrip(bs[0], s);
    }
    assert ByteAt(s[3..]) == Some(bs[1]) && ByteAt(s[6..]) == Some(bs[2]) by {
      SecondAndThirdBytes(bs, rest);
    }
    DecodeThree(s, n);
  }

  lemma DecodeEscapedFourBytes(c: char, rest: string)
    requires 0x10000 <= c as int
    ensures DecodeEscaped(EscapeBytes(Utf8(c)) + rest) == Some((c, 12))
  {
    var n := c as int;
    var bs := Utf8(c);
    assert bs == [0xF0 + n / 262144, 0x80 + (n % 262144) / 4096,
                  0x80 + ((n % 262144) % 4096) / 64, 0x80 + ((n % 262144) % 4096) % 64];
    var s := EscapeBytes(bs) + rest;
    assert ByteAt(s) == Some(bs[0]) by {
      EscapeBytesFront(bs, rest);
      EscapeRoundTrip(bs[0], s);
    }
    assert ByteAt(s[3..]) == Some(bs[1]) && ByteAt(s[6..]) == Some(bs[2]) && ByteAt(s[9..]) == Some(bs[3]) by {
      SecondAndThirdBytes(bs, rest);
      EscapeBytesFront(bs[3..], rest);
      EscapeRoundTrip(bs[3], s[9..]);
    }
    DecodeFour(s, n);
  }

  lemma SecondAndThirdBytes(bs: seq<Byte>, rest: string)
    requires |bs| >= 3
    ensures ByteAt((EscapeBytes(bs) + rest)[3..]) == Some(bs[1])
    ensures ByteAt((EscapeBytes(bs) + rest)[6..]) == Some(bs[2])
    ensures (EscapeBytes(bs) + rest)[9..] == EscapeBytes(bs[3..]) + rest
  {
    var s := EscapeBytes(bs) + rest;
    EscapeBytesFront(bs, rest);
    EscapeBytesFront(bs[1..], rest);
    EscapeBytesFront(bs[2..], rest);
    assert s[3..][3..] == s[6..];
    assert s[6..][3..] == s[9..];
    EscapeRoundTrip(bs[1], s[3..]);
    EscapeRoundTrip(bs[2], s[6..]);
  }

  lemma DecodeTwo(s: string, n: int)
    requires 0x80 <= n < 0x800 && |s| >= 6
    requires ByteAt(s) == Some(0xC0 + n / 64)
    requires ByteAt(s[3..]) == Some(0x80 + n % 64)
    ensures DecodeEscaped(s) == Some((n as char, 6))
  {
    assert ContinuationAt(s[3..]) == Some(n % 64);
  }

  lemma DecodeThree(s: string, n: int)
    requires 0x800 <= n < 0x10000 && IsScalar(n) && |s| >= 9
    requires ByteAt(s) == Some(0xE0 + n / 4096)
    requires ByteAt(s[3..]) == Some(0x80 + (n % 4096) / 64)
    requires ByteAt(s[6..]) == Some(0x80 + (n % 4096) % 64)
    ensures DecodeEscaped(s) == Some((n as char, 9))
  {
    var low := n % 4096;
    assert ContinuationAt(s[3..]) == Some(low / 64);
    assert ContinuationAt(s[6..]) == Some(low % 64);
    assert n == (n / 4096) * 4096 + low;
    assert low == (low / 64) * 64 + low % 64;
  }

  lemma DecodeFour(s: string, n: int)
    requires 0x10000 <= n < 0x110000 && |s| >= 12
    requires ByteAt(s) == Some(0xF0 + n / 262144)
    requires ByteAt(s[3..]) == Some(0x80 + (n % 262144) / 4096)
    requires ByteAt(s[6..]) == Some(0x80 + ((n % 262144) % 4096) / 64)
    requires ByteAt(s[9..]) == Some(0x80 + ((n % 262144) % 4096) % 64)
    ensures DecodeEscaped(s) == Some((n as char, 12))
  {
    var mid := n % 262144;
    var low := mid % 4096;
    assert ContinuationAt(s[3..]) == Some(mid / 4096);
    assert ContinuationAt(s[6..]) == Some(low / 64);
    assert ContinuationAt(s[9..]) == Some(low % 64);
    assert n == (n / 262144) * 262144 + mid;
    assert mid == (mid / 4096) * 4096 + low;
    assert low == (low / 64) * 64 + low % 64;
  }

  /** Decoding the encoding of one character followed by `tail` yields that character first. */
  lemma DecodeEncodedChar(c: char, tail: string)
    ensures DecodeURIComponent(EncodeChar(c) + tail) ==
      match DecodeURIComponent(tail)
      case None => None
      case Some(t) => Some([c] + t)
  {
    var e := EncodeChar(c) + tail;
    if IsUnreserved(c) {
      assert e[0] == c && e[1..] == tail;
    } else {
      DecodeEscapedChar(c, tail);
      EscapeBytesFront(Utf8(c), tail);
      assert e[3 * |Utf8(c)|..] == tail;
    }
  }

  /** Decoding undoes `encodeURIComponent`: every value is recovered exactly. */
  lemma {:induction false} DecodeEncode(s: string)
    ensures DecodeURIComponent(EncodeURIComponent(s)) == Some(s)
  {
    if s != [] {
      DecodeEncode(s[1..]);
      DecodeEncodedChar(s[0], EncodeURIComponent(s[1..]));
      assert [s[0]] + s[1..] == s;
    }
  }

  /** Text made only of unreserved characters is left unchanged. */
  lemma {:induction false} EncodeUnreservedIsIdentity(s: string)
    requires forall k :: 0 <= k < |s| ==> IsUnreserved(s[k])
    ensures EncodeURIComponent(s) == s
  {
    if s != [] {
      EncodeUnreservedIsIdentity(s[1..]);
    }
  }

  /** Encoding distributes over concatenation: each character is encoded on its own. */
  lemma {:induction false} EncodeConcat(a: string, b: string)
    ensures EncodeURIComponent(a + b) == EncodeURIComponent(a) + EncodeURIComponent(b)
  {
    if a == [] {
      assert a + b == b;
    } else {
      assert (a + b)[0] == a[0] && (a + b)[1..] == a[1..] + b;
      EncodeConcat(a[1..], b);
    }
  }

  /** The encoding contains no plain comma, so a comma next to encoded values is a separator. */
  lemma EncodedHasNoComma(s: string)
    ensures ',' !in EncodeURIComponent(s)
  {
    var e := EncodeURIComponent(s);
    EncodedIsSafe(s);
    forall k | 0 <= k < |e|
      ensures e[k] != ','
    {
      assert IsEncodedChar(e[k]) || HexValue(e[k]).Some?;
    }
  }
}
