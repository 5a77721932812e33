/** `percent_encode` and `percent_decode` in `crates/ao2-cli/src/cli_util.rs`, on the UTF-8 bytes of the text. */
module PercentCoding {
  import opened Wrappers
  import opened FileTree
  import opened Utf8

  predicate Alphanumeric(b: byte) {
    0x30 <= b <= 0x39 || 0x41 <= b <= 0x5A || 0x61 <= b <= 0x7A
  }

  /** The unreserved characters of RFC 3986 section 2.3. */
  predicate Unreserved(b: byte) {
    Alphanumeric(b) || b == 0x2D || b == 0x5F || b == 0x2E || b == 0x7E
  }

  const PERCENT: byte := 0x25
  const PLUS: byte := 0x2B
  const SPACE: byte := 0x20

  /** Upper-case hex digit. */
  function HexDigit(n: int): char
    requires 0 <= n < 16
  {
    if n < 10 then (0x30 + n) as char else (0x41 + n - 10) as char
  }

  function HexValue(b: byte): (r: int)
    ensures -1 <= r < 16
  {
    if 0x30 <= b <= 0x39 then b as int - 0x30
    else if 0x41 <= b <= 0x46 then b as int - 0x41 + 10
    else if 0x61 <= b <= 0x66 then b as int - 0x61 + 10
    else -1
  }

  /** `u8::from_str_radix(_, 16)` on two bytes; it takes a leading plus sign. */
  function ParseHex(a: byte, b: byte): Option<byte> {
    if a == PLUS && HexValue(b) >= 0 then Some(HexValue(b) as byte)
    else if HexValue(a) >= 0 && HexValue(b) >= 0 then Some((HexValue(a) * 16 + HexValue(b)) as byte)
    else None
  }

  /** One byte, as it is or as a triple. */
  function EncodeByte(b: byte): (r: string)
    ensures forall i :: 0 <= i < |r| ==> r[i] < 128 as char
  {
    if Unreserved(b) then [b as int as char] else ['%', HexDigit(b as int / 16), HexDigit(b as int % 16)]
  }

  function PercentEncoded(bytes: seq<byte>): string {
    if bytes == [] then "" else EncodeByte(bytes[0]) + PercentEncoded(bytes[1..])
  }

  /** The bytes that the decoder collects; `None` where the slice behind a percent sign would cut a character
      in two, which panics. */
  function PercentDecoded(s: seq<byte>): Option<seq<byte>>
    decreases |s|
  {
    if s == [] then Some([])
    else if s[0] == PLUS then Prepend(SPACE, PercentDecoded(s[1..]))
    else if s[0] == PERCENT && |s| > 2 then
      if |s| > 3 && Continuation(s[3]) then None
      else match ParseHex(s[1], s[2])
        case Some(value) => Prepend(value, PercentDecoded(s[3..]))
        case None => Prepend(s[0], PercentDecoded(s[1..]))
    else Prepend(s[0], PercentDecoded(s[1..]))
  }

  function Prepend(b: byte, rest: Option<seq<byte>>): Option<seq<byte>> {
    match rest case None => None case Some(bytes) => Some([b] + bytes)
  }

  /** The text that is decoded, if decoding does not panic. */
  function DecodedText(input: string): Option<string> {
    match PercentDecoded(Encode(input)) case None => None case Some(bytes) => Some(DecodeLossy(bytes))
  }

  method PercentEncode(input: string) returns (output: string)
    ensures output == PercentEncoded(Encode(input))
  {
    hide EncodeByte;
    var bytes := Encode(input);
    output := "";
    for i := 0 to |bytes|
      invariant output + PercentEncoded(bytes[i..]) == PercentEncoded(bytes)
    {
      assert bytes[i..][0] == bytes[i] && bytes[i..][1..] == bytes[i + 1..];
      assert output + PercentEncoded(bytes[i..]) == output + EncodeByte(bytes[i]) + PercentEncoded(bytes[i + 1..]);
      output := output + EncodeByte(bytes[i]);
    }
  }

  function PrependAll(output: seq<byte>, rest: Option<seq<byte>>): Option<seq<byte>> {
    match rest case None => None case Some(bytes) => Some(output + bytes)
  }

  lemma PushOne(output: seq<byte>, b: byte, rest: Option<seq<byte>>)
    ensures PrependAll(output, Prepend(b, rest)) == PrependAll(output + [b], rest)
  {
    if rest.Some? {
      assert output + ([b] + rest.value) == (output + [b]) + rest.value;
    }
  }

  method PercentDecode(input: string) returns (r: Option<string>)
    ensures r == DecodedText(input)
  {
    hide ParseHex, DecodeLossy, Encode;
    var bytes := Encode(input);
    var output: seq<byte> := [];
    var index := 0;
    assert bytes[0..] == bytes;
    assert PercentDecoded(bytes).Some? ==> [] + PercentDecoded(bytes).value == PercentDecoded(bytes).value;
    while index < |bytes|
      invariant index <= |bytes|
      invariant PrependAll(output, PercentDecoded(bytes[index..])) == PercentDecoded(bytes)
    {
      var s := bytes[index..];
      assert s[1..] == bytes[index + 1..];
      if bytes[index] == PLUS {
        PushOne(output, SPACE, PercentDecoded(s[1..]));
        output := output + [SPACE];
        index := index + 1;
      } else if bytes[index] == PERCENT && index + 2 < |bytes| {
        if index + 3 < |bytes| && Continuation(bytes[index + 3]) {
          return None;
        }
        assert s[3..] == bytes[index + 3..];
        var value := ParseHex(bytes[index + 1], bytes[index + 2]);
        if value.Some? {
          PushOne(output, value.value, PercentDecoded(s[3..]));
          output := output + [value.value];
          index := index + 3;
        } else {
          PushOne(output, bytes[index], PercentDecoded(s[1..]));
          output := output + [bytes[index]];
          index := index + 1;
        }
      } else {
        PushOne(output, bytes[index], PercentDecoded(s[1..]));
        output := output + [bytes[index]];
        index := index + 1;
      }
    }
    assert bytes[index..] == [] && output + [] == output;
    return Some(DecodeLossy(output));
  }

  // The round trip.

  lemma HexOfByte(b: byte)
    ensures var high, low := HexDigit(b as int / 16), HexDigit(b as int % 16);
            high < 128 as char && low < 128 as char && ParseHex(high as int as byte, low as int as byte) == Some(b)
  {
    DigitValue(b as int / 16);
    DigitValue(b as int % 16);
    hide HexDigit, HexValue;
  }

  lemma DigitValue(n: int)
    requires 0 <= n < 16
    ensures HexDigit(n) < 128 as char && HexDigit(n) as int as byte != PLUS && HexValue(HexDigit(n) as int as byte) == n
  {}

  lemma {:induction false} AsciiBytes(text: string)
    requires forall i :: 0 <= i < |text| ==> text[i] < 128 as char
    ensures |Encode(text)| == |text| && forall i :: 0 <= i < |text| ==> Encode(text)[i] as int == text[i] as int
  {
    if text != "" {
      AsciiBytes(text[1..]);
    }
  }

  lemma EncodedByteDecodes(b: byte, rest: seq<byte>)
    requires rest != [] ==> rest[0] < 0x80
    ensures PercentDecoded(Encode(EncodeByte(b)) + rest) == Prepend(b, PercentDecoded(rest))
  {
    AsciiBytes(EncodeByte(b));
    HexOfByte(b);
    hide Encode, ParseHex;
    var s := Encode(EncodeByte(b)) + rest;
    if Unreserved(b) {
      assert s[0] == b && s[1..] == rest;
    } else {
      assert s[0] == PERCENT && s[3..] == rest;
    }
  }

  lemma EncodedStartsAscii(bytes: seq<byte>)
    ensures Encode(PercentEncoded(bytes)) != [] ==> Encode(PercentEncoded(bytes))[0] < 0x80
  {}

  lemma {:induction false} BytesRoundTrip(bytes: seq<byte>)
    ensures PercentDecoded(Encode(PercentEncoded(bytes))) == Some(bytes)
  {
    if bytes != [] {
      EncodedStartsAscii(bytes[1..]);
      EncodeConcat(EncodeByte(bytes[0]), PercentEncoded(bytes[1..]));
      EncodedByteDecodes(bytes[0], Encode(PercentEncoded(bytes[1..])));
      BytesRoundTrip(bytes[1..]);
      hide Encode, EncodeByte;
      assert bytes == [bytes[0]] + bytes[1..];
    }
  }

  /** Decoding an encoded text gives the text back, never panics, and never meets the plus sign that decoding
      turns into a blank. */
  lemma {:induction false} PercentRoundTrip(text: string)
    ensures DecodedText(PercentEncoded(Encode(text))) == Some(text)
    ensures forall i :: 0 <= i < |PercentEncoded(Encode(text))| ==>
              var c := PercentEncoded(Encode(text))[i]; c == '%' || (c < 128 as char && Unreserved(c as int as byte))
  {
    BytesRoundTrip(Encode(text));
    LossyDecodeEncode(text);
    EncodedAlphabet(Encode(text));
  }

  lemma {:induction false} EncodedAlphabet(bytes: seq<byte>)
    ensures forall i :: 0 <= i < |PercentEncoded(bytes)| ==>
              var c := PercentEncoded(bytes)[i]; c == '%' || (c < 128 as char && Unreserved(c as int as byte))
  {
    if bytes != [] {
      EncodedAlphabet(bytes[1..]);
      var e, rest := EncodeByte(bytes[0]), PercentEncoded(bytes[1..]);
      assert forall i :: 0 <= i < |e| ==> e[i] == '%' || (e[i] < 128 as char && Unreserved(e[i] as int as byte));
      hide EncodeByte, Unreserved;
      assert PercentEncoded(bytes) == e + rest;
      assert forall i :: |e| <= i < |e + rest| ==> (e + rest)[i] == rest[i - |e|];
    }
  }

  // Where decoding panics, and what it takes for a triple.

  /** The slice behind the percent sign at `i` ends inside a character. */
  predicate CutAt(s: seq<byte>, i: nat) {
    i + 3 < |s| && s[i] == PERCENT && Continuation(s[i + 3])
  }

  /** Decoding panics exactly when some percent sign has a continuation byte three bytes on; no sign is hidden
      inside another one's triple, since it is no hex digit. */
  lemma {:induction false} PanicsExactly(s: seq<byte>)
    ensures PercentDecoded(s).None? <==> exists i: nat :: CutAt(s, i)
    decreases |s|
  {
    if s != [] {
      if CutAt(s, 0) {
      } else if s[0] == PERCENT && |s| > 2 && ParseHex(s[1], s[2]).Some? {
        PanicsExactly(s[3..]);
        assert !CutAt(s, 1) && !CutAt(s, 2);
        CutLater(s, 3);
      } else {
        PanicsExactly(s[1..]);
        CutLater(s, 1);
      }
    }
  }

  lemma CutLater(s: seq<byte>, n: nat)
    requires n <= |s| && forall i: nat :: i < n ==> !CutAt(s, i)
    ensures (exists i: nat :: CutAt(s, i)) <==> exists i: nat :: CutAt(s[n..], i)
  {
    forall i: nat ensures CutAt(s[n..], i) <==> CutAt(s, n + i) {}
    if i: nat :| CutAt(s, i) {
      assert CutAt(s[n..], i - n);
    }
  }

  /** A percent sign in a text followed by a character of three bytes or more, or by one of one byte and then one
      of two bytes or more. */
  predicate CutsCharacter(text: string, k: nat) {
    && k + 1 < |text| && text[k] == '%'
    && (text[k + 1] >= 0x800 as char || (text[k + 1] < 0x80 as char && k + 2 < |text| && text[k + 2] >= 0x80 as char))
  }

  lemma CharBytes(c: char)
    ensures var e := EncodeChar(c);
            && (c < 0x80 as char <==> |e| == 1) && (c >= 0x800 as char <==> |e| >= 3)
            && !Continuation(e[0]) && (forall i :: 0 < i < |e| ==> Continuation(e[i]))
            && (c == '%' <==> e[0] == PERCENT) && (c == '%' ==> e == [PERCENT])
  {}

  lemma FirstChars(text: string)
    requires text != "" && text[0] == '%'
    ensures CutAt(Encode(text), 0) <==> CutsCharacter(text, 0)
  {
    var rest := text[1..];
    CharBytes('%');
    assert Encode(text) == [PERCENT] + Encode(rest);
    if rest != "" {
      CharBytes(rest[0]);
      assert Encode(rest) == EncodeChar(rest[0]) + Encode(rest[1..]);
      if |text| > 2 {
        CharBytes(text[2]);
        assert Encode(rest[1..]) == EncodeChar(text[2]) + Encode(text[3..]) by { assert rest[1..][1..] == text[3..]; }
        if |text| > 3 {
          CharBytes(text[3]);
          assert Encode(text[3..]) == EncodeChar(text[3]) + Encode(text[3..][1..]);
        }
      }
      hide Encode, EncodeChar;
    }
  }

  /** The condition on the text itself, which a caller can check. */
  lemma {:induction false} PanicsOnText(text: string)
    ensures DecodedText(text).None? <==> exists k: nat :: CutsCharacter(text, k)
  {
    PanicsExactly(Encode(text));
    CutsInText(text);
    hide *;
    DecodedTextNone(text);
  }

  lemma DecodedTextNone(text: string)
    ensures DecodedText(text).None? <==> PercentDecoded(Encode(text)).None?
  {}

  lemma {:induction false} CutsInText(text: string)
    ensures (exists i: nat :: CutAt(Encode(text), i)) <==> exists k: nat :: CutsCharacter(text, k)
  {
    if text != "" {
      var n := |EncodeChar(text[0])|;
      FirstCut(text);
      CutsInText(text[1..]);
      assert Encode(text)[n..] == Encode(text[1..]);
      TextLater(text);
      hide Encode, EncodeChar, CutAt, CutsCharacter;
      if !CutsCharacter(text, 0) { CutLater(Encode(text), n); }
    }
  }

  /** Inside the bytes of the first character there is no cut but the one behind its own percent sign. */
  lemma FirstCut(text: string)
    requires text != ""
    ensures CutAt(Encode(text), 0) <==> CutsCharacter(text, 0)
    ensures forall i: nat :: 0 < i < |EncodeChar(text[0])| ==> !CutAt(Encode(text), i)
  {
    var e := EncodeChar(text[0]);
    CharBytes(text[0]);
    assert Encode(text) == e + Encode(text[1..]);
    if text[0] == '%' { FirstChars(text); }
    hide Encode, EncodeChar;
  }

  lemma TextLater(text: string)
    requires text != ""
    ensures (exists k: nat :: CutsCharacter(text, k)) <==>
            CutsCharacter(text, 0) || exists k: nat :: CutsCharacter(text[1..], k)
  {
    forall k: nat ensures CutsCharacter(text[1..], k) <==> CutsCharacter(text, k + 1) {}
    if k: nat :| CutsCharacter(text, k) && k > 0 {
      assert CutsCharacter(text[1..], k - 1);
    }
  }

  /** HEXDIG of RFC 3986 section 2.1, with lower-case letters. */
  predicate IsHexDigit(b: byte) {
    0x30 <= b <= 0x39 || 0x41 <= b <= 0x46 || 0x61 <= b <= 0x66
  }

  /** What a triple stands for: two hex digits, or a plus sign and one hex digit, which RFC 3986 does not know. */
  function TripleValue(a: byte, b: byte): Option<int> {
    if IsHexDigit(a) && IsHexDigit(b) then Some(HexValue(a) * 16 + HexValue(b))
    else if a == PLUS && IsHexDigit(b) then Some(HexValue(b))
    else None
  }

  lemma HexDigits(b: byte)
    ensures IsHexDigit(b) <==> HexValue(b) >= 0
    ensures !IsHexDigit(PLUS)
  {}

  lemma HexPair(a: byte, b: byte)
    ensures match ParseHex(a, b)
            case Some(value) => TripleValue(a, b) == Some(value as int)
            case None => TripleValue(a, b).None?
  {
    HexDigits(a);
    HexDigits(b);
    hide IsHexDigit, HexValue;
  }

  /** A triple is decoded exactly when it stands for a byte; otherwise its percent sign stands for itself and
      reading goes on right behind the sign. */
  lemma TripleDecodes(a: byte, b: byte, rest: seq<byte>)
    requires rest != [] ==> !Continuation(rest[0])
    ensures match TripleValue(a, b)
            case Some(value) =>
              0 <= value < 256 && PercentDecoded([PERCENT, a, b] + rest) == Prepend(value as byte, PercentDecoded(rest))
            case None => PercentDecoded([PERCENT, a, b] + rest) == Prepend(PERCENT, PercentDecoded([a, b] + rest))
  {
    HexPair(a, b);
    hide ParseHex, TripleValue, Prepend;
    var s := [PERCENT, a, b] + rest;
    assert s[3..] == rest && s[1..] == [a, b] + rest;
  }

  /** A percent sign, a letter and an accented letter panic; a plus sign counts as the sign of the number. */
  lemma PanickingText()
    ensures DecodedText("%a\U{E9}") == None
    ensures PercentDecoded([PERCENT, PLUS, 0x35]) == Some([5])
  {
    assert CutsCharacter("%a\U{E9}", 0);
    PanicsOnText("%a\U{E9}");
    TripleDecodes(PLUS, 0x35, []);
    assert [PERCENT, PLUS, 0x35] + [] == [PERCENT, PLUS, 0x35] && [5 as byte] + [] == [5];
  }

  /** Letters, digits and the four marks stay as they are; every other byte becomes a triple of upper-case hex. */
  lemma EncodeTells(b: byte)
    ensures var c, e := b as int as char, EncodeByte(b);
            if 'a' <= c <= 'z' || 'A' <= c <= 'Z' || '0' <= c <= '9' || c == '-' || c == '_' || c == '.' || c == '~'
            then e == [c]
            else |e| == 3 && e[0] == '%' && UpperHex(e[1]) && UpperHex(e[2])
  {}

  predicate UpperHex(c: char) {
    '0' <= c <= '9' || 'A' <= c <= 'F'
  }
}
