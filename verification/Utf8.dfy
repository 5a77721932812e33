/** UTF-8 (RFC 3629 section 3), Python's decoder that ignores what is ill-formed, and Rust's that replaces it. */
module Utf8 {
  import opened Wrappers
  import opened FileTree

  predicate Continuation(b: byte) {
    0x80 <= b < 0xC0
  }

  function EncodeChar(c: char): (r: seq<byte>)
    ensures 1 <= |r| <= 4
  {
    var n := c as int;
    if n < 0x80 then [n as byte]
    else if n < 0x800 then [(0xC0 + n / 64) as byte, (0x80 + n % 64) as byte]
    else if n < 0x1_0000 then [(0xE0 + n / 4096) as byte, (0x80 + n / 64 % 64) as byte, (0x80 + n % 64) as byte]
    else [(0xF0 + n / 262144) as byte, (0x80 + n / 4096 % 64) as byte,
          (0x80 + n / 64 % 64) as byte, (0x80 + n % 64) as byte]
  }

  function Encode(text: string): seq<byte> {
    if text == "" then [] else EncodeChar(text[0]) + Encode(text[1..])
  }

  /** The code point of a well-formed sequence at the start, and its length: no overlong form, no surrogate,
      nothing above U+10FFFF. */
  function DecodeOne(s: seq<byte>): (r: Option<(char, nat)>)
    ensures r.Some? ==> 1 <= r.value.1 <= |s|
  {
    if s == [] then None
    else if s[0] < 0x80 then Some((s[0] as int as char, 1))
    else if |s| < 2 || !Continuation(s[1]) then None
    else if 0xC2 <= s[0] < 0xE0 then
      Some((((s[0] as int - 0xC0) * 64 + (s[1] as int - 0x80)) as char, 2))
    else if |s| < 3 || !Continuation(s[2]) then None
    else if 0xE0 <= s[0] < 0xF0 then
      var n := (s[0] as int - 0xE0) * 4096 + (s[1] as int - 0x80) * 64 + (s[2] as int - 0x80);
      if n < 0x800 || 0xD800 <= n < 0xE000 then None else Some((n as char, 3))
    else if |s| < 4 || !Continuation(s[3]) then None
    else if 0xF0 <= s[0] < 0xF5 then
      var n := (s[0] as int - 0xF0) * 262144 + (s[1] as int - 0x80) * 4096
               + (s[2] as int - 0x80) * 64 + (s[3] as int - 0x80);
      if n < 0x1_0000 || n > 0x10_FFFF then None else Some((n as char, 4))
    else None
  }

  /** `decode("utf-8", errors="ignore")`: bytes that start no well-formed sequence are dropped. */
  function DecodeIgnoring(s: seq<byte>): string
    decreases |s|
  {
    if s == [] then ""
    else match DecodeOne(s)
      case Some((c, n)) => [c] + DecodeIgnoring(s[n..])
      case None => DecodeIgnoring(s[1..])
  }

  const REPLACEMENT := '\U{FFFD}'

  /** Whether the second byte can go on after the first one of three or four. */
  predicate GoesOn(lead: byte, second: byte) {
    if lead == 0xE0 then 0xA0 <= second < 0xC0
    else if lead == 0xED then 0x80 <= second < 0xA0
    else if lead == 0xF0 then 0x90 <= second < 0xC0
    else if lead == 0xF4 then 0x80 <= second < 0x90
    else 0xE1 <= lead < 0xF4 && Continuation(second)
  }

  /** Length of the longest beginning of a well-formed sequence, where no whole one stands; at least one byte. */
  function BrokenRun(s: seq<byte>): (n: nat)
    requires s != []
    ensures 1 <= n <= |s|
  {
    if |s| < 2 || !GoesOn(s[0], s[1]) then 1
    else if s[0] >= 0xF0 && |s| >= 3 && Continuation(s[2]) then 3
    else 2
  }

  /** Rust's `String::from_utf8_lossy`: a replacement character for every broken run. */
  function DecodeLossy(s: seq<byte>): string
    decreases |s|
  {
    if s == [] then ""
    else match DecodeOne(s)
      case Some((c, n)) => [c] + DecodeLossy(s[n..])
      case None => [REPLACEMENT] + DecodeLossy(s[BrokenRun(s)..])
  }

  lemma DecodeTwo(s: seq<byte>, n: int)
    requires |s| >= 2 && 0x80 <= n < 0x800
    requires s[0] as int == 0xC0 + n / 64 && s[1] as int == 0x80 + n % 64
    ensures DecodeOne(s) == Some((n as char, 2))
  {}

  lemma DecodeThree(s: seq<byte>, n: int)
    requires |s| >= 3 && 0x800 <= n < 0x1_0000 && !(0xD800 <= n < 0xE000)
    requires s[0] as int == 0xE0 + n / 4096 && s[1] as int == 0x80 + n / 64 % 64 && s[2] as int == 0x80 + n % 64
    ensures DecodeOne(s) == Some((n as char, 3))
  {
    assert n == n / 4096 * 4096 + n / 64 % 64 * 64 + n % 64;
  }

  lemma DecodeFour(s: seq<byte>, n: int)
    requires |s| >= 4 && 0x1_0000 <= n < 0x11_0000
    requires s[0] as int == 0xF0 + n / 262144 && s[1] as int == 0x80 + n / 4096 % 64
    requires s[2] as int == 0x80 + n / 64 % 64 && s[3] as int == 0x80 + n % 64
    ensures DecodeOne(s) == Some((n as char, 4))
  {
    assert n == n / 262144 * 262144 + n / 4096 % 64 * 4096 + n / 64 % 64 * 64 + n % 64;
  }

  lemma CharDecodes(c: char, rest: seq<byte>)
    ensures DecodeOne(EncodeChar(c) + rest) == Some((c, |EncodeChar(c)|))
  {
    var e, n := EncodeChar(c), c as int;
    var s := e + rest;
    assert forall i :: 0 <= i < |e| ==> s[i] == e[i];
    if n < 0x80 {
      assert e == [n as byte];
    } else {
      hide DecodeOne;
      if n < 0x800 { DecodeTwo(s, n); } else if n < 0x1_0000 { DecodeThree(s, n); } else { DecodeFour(s, n); }
    }
  }

  lemma {:induction false} ContinuationsIgnored(s: seq<byte>)
    requires forall i :: 0 <= i < |s| ==> Continuation(s[i])
    ensures DecodeIgnoring(s) == ""
  {
    if s != [] {
      assert DecodeOne(s) == None;
      ContinuationsIgnored(s[1..]);
    }
  }

  /** A character cut short decodes to nothing. */
  lemma CutCharIgnored(c: char, k: nat)
    requires k < |EncodeChar(c)|
    ensures DecodeIgnoring(EncodeChar(c)[..k]) == ""
  {
    var e := EncodeChar(c);
    if k > 0 {
      assert forall i :: 1 <= i < |e| ==> Continuation(e[i]);
      assert DecodeOne(e[..k]) == None;
      ContinuationsIgnored(e[..k][1..]);
    }
  }

  lemma CharThenRest(c: char, rest: seq<byte>)
    ensures DecodeIgnoring(EncodeChar(c) + rest) == [c] + DecodeIgnoring(rest)
  {
    CharDecodes(c, rest);
    hide DecodeOne, EncodeChar;
    assert (EncodeChar(c) + rest)[|EncodeChar(c)|..] == rest;
  }

  lemma {:induction false} DecodeEncode(text: string)
    ensures DecodeIgnoring(Encode(text)) == text
  {
    if text != "" {
      CharThenRest(text[0], Encode(text[1..]));
      DecodeEncode(text[1..]);
      assert text == [text[0]] + text[1..];
    }
  }

  lemma {:induction false} LossyDecodeEncode(text: string)
    ensures DecodeLossy(Encode(text)) == text
  {
    if text != "" {
      var e, rest := EncodeChar(text[0]), Encode(text[1..]);
      CharDecodes(text[0], rest);
      LossyDecodeEncode(text[1..]);
      hide DecodeOne, EncodeChar;
      assert (e + rest)[|e|..] == rest;
      assert text == [text[0]] + text[1..];
    }
  }

  /** A beginning of the encoding of `c`. */
  predicate Begins(s: seq<byte>, c: char, m: nat) {
    m <= |s| && m <= |EncodeChar(c)| && s[..m] == EncodeChar(c)[..m]
  }

  lemma LeadGoesOn(c: char)
    requires |EncodeChar(c)| >= 3
    ensures var e := EncodeChar(c);
            && GoesOn(e[0], e[1]) && Continuation(e[2]) && (|e| == 4 <==> e[0] >= 0xF0)
            && (|e| == 4 ==> Continuation(e[3]))
  {}

  lemma BeginsBytes(s: seq<byte>, c: char, m: nat)
    requires Begins(s, c, m)
    ensures forall i :: 0 <= i < m ==> s[i] == EncodeChar(c)[i]
    ensures m == |EncodeChar(c)| ==> DecodeOne(s).Some?
  {
    assert forall i :: 0 <= i < m ==> s[i] == s[..m][i] == EncodeChar(c)[..m][i];
    if m == |EncodeChar(c)| {
      CharDecodes(c, s[m..]);
      assert s == EncodeChar(c) + s[m..];
    }
  }

  /** Where no character stands, no beginning of one is longer than the broken run. */
  lemma NothingLonger(s: seq<byte>, c: char, m: nat)
    requires s != [] && DecodeOne(s).None? && Begins(s, c, m)
    ensures m <= BrokenRun(s)
  {
    BeginsBytes(s, c, m);
    if |EncodeChar(c)| >= 3 { LeadGoesOn(c); }
    hide DecodeOne, EncodeChar, GoesOn, Continuation;
  }

  lemma Recompose(x: nat, y: nat, z: nat)
    requires y < 64 && z < 64
    ensures (x * 4096 + y * 64 + z) / 4096 == x && (x * 4096 + y * 64 + z) / 64 % 64 == y
  {
    var n := x * 4096 + y * 64 + z;
    assert n / 64 == x * 64 + y;
    assert n / 4096 == x;
  }

  /** The least character of three bytes with these two first ones. */
  lemma ThreeBytes(lead: byte, second: byte) returns (c: char)
    requires GoesOn(lead, second) && lead < 0xF0
    ensures var e := EncodeChar(c); |e| == 3 && e[0] == lead && e[1] == second
  {
    var x, y := lead as int - 0xE0, second as int - 0x80;
    Recompose(x, y, 0);
    var n := x * 4096 + y * 64;
    assert 0x800 <= n < 0x1_0000 && !(0xD800 <= n < 0xE000);
    c := n as char;
  }

  /** The least character of four bytes with these three first ones. */
  lemma FourBytes(lead: byte, second: byte, third: byte) returns (c: char)
    requires GoesOn(lead, second) && lead >= 0xF0 && Continuation(third)
    ensures var e := EncodeChar(c); |e| == 4 && e[0] == lead && e[1] == second && e[2] == third
  {
    var x, y, z := lead as int - 0xF0, second as int - 0x80, third as int - 0x80;
    var n := x * 262144 + y * 4096 + z * 64;
    Recompose(x, y, z);
    var m := x * 4096 + y * 64 + z;
    assert n == m * 64;
    assert n / 64 == m && n / 4096 == m / 64 && n / 262144 == m / 4096;
    assert 0x1_0000 <= n < 0x11_0000;
    c := n as char;
  }

  /** A broken run of several bytes is a beginning of some character, cut off. */
  lemma RunBegins(s: seq<byte>) returns (c: char)
    requires s != [] && BrokenRun(s) > 1
    ensures Begins(s, c, BrokenRun(s)) && BrokenRun(s) < |EncodeChar(c)|
  {
    hide EncodeChar;
    if s[0] < 0xF0 {
      c := ThreeBytes(s[0], s[1]);
    } else {
      c := FourBytes(s[0], s[1], if BrokenRun(s) == 3 then s[2] else 0x80);
    }
    hide GoesOn;
  }

  /** Lossy decoding puts one replacement character for the longest cut-off beginning of a character, or for one
      byte that begins none, and goes on behind it. */
  lemma LossyTells(s: seq<byte>)
    requires s != []
    ensures DecodeOne(s).Some? ==> DecodeLossy(s) == [DecodeOne(s).value.0] + DecodeLossy(s[DecodeOne(s).value.1..])
    ensures DecodeOne(s).None? ==>
              && DecodeLossy(s) == "\U{FFFD}" + DecodeLossy(s[BrokenRun(s)..])
              && (BrokenRun(s) == 1 || CutOff(s, BrokenRun(s))) && Longest(s, BrokenRun(s))
  {
    hide EncodeChar;
    if DecodeOne(s).None? {
      if BrokenRun(s) > 1 { var c := RunBegins(s); }
      forall c, m: nat | Begins(s, c, m) ensures m <= BrokenRun(s) {
        NothingLonger(s, c, m);
      }
    }
    hide DecodeOne, BrokenRun, Begins;
  }

  /** The first `n` bytes begin a character without ending it. */
  ghost predicate CutOff(s: seq<byte>, n: nat) {
    exists c :: Begins(s, c, n) && n < |EncodeChar(c)|
  }

  /** No character is begun by more bytes. */
  ghost predicate Longest(s: seq<byte>, n: nat) {
    forall c, m: nat :: Begins(s, c, m) ==> m <= n
  }

  /** How many characters of the text fit into `k` bytes. */
  function Fit(text: string, k: nat): (m: nat)
    ensures m <= |text|
  {
    if text == "" || |EncodeChar(text[0])| > k then 0 else 1 + Fit(text[1..], k - |EncodeChar(text[0])|)
  }

  lemma {:induction false} EncodeConcat(a: string, b: string)
    ensures Encode(a + b) == Encode(a) + Encode(b)
  {
    if a == "" {
      assert a + b == b;
    } else {
      assert (a + b)[0] == a[0] && (a + b)[1..] == a[1..] + b;
      EncodeConcat(a[1..], b);
    }
  }

  lemma {:induction false} FitIsGreatest(text: string, k: nat)
    ensures var m := Fit(text, k);
            && |Encode(text[..m])| <= k
            && (m < |text| ==> |Encode(text[..m + 1])| > k)
            && (m < |text| ==> k < |Encode(text[..m])| + 4)
            && (m == |text| <==> |Encode(text)| <= k)
  {
    hide EncodeChar;
    var m := Fit(text, k);
    if text != "" {
      var head := |EncodeChar(text[0])|;
      if head <= k {
        FitIsGreatest(text[1..], k - head);
        assert text[..m][0] == text[0] && text[..m][1..] == text[1..][..m - 1];
        if m < |text| {
          assert text[..m + 1][0] == text[0] && text[..m + 1][1..] == text[1..][..m];
        }
      } else {
        assert text[..1] == [text[0]] && [text[0]][1..] == "";
      }
    }
  }

  /** Any cut of an encoding decodes to the characters that are whole in it. */
  lemma {:induction false} CutDecodes(text: string, k: nat)
    requires k <= |Encode(text)|
    ensures DecodeIgnoring(Encode(text)[..k]) == text[..Fit(text, k)]
  {
    hide EncodeChar, DecodeOne;
    if text != "" {
      var e, rest := EncodeChar(text[0]), Encode(text[1..]);
      if |e| <= k {
        assert Encode(text)[..k] == e + rest[..k - |e|];
        CutDecodes(text[1..], k - |e|);
        CharThenRest(text[0], rest[..k - |e|]);
        assert text[..Fit(text, k)] == [text[0]] + text[1..][..Fit(text[1..], k - |e|)];
      } else {
        assert Encode(text)[..k] == e[..k];
        CutCharIgnored(text[0], k);
      }
    }
  }

  lemma {:induction false} AsciiLength(text: string)
    requires forall i :: 0 <= i < |text| ==> text[i] < 128 as char
    ensures |Encode(text)| == |text|
  {
    if text != "" {
      AsciiLength(text[1..]);
    }
  }
}

/** `bound_text` in `scripts/ao2_windows_outbound_worker.py`. */
module BoundedText {
  import opened Utf8

  const SUFFIX := "\n...<truncated>"

  /** Keeps the text if it fits; otherwise a cut of its bytes, decoded, and the suffix. */
  function BoundText(text: string, limit: int): (string, bool) {
    var encoded := Encode(text);
    if |encoded| <= limit then (text, false)
    else
      var keep := if limit - |Encode(SUFFIX)| > 0 then limit - |Encode(SUFFIX)| else 0;
      (DecodeIgnoring(encoded[..if keep < |encoded| then keep else |encoded|]) + SUFFIX, true)
  }

  lemma SuffixBytes()
    ensures |Encode(SUFFIX)| == 15 == |SUFFIX|
  {
    hide Encode;
    AsciiLength(SUFFIX);
  }

  lemma SuffixText()
    ensures SUFFIX == "\n...<truncated>"
  {}

  /** What a truncation keeps: the characters that fit before the suffix. */
  lemma TruncatedForm(text: string, limit: int)
    requires |Encode(text)| > limit
    ensures var keep := if limit > 15 then limit - 15 else 0;
            BoundText(text, limit) == (text[..Fit(text, keep)] + SUFFIX, true)
  {
    SuffixBytes();
    hide Encode, DecodeIgnoring, EncodeChar;
    CutDecodes(text, if limit > 15 then limit - 15 else 0);
  }

  /** The result has at most max(limit, 15) bytes. A text that fits is left alone; of a longer one the suffix
      follows a prefix of its characters that wastes fewer than four of the bytes left for it. */
  lemma BoundedLength(text: string, limit: int)
    ensures var (r, truncated) := BoundText(text, limit);
            && |Encode(r)| <= (if limit > 15 then limit else 15)
            && (truncated <==> |Encode(text)| > limit)
            && (!truncated ==> r == text)
            && (truncated && limit >= 0 ==>
                  exists m :: 0 <= m < |text| && r == text[..m] + "\n...<truncated>"
                              && limit - 15 - 4 < |Encode(text[..m])| <= (if limit > 15 then limit - 15 else 0))
  {
    SuffixText();
    hide *;
    if |Encode(text)| > limit {
      TruncatedForm(text, limit);
      TruncatedLength(text, if limit > 15 then limit - 15 else 0, limit);
    } else {
      ShortUntouched(text, limit);
    }
  }

  lemma ShortUntouched(text: string, limit: int)
    requires |Encode(text)| <= limit
    ensures BoundText(text, limit) == (text, false)
  {}

  lemma TruncatedLength(text: string, keep: nat, limit: int)
    requires |Encode(text)| > limit && keep == if limit > 15 then limit - 15 else 0
    ensures var m := Fit(text, keep);
            && |Encode(text[..m] + SUFFIX)| <= keep + 15
            && (limit >= 0 ==> m < |text| && limit - 15 - 4 < |Encode(text[..m])| <= keep)
  {
    SuffixBytes();
    FitIsGreatest(text, keep);
    hide Encode, Fit;
    EncodeConcat(text[..Fit(text, keep)], SUFFIX);
  }

  /** Bounding the bounded text again changes nothing, at any limit; for limits from 15 on it does not even
      count as a truncation. */
  lemma BoundingIsIdempotent(text: string, limit: int)
    ensures var (r, truncated) := BoundText(text, limit);
            && BoundText(r, limit).0 == r
            && (truncated ==> (BoundText(r, limit).1 <==> limit < 15))
  {
    SuffixBytes();
    BoundedLength(text, limit);
    var (r, truncated) := BoundText(text, limit);
    if truncated && limit < 15 {
      TruncatedForm(text, limit);
      FitIsGreatest(text, 0);
      EmptyFit(text);
      assert r == SUFFIX;
      TruncatedForm(r, limit);
      EmptyFit(r);
    }
  }

  lemma EmptyFit(text: string)
    ensures Fit(text, 0) == 0 && text[..Fit(text, 0)] + SUFFIX == SUFFIX
  {}
}
