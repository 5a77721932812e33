/** The order of keys on their UTF-8 bytes, which is what `String` compares. */
module Utf8Order {
  import opened FileTree
  import opened Lexicographic
  import opened Utf8

  /** The bytes `a` come before the bytes `b`: they agree up to `n`, and there `a` ends or has the smaller byte. */
  predicate BytesBefore(a: seq<byte>, b: seq<byte>, n: nat) {
    n <= |a| && n < |b| && a[..n] == b[..n] && (n == |a| || a[n] < b[n])
  }

  /** The four possible bytes of a code point, as numbers. */
  lemma CharBytes(c: char)
    ensures var e, n := EncodeChar(c), c as int;
            if n < 0x80 then |e| == 1 && e[0] as int == n
            else if n < 0x800 then |e| == 2 && e[0] as int == 0xC0 + n / 64 && e[1] as int == 0x80 + n % 64
            else if n < 0x1_0000 then
              && |e| == 3 && e[0] as int == 0xE0 + n / 4096 && e[1] as int == 0x80 + n / 64 % 64
              && e[2] as int == 0x80 + n % 64
            else
              && |e| == 4 && e[0] as int == 0xF0 + n / 262144 && e[1] as int == 0x80 + n / 4096 % 64
              && e[2] as int == 0x80 + n / 64 % 64 && e[3] as int == 0x80 + n % 64
  {}

  /** Splitting off digits to base 64. */
  lemma SplitDigit(n: nat)
    ensures n == n / 64 * 64 + n % 64 && n / 64 == n / 4096 * 64 + n / 64 % 64
    ensures n / 4096 == n / 262144 * 64 + n / 4096 % 64
  {}

  /** Two numbers differ first in some digit to base 64, in their order. */
  lemma DigitOrder(n: nat, m: nat)
    requires n < m
    ensures n / 64 < m / 64 || (n / 64 == m / 64 && n % 64 < m % 64)
    ensures n / 4096 < m / 4096 || (n / 4096 == m / 4096 && (n / 64 < m / 64 ==> n / 64 % 64 < m / 64 % 64))
    ensures n / 262144 < m / 262144
            || (n / 262144 == m / 262144 && (n / 4096 < m / 4096 ==> n / 4096 % 64 < m / 4096 % 64))
    ensures n / 64 == m / 64 ==> n / 4096 == m / 4096
    ensures n / 4096 == m / 4096 ==> n / 262144 == m / 262144
  {
    SplitDigit(n);
    SplitDigit(m);
  }

  /** Two different characters differ inside both encodings, in their own order. */
  lemma CharOrder(c: char, d: char) returns (k: nat)
    requires c < d
    ensures var e, f := EncodeChar(c), EncodeChar(d); k < |e| && k < |f| && e[..k] == f[..k] && e[k] < f[k]
  {
    CharBytes(c);
    CharBytes(d);
    DigitOrder(c as int, d as int);
    hide EncodeChar;
    var e, f := EncodeChar(c), EncodeChar(d);
    if |e| != |f| || e[0] != f[0] {
      k := 0;
    } else if e[1] != f[1] {
      k := 1;
    } else if e[2] != f[2] {
      k := 2;
    } else {
      k := 3;
    }
  }

  lemma BehindPrefix(p: seq<byte>, a: seq<byte>, b: seq<byte>, n: nat)
    ensures BytesBefore(p + a, p + b, |p| + n) <==> BytesBefore(a, b, n)
  {
    if n <= |a| && n < |b| {
      assert (p + a)[..|p| + n] == p + a[..n] && (p + b)[..|p| + n] == p + b[..n];
      assert (p + a[..n])[|p|..] == a[..n] && (p + b[..n])[|p|..] == b[..n];
    }
  }

  /** Texts in their order have encodings in theirs, at some first difference. */
  lemma {:induction false} LessBytes(a: string, b: string) returns (n: nat)
    requires Less(a, b)
    ensures BytesBefore(Encode(a), Encode(b), n)
  {
    hide EncodeChar;
    if a == "" {
      n := 0;
      assert Encode(b) == EncodeChar(b[0]) + Encode(b[1..]);
    } else if a[0] < b[0] {
      n := CharOrder(a[0], b[0]);
      var e, f := EncodeChar(a[0]), EncodeChar(b[0]);
      assert Encode(a) == e + Encode(a[1..]) && Encode(b) == f + Encode(b[1..]);
      assert Encode(a)[..n] == e[..n] && Encode(b)[..n] == f[..n];
    } else {
      var m := LessBytes(a[1..], b[1..]);
      n := |EncodeChar(a[0])| + m;
      BehindPrefix(EncodeChar(a[0]), Encode(a[1..]), Encode(b[1..]), m);
    }
  }

  lemma OneWay(a: seq<byte>, b: seq<byte>, n: nat, m: nat)
    requires BytesBefore(a, b, n)
    ensures !BytesBefore(b, a, m)
  {
    assert m < n ==> a[..n][m] == a[m] && b[..n][m] == b[m];
    assert n < m <= |a| && m <= |b| ==> a[..m][n] == a[n] && b[..m][n] == b[n];
  }

  lemma NeverBefore(a: string, b: string, n: nat)
    requires !Less(a, b)
    ensures !BytesBefore(Encode(a), Encode(b), n)
  {
    LessTrichotomy(a, b);
    if a != b {
      var m := LessBytes(b, a);
      OneWay(Encode(b), Encode(a), m, n);
    }
  }

  /** The order of texts by characters is the order of their UTF-8 bytes. */
  lemma {:induction false} ByteOrder(a: string, b: string)
    ensures Less(a, b) <==> exists n: nat :: BytesBefore(Encode(a), Encode(b), n)
  {
    if Less(a, b) {
      var n := LessBytes(a, b);
    } else {
      forall n: nat ensures !BytesBefore(Encode(a), Encode(b), n) {
        NeverBefore(a, b, n);
      }
    }
  }
}
