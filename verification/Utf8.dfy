/** UTF-8 (RFC 3629): strings as the firmware stores and measures them. */
module Utf8 {
  import opened Basics

  function Width(c: char): (w: nat)
    ensures 1 <= w <= 4
  {
    var x := c as int;
    if x < 0x80 then 1 else if x < 0x800 then 2 else if x < 0x1_0000 then 3 else 4
  }

  function EncodeChar(c: char): (b: seq<U8>)
    ensures |b| == Width(c)
  {
    var x := c as int;
    if x < 0x80 then [x]
    else if x < 0x800 then [0xC0 + x / 64, 0x80 + x % 64]
    else if x < 0x1_0000 then [0xE0 + x / 4096, 0x80 + x / 64 % 64, 0x80 + x % 64]
    else [0xF0 + x / 262144, 0x80 + x / 4096 % 64, 0x80 + x / 64 % 64, 0x80 + x % 64]
  }

  function Encode(s: string): seq<U8> {
    if s == "" then [] else EncodeChar(s[0]) + Encode(s[1..])
  }

  predicate IsContinuation(b: U8) { 0x80 <= b < 0xC0 }

  /** A Unicode scalar value of at least `min`. */
  function Scalar(x: int, min: int, n: nat): Option<(char, nat)> {
    if min <= x && (0 <= x < 0xD800 || 0xE000 <= x < 0x11_0000) then Some((x as char, n)) else None
  }

  /** The character at the front, strictly: no overlong form, no surrogate. */
  function DecodeChar(b: seq<U8>): (r: Option<(char, nat)>)
    ensures r.Some? ==> 1 <= r.value.1 <= |b|
  {
    if b == [] then None
    else
      var b0: int := b[0];
      if b0 < 0x80 then Scalar(b0, 0, 1)
      else if 0xC0 <= b0 < 0xE0 && |b| >= 2 && IsContinuation(b[1]) then
        Scalar((b0 - 0xC0) * 64 + (b[1] as int - 0x80), 0x80, 2)
      else if 0xE0 <= b0 < 0xF0 && |b| >= 3 && IsContinuation(b[1]) && IsContinuation(b[2]) then
        Scalar((b0 - 0xE0) * 4096 + (b[1] as int - 0x80) * 64 + (b[2] as int - 0x80), 0x800, 3)
      else if 0xF0 <= b0 < 0xF8 && |b| >= 4 && IsContinuation(b[1]) && IsContinuation(b[2]) && IsContinuation(b[3]) then
        Scalar((b0 - 0xF0) * 262144 + (b[1] as int - 0x80) * 4096 + (b[2] as int - 0x80) * 64 + (b[3] as int - 0x80),
               0x1_0000, 4)
      else None
  }

  /** `from_utf8`. */
  function Decode(b: seq<U8>): Option<string> {
    if b == [] then Some("")
    else
      match DecodeChar(b)
      case None => None
      case Some((c, n)) =>
        match Decode(b[n..])
        case None => None
        case Some(rest) => Some([c] + rest)
  }

  lemma Decode3(c: char, rest: seq<U8>)
    requires Width(c) == 3
    ensures DecodeChar(EncodeChar(c) + rest) == Some((c, 3))
  {
    var x := c as int;
    var e := EncodeChar(c);
    var b := e + rest;
    assert b[0] == e[0] && b[1] == e[1] && b[2] == e[2];
    assert x == x / 64 * 64 + x % 64;
    assert x / 64 == x / 4096 * 64 + x / 64 % 64;
  }

  lemma Decode4(c: char, rest: seq<U8>)
    requires Width(c) == 4
    ensures DecodeChar(EncodeChar(c) + rest) == Some((c, 4))
  {
    var x := c as int;
    var e := EncodeChar(c);
    var b := e + rest;
    assert b[0] == e[0] && b[1] == e[1] && b[2] == e[2] && b[3] == e[3];
    assert x == x / 64 * 64 + x % 64;
    assert x / 64 == x / 4096 * 64 + x / 64 % 64;
    assert x / 4096 == x / 262144 * 64 + x / 4096 % 64;
  }

  lemma EncodeThenDecodeChar(c: char, rest: seq<U8>)
    ensures DecodeChar(EncodeChar(c) + rest) == Some((c, Width(c)))
  {
    var x := c as int;
    var e := EncodeChar(c);
    var b := e + rest;
    if x < 0x80 {
      assert b[0] == e[0];
    } else if x < 0x800 {
      assert b[0] == e[0] && b[1] == e[1];
      assert x == x / 64 * 64 + x % 64;
    } else if x < 0x1_0000 {
      Decode3(c, rest);
    } else {
      Decode4(c, rest);
    }
  }

  lemma Digits64(x: int, a: int, b: int)
    requires x == a * 64 + b && 0 <= b < 64
    ensures x / 64 == a && x % 64 == b
  {
  }

  lemma DecodeThenEncodeChar(b: seq<U8>)
    requires DecodeChar(b).Some?
    ensures var (c, n) := DecodeChar(b).value;
            n == Width(c) && b[..n] == EncodeChar(c)
  {
    var (c, n) := DecodeChar(b).value;
    var x := c as int;
    if n == 2 {
      Digits64(x, b[0] as int - 0xC0, b[1] as int - 0x80);
    } else if n == 3 {
      var hi := (b[0] as int - 0xE0) * 64 + (b[1] as int - 0x80);
      Digits64(x, hi, b[2] as int - 0x80);
      Digits64(hi, b[0] as int - 0xE0, b[1] as int - 0x80);
      assert x / 4096 == x / 64 / 64;
    } else if n == 4 {
      var top := (b[0] as int - 0xF0) * 64 + (b[1] as int - 0x80);
      var hi := top * 64 + (b[2] as int - 0x80);
      Digits64(x, hi, b[3] as int - 0x80);
      Digits64(hi, top, b[2] as int - 0x80);
      Digits64(top, b[0] as int - 0xF0, b[1] as int - 0x80);
      assert x / 4096 == x / 64 / 64 && x / 262144 == x / 64 / 64 / 64;
    }
  }

  /** Decoding undoes encoding. */
  lemma {:induction false} DecodeEncode(s: string)
    ensures Decode(Encode(s)) == Some(s)
  {
    if s != "" {
      EncodeThenDecodeChar(s[0], Encode(s[1..]));
      assert Encode(s)[Width(s[0])..] == Encode(s[1..]);
      DecodeEncode(s[1..]);
      assert s == [s[0]] + s[1..];
    }
  }

  /** A byte string decodes to at most one text, and is that text's encoding. */
  lemma {:induction false} EncodeDecode(b: seq<U8>)
    requires Decode(b).Some?
    ensures Encode(Decode(b).value) == b
  {
    if b != [] {
      DecodeThenEncodeChar(b);
      var (c, n) := DecodeChar(b).value;
      EncodeDecode(b[n..]);
      var s := Decode(b).value;
      assert s[0] == c && s[1..] == Decode(b[n..]).value;
      assert b == b[..n] + b[n..];
    }
  }

  /** Lead and continuation bytes as RFC 3629, section 3, assigns them. */
  lemma ByteRanges(c: char)
    ensures var b := EncodeChar(c);
            && (|b| == 1 <==> b[0] < 0x80) && (|b| == 1 ==> b[0] as int == c as int)
            && (|b| == 2 <==> 0xC2 <= b[0] <= 0xDF)
            && (|b| == 3 <==> 0xE0 <= b[0] <= 0xEF)
            && (|b| == 4 <==> 0xF0 <= b[0] <= 0xF4)
            && forall i :: 1 <= i < |b| ==> 0x80 <= b[i] <= 0xBF
  {
  }

  /** Dictionary order of byte strings. */
  predicate ByteLess(a: seq<U8>, b: seq<U8>) {
    b != [] && (a == [] || a[0] < b[0] || (a[0] == b[0] && ByteLess(a[1..], b[1..])))
  }

  /** Dictionary order of texts, by character number. */
  predicate TextLess(s: string, t: string) {
    t != "" && (s == "" || s[0] < t[0] || (s[0] == t[0] && TextLess(s[1..], t[1..])))
  }

  lemma {:induction false} ByteLessAt(a: seq<U8>, b: seq<U8>, i: nat)
    requires i < |a| && i < |b| && a[..i] == b[..i] && a[i] < b[i]
    ensures ByteLess(a, b)
  {
    if i > 0 {
      assert a[0] == a[..i][0] && b[0] == b[..i][0];
      assert a[1..][..i - 1] == a[..i][1..] && b[1..][..i - 1] == b[..i][1..];
      ByteLessAt(a[1..], b[1..], i - 1);
    }
  }

  /** The first byte in which the encodings of two characters differ. */
  function FirstDifference(c: char, d: char): nat {
    var x, y := c as int, d as int;
    if Width(c) != Width(d) || Width(c) == 1 then 0
    else if Width(c) == 2 then (if x / 64 != y / 64 then 0 else 1)
    else if Width(c) == 3 then (if x / 4096 != y / 4096 then 0 else if x / 64 != y / 64 then 1 else 2)
    else if x / 262144 != y / 262144 then 0 else if x / 4096 != y / 4096 then 1 else if x / 64 != y / 64 then 2 else 3
  }

  /** Numbers in order have their quotients in order, and equal quotients leave it to
      the remainders. */
  lemma DigitOrder(x: nat, y: nat)
    requires x < y
    ensures x / 64 <= y / 64 && (x / 64 == y / 64 ==> x % 64 < y % 64)
  {
  }

  lemma CharOrder3(x: nat, y: nat)
    requires x < y
    ensures x / 4096 <= y / 4096 && x / 64 <= y / 64
    ensures x / 4096 == y / 4096 && x / 64 != y / 64 ==> x / 64 % 64 < y / 64 % 64
    ensures x / 64 == y / 64 ==> x / 4096 == y / 4096 && x % 64 < y % 64
  {
    DigitOrder(x, y);
    if x / 64 != y / 64 {
      DigitOrder(x / 64, y / 64);
    }
    assert x / 4096 == x / 64 / 64 && y / 4096 == y / 64 / 64;
  }

  lemma CharOrder4(x: nat, y: nat)
    requires x < y
    ensures x / 262144 <= y / 262144
    ensures x / 262144 == y / 262144 && x / 4096 != y / 4096 ==> x / 4096 % 64 < y / 4096 % 64
    ensures x / 4096 == y / 4096 ==> x / 262144 == y / 262144
  {
    CharOrder3(x, y);
    if x / 4096 != y / 4096 {
      DigitOrder(x / 4096, y / 4096);
    }
    assert x / 262144 == x / 4096 / 64 && y / 262144 == y / 4096 / 64;
  }

  lemma CharOrder(c: char, d: char)
    requires c < d
    ensures var a, b, i := EncodeChar(c), EncodeChar(d), FirstDifference(c, d);
            i < |a| && i < |b| && a[..i] == b[..i] && a[i] < b[i]
  {
    var a, b := EncodeChar(c), EncodeChar(d);
    ByteRanges(c);
    ByteRanges(d);
    DigitOrder(c as int, d as int);
    CharOrder3(c as int, d as int);
    CharOrder4(c as int, d as int);
    var i := FirstDifference(c, d);
    if Width(c) == Width(d) {
      assert a[i] < b[i];
      forall k | 0 <= k < i
        ensures a[k] == b[k]
      {
      }
    }
  }

  lemma ByteLessPrefixed(p: seq<U8>, a: seq<U8>, b: seq<U8>)
    requires ByteLess(a, b)
    ensures ByteLess(p + a, p + b)
    decreases |p|
  {
    if p == [] {
      assert p + a == a && p + b == b;
    } else {
      assert (p + a)[1..] == p[1..] + a && (p + b)[1..] == p[1..] + b;
      ByteLessPrefixed(p[1..], a, b);
    }
  }

  /** Encoding keeps the order of texts (RFC 3629, section 1). */
  lemma {:induction false} EncodeKeepsOrder(s: string, t: string)
    requires TextLess(s, t)
    ensures ByteLess(Encode(s), Encode(t))
  {
    if s != "" {
      var a, b := EncodeChar(s[0]), EncodeChar(t[0]);
      if s[0] < t[0] {
        CharOrder(s[0], t[0]);
        var i := FirstDifference(s[0], t[0]);
        assert Encode(s)[..i] == a[..i] && Encode(t)[..i] == b[..i];
        ByteLessAt(Encode(s), Encode(t), i);
      } else {
        EncodeKeepsOrder(s[1..], t[1..]);
        ByteLessPrefixed(a, Encode(s[1..]), Encode(t[1..]));
      }
    }
  }

  // ---- Length and truncation ----

  /** `String::len`. */
  function ByteLen(s: string): (n: nat)
    ensures n == |Encode(s)|
  {
    if s == "" then 0 else Width(s[0]) + ByteLen(s[1..])
  }

  lemma {:induction false} ByteLenConcat(s: string, t: string)
    ensures ByteLen(s + t) == ByteLen(s) + ByteLen(t)
  {
    if s == "" {
      assert s + t == t;
    } else {
      assert (s + t)[1..] == s[1..] + t;
      ByteLenConcat(s[1..], t);
    }
  }

  predicate IsAscii(s: string) { forall i :: 0 <= i < |s| ==> s[i] as int < 0x80 }

  lemma {:induction false} AsciiLen(s: string)
    requires IsAscii(s)
    ensures ByteLen(s) == |s|
  {
    if s != "" {
      AsciiLen(s[1..]);
    }
  }

  lemma {:induction false} LenAtLeastChars(s: string)
    ensures |s| <= ByteLen(s)
  {
    if s != "" {
      LenAtLeastChars(s[1..]);
    }
  }

  /** The longest prefix of whole characters within `max` bytes. */
  function Truncated(s: string, max: nat): string {
    if s == "" || Width(s[0]) > max then "" else [s[0]] + Truncated(s[1..], max - Width(s[0]))
  }

  /** It is a prefix that fits, loses at most 3 bytes below the limit, and any
      longer prefix is too long. */
  lemma {:induction false} TruncatedSpec(s: string, max: nat)
    ensures var t := Truncated(s, max);
            && t <= s && ByteLen(t) <= max
            && (t == s || max - 3 <= ByteLen(t))
            && (ByteLen(s) <= max ==> t == s)
            && forall k :: |t| < k <= |s| ==> ByteLen(s[..k]) > max
  {
    if s != "" && Width(s[0]) <= max {
      var m := max - Width(s[0]);
      TruncatedSpec(s[1..], m);
      var t := Truncated(s, max);
      assert t[1..] == Truncated(s[1..], m);
      forall k | |t| < k <= |s|
        ensures ByteLen(s[..k]) > max
      {
        assert s[..k][1..] == s[1..][..k - 1];
      }
    } else if s != "" {
      forall k | 0 < k <= |s|
        ensures ByteLen(s[..k]) > max
      {
        assert s[..k][0] == s[0];
      }
    }
  }

  /** `is_char_boundary` on the encoding. */
  predicate Boundary(b: seq<U8>, i: nat) { i == 0 || i == |b| || (i < |b| && !IsContinuation(b[i])) }

  lemma EncodeCharBytes(c: char, i: nat)
    requires i < Width(c)
    ensures IsContinuation(EncodeChar(c)[i]) <==> i > 0
  {
  }

  lemma EncodeAt(s: string, i: nat)
    requires s != "" && i < ByteLen(s)
    ensures Encode(s)[i] == if i < Width(s[0]) then EncodeChar(s[0])[i] else Encode(s[1..])[i - Width(s[0])]
  {
  }

  lemma BoundaryTail(s: string, i: nat)
    requires s != "" && Width(s[0]) <= i <= ByteLen(s)
    ensures Boundary(Encode(s), i) <==> Boundary(Encode(s[1..]), i - Width(s[0]))
  {
    var w := Width(s[0]);
    if i < ByteLen(s) {
      EncodeAt(s, i);
      if i == w {
        EncodeAt(s[1..], 0);
        EncodeCharBytes(s[1], 0);
      }
    }
  }

  /** The bytes where a character starts or the text ends, and no others. */
  lemma {:induction false} BoundaryIff(s: string, i: nat)
    requires i <= ByteLen(s)
    ensures Boundary(Encode(s), i) <==> ByteLen(Truncated(s, i)) == i
  {
    if s != "" {
      var w := Width(s[0]);
      if 0 < i < w {
        EncodeCharBytes(s[0], i);
        EncodeAt(s, i);
      } else if i >= w {
        BoundaryIff(s[1..], i - w);
        BoundaryTail(s, i);
        assert Truncated(s, i)[1..] == Truncated(s[1..], i - w);
      }
    }
  }

  lemma {:induction false} TruncatedAt(s: string, i: nat, max: nat)
    requires i <= max && ByteLen(Truncated(s, i)) == i
    requires forall j :: i < j <= max ==> ByteLen(Truncated(s, j)) != j
    ensures Truncated(s, max) == Truncated(s, i)
  {
    TruncatedSpec(s, max);
    var n := ByteLen(Truncated(s, max));
    TruncatedAgain(s, max);
    if n <= i {
      TruncatedMonotone(s, i, max);
      PrefixLen(Truncated(s, i), Truncated(s, max));
    }
  }

  lemma {:induction false} TruncatedAgain(s: string, max: nat)
    ensures Truncated(s, ByteLen(Truncated(s, max))) == Truncated(s, max)
  {
    if s != "" && Width(s[0]) <= max {
      TruncatedAgain(s[1..], max - Width(s[0]));
      assert Truncated(s, max)[1..] == Truncated(s[1..], max - Width(s[0]));
    }
  }

  lemma {:induction false} TruncatedMonotone(s: string, i: nat, max: nat)
    requires i <= max
    ensures Truncated(s, i) <= Truncated(s, max)
  {
    if s != "" && Width(s[0]) <= i {
      TruncatedMonotone(s[1..], i - Width(s[0]), max - Width(s[0]));
    }
  }

  lemma PrefixLen(a: string, b: string)
    requires a <= b
    ensures ByteLen(a) <= ByteLen(b)
    ensures ByteLen(a) == ByteLen(b) ==> a == b
  {
    assert b == a + b[|a|..];
    ByteLenConcat(a, b[|a|..]);
    LenAtLeastChars(b[|a|..]);
  }

  /** Truncate to at most `max` bytes without splitting a character. */
  method TruncateUtf8(s: string, max: nat) returns (r: string)
    ensures r == Truncated(s, max)
  {
    TruncatedSpec(s, max);
    if ByteLen(s) <= max {
      return s;
    }
    var bytes := Encode(s);
    var cut := max;
    while !Boundary(bytes, cut)
      invariant 0 <= cut <= max
      invariant forall j :: cut < j <= max ==> ByteLen(Truncated(s, j)) != j
      decreases cut
    {
      BoundaryIff(s, cut);
      cut := cut - 1;
    }
    BoundaryIff(s, cut);
    TruncatedAt(s, cut, max);
    r := Truncated(s, cut);
  }
}
