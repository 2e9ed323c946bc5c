/** Machine integers, option and result types, and little-endian byte layouts
    shared by every module of the model. */
module Basics {

  type U8 = x: int | 0 <= x < 0x100
  type U16 = x: int | 0 <= x < 0x1_0000
  type U32 = x: int | 0 <= x < 0x1_0000_0000

  datatype Option<+T> = None | Some(value: T)

  datatype Result<+T, +E> = Ok(value: T) | Err(error: E)

  function Abs(x: real): real { if x < 0.0 then -x else x }

  function Max(x: real, y: real): real { if x < y then y else x }

  lemma SnocInjective<T>(a: seq<T>, x: T, b: seq<T>, y: T)
    requires a + [x] == b + [y]
    ensures a == b && x == y
  {
    assert a == (a + [x])[..|a|];
    assert b == (b + [y])[..|b|];
    assert (a + [x])[|a|] == x;
  }

  /** `u16::to_le_bytes`. */
  function LE16(x: U16): (b: seq<U8>)
    ensures |b| == 2
  {
    [x % 256, x / 256]
  }

  /** `u32::to_le_bytes`. */
  function LE32(x: U32): (b: seq<U8>)
    ensures |b| == 4
  {
    [x % 256, x / 256 % 256, x / 65536 % 256, x / 16777216]
  }

  function FromLE16(b: seq<U8>): U16
    requires |b| == 2
  {
    (b[0] as int) + 256 * (b[1] as int)
  }

  function FromLE32(b: seq<U8>): U32
    requires |b| == 4
  {
    (b[0] as int) + 256 * (b[1] as int) + 65536 * (b[2] as int) + 16777216 * (b[3] as int)
  }

  lemma LE16RoundTrip(x: U16, b: seq<U8>)
    requires |b| == 2
    ensures FromLE16(LE16(x)) == x
    ensures LE16(FromLE16(b)) == b
  {
    assert LE16(FromLE16(b))[0] == b[0] && LE16(FromLE16(b))[1] == b[1];
  }

  lemma LE32RoundTrip(x: U32, b: seq<U8>)
    requires |b| == 4
    ensures FromLE32(LE32(x)) == x
    ensures LE32(FromLE32(b)) == b
  {
    var b0: int, b1: int, b2: int, b3: int := b[0], b[1], b[2], b[3];
    var y := FromLE32(b);
    assert y / 256 == b1 + 256 * b2 + 65536 * b3;
    assert y / 65536 == b2 + 256 * b3;
    assert x / 65536 == x / 256 / 256 && x / 16777216 == x / 65536 / 256;
    var l := LE32(y);
    assert l[0] == b0 && l[1] == b1 && l[2] == b2 && l[3] == b3;
  }
}
