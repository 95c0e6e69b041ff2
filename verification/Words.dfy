/** Fixed-width unsigned integers as bounded `int`s, and their little-endian bytes. */
module Words {

  type byte = x: int | 0 <= x < 0x100
  type u8 = x: int | 0 <= x < 0x100
  type u16 = x: int | 0 <= x < 0x1_0000
  type u32 = x: int | 0 <= x < 0x1_0000_0000
  type u64 = x: int | 0 <= x < 0x1_0000_0000_0000_0000

  const MAX_U16: u16 := 0xFFFF
  const MAX_U32: u32 := 0xFFFF_FFFF
  const MAX_U64: u64 := 0xFFFF_FFFF_FFFF_FFFF

  datatype Option<+T> = None | Some(value: T)

  /** `x + 1u` on a uint32_t. */
  function Inc32(x: u32): u32 {
    if x == MAX_U32 then 0 else x + 1
  }

  /** `x++` on a uint16_t. */
  function Inc16(x: u16): u16 {
    if x == MAX_U16 then 0 else x + 1
  }

  function Byte0(v: u32): byte { v % 256 }
  function Byte1(v: u32): byte { v / 256 % 256 }
  function Byte2(v: u32): byte { v / 65536 % 256 }
  function Byte3(v: u32): byte { v / 16777216 % 256 }

  function LE16(v: u16): seq<byte> { [Byte0(v), Byte1(v)] }

  function LE32(v: u32): seq<byte> { [Byte0(v), Byte1(v), Byte2(v), Byte3(v)] }

  function Read16(b: seq<byte>, at: nat): u16
    requires at + 2 <= |b|
  {
    var b0: int, b1: int := b[at], b[at + 1];
    b0 + 256 * b1
  }

  function Word32(b0: byte, b1: byte, b2: byte, b3: byte): u32 {
    var x0: int, x1: int, x2: int, x3: int := b0, b1, b2, b3;
    x0 + 256 * x1 + 65536 * x2 + 16777216 * x3
  }

  function Read32(b: seq<byte>, at: nat): u32
    requires at + 4 <= |b|
  {
    Word32(b[at], b[at + 1], b[at + 2], b[at + 3])
  }

  lemma SmallMod(x: nat, n: nat)
    requires x < n
    ensures x % n == x
  {}

  lemma Quotient(v: nat, low: int, high: nat)
    requires 0 <= low < 256 && v == low + 256 * high
    ensures v % 256 == low && v / 256 == high
  {}

  lemma Split32(v: u32)
    ensures (Byte0(v) as int) + 256 * Byte1(v) + 65536 * Byte2(v) + 16777216 * Byte3(v) == v
  {
    var v1: int, v2: int, v3: int := v / 256, v / 65536, v / 16777216;
    Quotient(v1, v1 % 256, v2);
    Quotient(v2, v2 % 256, v3);
  }

  // ---------- Byte strings inside byte strings ----------

  /** `b` holds `x` from position `at` on. */
  predicate At(b: seq<byte>, at: nat, x: seq<byte>) {
    at + |x| <= |b| && b[at..at + |x|] == x
  }

  lemma AtSplit(b: seq<byte>, at: nat, x: seq<byte>, y: seq<byte>)
    requires At(b, at, x + y)
    ensures At(b, at, x) && At(b, at + |x|, y)
  {
    var z := b[at..at + |x + y|];
    assert z[..|x|] == x && z[|x|..] == y;
    assert b[at..at + |x|] == z[..|x|] && b[at + |x|..at + |x| + |y|] == z[|x|..];
  }

  lemma AtJoin(b: seq<byte>, at: nat, x: seq<byte>, y: seq<byte>)
    requires At(b, at, x) && At(b, at + |x|, y)
    ensures At(b, at, x + y)
  {
    assert b[at..at + |x + y|] == b[at..at + |x|] + b[at + |x|..at + |x| + |y|];
  }

  lemma AtIndex(b: seq<byte>, at: nat, x: seq<byte>, i: nat)
    requires At(b, at, x) && i < |x|
    ensures b[at + i] == x[i]
  {
    assert b[at..at + |x|][i] == b[at + i];
  }

  lemma AtAll(b: seq<byte>, x: seq<byte>)
    requires At(b, 0, x) && |b| == |x|
    ensures b == x
  {
    assert b[0..|b|] == b;
  }

  lemma AtPair(b: seq<byte>, at: nat, x: byte, y: byte)
    requires at + 2 <= |b| && b[at] == x && b[at + 1] == y
    ensures At(b, at, [x, y])
  {}

  lemma Read16At(b: seq<byte>, at: nat, v: u16)
    requires At(b, at, LE16(v))
    ensures Read16(b, at) == v
  {
    AtIndex(b, at, LE16(v), 0);
    AtIndex(b, at, LE16(v), 1);
  }

  lemma Read32At(b: seq<byte>, at: nat, v: u32)
    requires At(b, at, LE32(v))
    ensures Read32(b, at) == v
  {
    AtIndex(b, at, LE32(v), 0);
    AtIndex(b, at, LE32(v), 1);
    AtIndex(b, at, LE32(v), 2);
    AtIndex(b, at, LE32(v), 3);
    Split32(v);
  }

  lemma Join16(b: seq<byte>, at: nat)
    requires at + 2 <= |b|
    ensures At(b, at, LE16(Read16(b, at)))
  {
    var x: int, y: int := b[at], b[at + 1];
    Quotient(x + 256 * y, x, y);
    AtPair(b, at, b[at], b[at + 1]);
  }

  lemma Join32(b: seq<byte>, at: nat)
    requires at + 4 <= |b|
    ensures At(b, at, LE32(Read32(b, at)))
  {
    Halves32(b[at], b[at + 1], b[at + 2], b[at + 3]);
    AtPair(b, at, b[at], b[at + 1]);
    AtPair(b, at + 2, b[at + 2], b[at + 3]);
    AtJoin(b, at, [b[at], b[at + 1]], [b[at + 2], b[at + 3]]);
  }

  lemma Halves32(b0: byte, b1: byte, b2: byte, b3: byte)
    ensures LE32(Word32(b0, b1, b2, b3)) == [b0, b1] + [b2, b3]
  {
    var x0: int, x1: int, x2: int, x3: int := b0, b1, b2, b3;
    var v := x0 + 256 * x1 + 65536 * x2 + 16777216 * x3;
    Quotient(v, x0, x1 + 256 * x2 + 65536 * x3);
    Quotient(v / 256, x1, x2 + 256 * x3);
    Quotient(v / 65536, x2, x3);
  }

  // ---------- Writing ----------

  /** `s` with `x` written over it at `at`. */
  function Overwrite(s: seq<byte>, at: nat, x: seq<byte>): (r: seq<byte>)
    requires at + |x| <= |s|
    ensures |r| == |s|
  {
    s[..at] + x + s[at + |x|..]
  }

  lemma OverwriteTwice(s: seq<byte>, at: nat, x: seq<byte>, y: seq<byte>)
    requires at + |x| + |y| <= |s|
    ensures Overwrite(Overwrite(s, at, x), at + |x|, y) == Overwrite(s, at, x + y)
  {
    var r := Overwrite(s, at, x);
    assert r[..at + |x|] == s[..at] + x;
    assert r[at + |x| + |y|..] == s[at + |x| + |y|..];
  }

  lemma OverwriteStart(s: seq<byte>, x: seq<byte>)
    requires |x| <= |s|
    ensures Overwrite(s, 0, x)[..|x|] == x && Overwrite(s, 0, x)[|x|..] == s[|x|..]
  {}

  lemma OverwritePair(s: seq<byte>, at: nat, x: byte, y: byte)
    requires at + 2 <= |s|
    ensures s[at := x][at + 1 := y] == Overwrite(s, at, [x, y])
  {}

  /** write_u16_le: stores `v` at `out[at..at + 2]` and changes nothing else. */
  method Write16(out: array<byte>, at: nat, v: u16)
    requires at + 2 <= out.Length
    modifies out
    ensures out[..] == Overwrite(old(out[..]), at, LE16(v))
  {
    OverwritePair(out[..], at, Byte0(v), Byte1(v));
    out[at] := v % 256;
    out[at + 1] := v / 256 % 256;
  }

  /** write_u32_le: stores `v` at `out[at..at + 4]` and changes nothing else. */
  method Write32(out: array<byte>, at: nat, v: u32)
    requires at + 4 <= out.Length
    modifies out
    ensures out[..] == Overwrite(old(out[..]), at, LE32(v))
  {
    ghost var s, x, y := out[..], [Byte0(v), Byte1(v)], [Byte2(v), Byte3(v)];
    OverwritePair(s, at, Byte0(v), Byte1(v));
    OverwritePair(Overwrite(s, at, x), at + 2, Byte2(v), Byte3(v));
    OverwriteTwice(s, at, x, y);
    assert LE32(v) == x + y;
    out[at] := v % 256;
    out[at + 1] := v / 256 % 256;
    out[at + 2] := v / 65536 % 256;
    out[at + 3] := v / 16777216 % 256;
  }
}
