/**
 CRC-16/CCITT-FALSE: the bit-serial loop of the codec, specified by the
 shift register it implements, and that register characterised as the
 remainder of polynomial division over GF(2).
 */
module Crc {
  import opened Words
  import opened Bits

  type register = r: bits | |r| == 16 witness Zeros(16)

  /** x^16 + x^12 + x^5 + 1 without its leading term (0x1021). */
  const POLY: register := [false, false, false, true, false, false, false, false,
                           false, false, true, false, false, false, false, true]

  const INIT: u16 := 0xFFFF

  /** Shifts one message bit into the register. */
  function FeedBit(r: register, b: bool): register {
    var shifted := r[1..] + [false];
    if r[0] != b then XorBits(shifted, POLY) else shifted
  }

  function Feed(r: register, m: bits): register {
    if m == [] then r else FeedBit(Feed(r, m[..|m| - 1]), m[|m| - 1])
  }

  lemma {:induction false} FeedAppend(r: register, a: bits, b: bits)
    ensures Feed(r, a + b) == Feed(Feed(r, a), b)
  {
    if b == [] {
      assert a + b == a;
    } else {
      FeedAppend(r, a, b[..|b| - 1]);
      assert (a + b)[..|a + b| - 1] == a + b[..|b| - 1];
    }
  }

  /** The checksum of `m` continued from checksum `c`. */
  function CrcFrom(c: u16, m: seq<byte>): u16 {
    RegisterRange(Feed(Low(c, 16), BitsOf(m)));
    Value(Feed(Low(c, 16), BitsOf(m)))
  }

  lemma RegisterRange(r: register)
    ensures 0 <= Value(r) < 0x1_0000
  {
    LowOfValue(r);
    Powers();
  }

  lemma CrcBits(c: u16, m: seq<byte>)
    ensures Low(CrcFrom(c, m), 16) == Feed(Low(c, 16), BitsOf(m))
  {
    LowOfValue(Feed(Low(c, 16), BitsOf(m)));
  }

  function CrcOf(m: seq<byte>): u16 {
    CrcFrom(INIT, m)
  }

  /** A checksum may be computed piecewise. */
  lemma CrcAppend(c: u16, a: seq<byte>, b: seq<byte>)
    ensures CrcFrom(CrcFrom(c, a), b) == CrcFrom(c, a + b)
  {
    CrcBits(c, a);
    BitsOfAppend(a, b);
    FeedAppend(Low(c, 16), BitsOf(a), BitsOf(b));
  }

  // ---------- The register is the remainder of a polynomial division ----------

  /** The product of `q` with the generator x^16 + x^12 + x^5 + 1. */
  function TimesGenerator(q: bits): (p: bits)
    ensures |p| == |q| + 16
  {
    if q == [] then Zeros(16)
    else
      var n := |q| - 1;
      var partial := TimesGenerator(q[..n]) + [false];
      if q[n] then XorBits(partial, Zeros(n) + [true] + POLY) else partial
  }

  /** `m` times x^16, with `r` added to its leading 16 coefficients. */
  function Dividend(r: register, m: bits): (d: bits)
    ensures |d| == |m| + 16
  {
    XorBits(r + Zeros(|m|), m + Zeros(16))
  }

  ghost predicate IsRemainder(r: register, m: bits, rem: register) {
    exists q: bits :: Divides(r, m, q, rem)
  }

  ghost predicate Divides(r: register, m: bits, q: bits, rem: register) {
    |q| == |m| && Dividend(r, m) == XorBits(TimesGenerator(q), Zeros(|m|) + rem)
  }

  lemma DividendStep(r: register, m: bits, b: bool, i: nat)
    requires i < |m| + 17
    ensures Dividend(r, m + [b])[i] == ((i < |m| + 16 && Dividend(r, m)[i]) != (i == |m| && b))
  {}

  lemma ProductStep(q: bits, x: bool, i: nat)
    requires i < |q| + 17
    ensures TimesGenerator(q + [x])[i] ==
              ((i < |q| + 16 && TimesGenerator(q)[i]) != (x && (Zeros(|q|) + [true] + POLY)[i]))
  {
    assert (q + [x])[..|q|] == q;
  }

  lemma RemainderStep(s: register, n: nat, b: bool, i: nat)
    requires i < n + 17
    ensures var x := s[0] != b;
            (Zeros(n + 1) + FeedBit(s, b))[i] ==
              ((i < n + 16 && (Zeros(n) + s)[i]) != ((x && (Zeros(n) + [true] + POLY)[i]) != (i == n && b)))
  {}

  /** Feeding a bit is one step of long division. */
  lemma DivisionStep(r: register, m: bits, q: bits, s: register, b: bool)
    requires Divides(r, m, q, s)
    ensures Divides(r, m + [b], q + [s[0] != b], FeedBit(s, b))
  {
    var n, q', s' := |m|, q + [s[0] != b], FeedBit(s, b);
    forall i | 0 <= i < n + 17
      ensures Dividend(r, m + [b])[i] == (TimesGenerator(q')[i] != (Zeros(n + 1) + s')[i])
    {
      DividendStep(r, m, b, i);
      ProductStep(q, s[0] != b, i);
      RemainderStep(s, n, b, i);
    }
  }

  lemma {:induction false} FeedQuotient(r: register, m: bits) returns (q: bits)
    ensures Divides(r, m, q, Feed(r, m))
  {
    if m == [] {
      q := [];
    } else {
      var n := |m| - 1;
      var p := FeedQuotient(r, m[..n]);
      DivisionStep(r, m[..n], p, Feed(r, m[..n]), m[n]);
      assert m[..n] + [m[n]] == m;
      q := p + [Feed(r, m[..n])[0] != m[n]];
    }
  }

  lemma {:induction false} QuotientUnique(p: bits, q: bits)
    requires |p| == |q| && TimesGenerator(p)[..|p|] == TimesGenerator(q)[..|q|]
    ensures p == q
  {
    if p != [] {
      var n := |p| - 1;
      var tp, tq := TimesGenerator(p), TimesGenerator(q);
      forall i | 0 <= i < n ensures TimesGenerator(p[..n])[i] == TimesGenerator(q[..n])[i] {
        assert tp[..n + 1][i] == tq[..n + 1][i];
      }
      QuotientUnique(p[..n], q[..n]);
      assert tp[..n + 1][n] == tq[..n + 1][n];
    }
  }

  /** The register after `m` is the one and only remainder of the division. */
  lemma FeedIsTheRemainder(r: register, m: bits, rem: register)
    ensures IsRemainder(r, m, rem) <==> rem == Feed(r, m)
  {
    var q := FeedQuotient(r, m);
    if IsRemainder(r, m, rem) {
      var p: bits :| Divides(r, m, p, rem);
      var d := Dividend(r, m);
      forall i | 0 <= i < |m| ensures TimesGenerator(p)[i] == d[i] && TimesGenerator(q)[i] == d[i] {
      }
      QuotientUnique(p, q);
      forall i | 0 <= i < 16 ensures rem[i] == Feed(r, m)[i] {
        assert d[|m| + i] == (TimesGenerator(p)[|m| + i] != rem[i]);
        assert d[|m| + i] == (TimesGenerator(q)[|m| + i] != Feed(r, m)[i]);
      }
    }
  }

  // ---------- The loops ----------

  /** One left shift of a uint16_t, folding 0x1021 in when the top bit leaves. */
  function ShiftOnce(c: u16): u16 {
    XorBound(2 * c % 0x1_0000, 0x1021, 16);
    Powers();
    if c >= 0x8000 then Xor(2 * c % 0x1_0000, 0x1021) else 2 * c % 0x1_0000
  }

  /** The same shift on the register. */
  function ShiftRegister(r: register): register {
    if r[0] then XorBits(r[1..] + [false], POLY) else r[1..] + [false]
  }

  /** Doubling modulo 2^w, with `h` what is left of `c` below its top bit. */
  lemma DoubledBits(c: nat, h: nat, w: nat)
    requires w > 0 && c < Pow2(w) && h == if c >= Pow2(w - 1) then c - Pow2(w - 1) else c
    ensures Low(2 * h, w) == Low(c, w)[1..] + [false]
    ensures Low(c, w)[0] == (c >= Pow2(w - 1))
  {
    LowTop(c, w);
    LowTail(c, w);
    LowDouble(h, w);
    if c >= Pow2(w - 1) {
      LowCarry(h, w - 1);
    }
  }

  lemma ShiftOnceBits(c: u16)
    ensures Low(ShiftOnce(c), 16) == ShiftRegister(Low(c, 16))
  {
    var h := if c >= 0x8000 then c - 0x8000 else c;
    assert 2 * c % 0x1_0000 == 2 * h;
    Powers();
    DoubledBits(c, h, 16);
    PolyBits();
    LowOfXor(2 * h, 0x1021, 16);
  }

  lemma PolyBits()
    ensures Low(0x1021, 16) == POLY
  {
    ValueAppend4([], false, false, false, true);
    ValueAppend4(POLY[..4], false, false, false, false);
    ValueAppend4(POLY[..8], false, false, true, false);
    ValueAppend4(POLY[..12], false, false, false, true);
    assert POLY[..4] == [] + [false, false, false, true];
    assert POLY[..8] == POLY[..4] + [false, false, false, false];
    assert POLY[..12] == POLY[..8] + [false, false, true, false];
    assert POLY == POLY[..12] + [false, false, false, true];
    assert Value(POLY) == 0x1021;
    LowOfValue(POLY);
  }

  /** A pending message prefix may be folded into the register up front. */
  lemma PendingShift(r: register, p: bits)
    requires 1 <= |p| <= 16
    ensures ShiftRegister(XorBits(r, p + Zeros(16 - |p|))) == XorBits(FeedBit(r, p[0]), p[1..] + Zeros(17 - |p|))
  {}

  /** The word stands for the register after `bit` bits of `p`, with the rest of `p` folded in. */
  predicate Holds(c: u16, r: register, p: bits, bit: nat) {
    |p| == 8 && bit <= 8 && Low(c, 16) == XorBits(Feed(r, p[..bit]), p[bit..] + Zeros(8 + bit))
  }

  lemma HoldsFirst(c: u16, b: byte, x: u16, w: nat)
    requires w == 8 && x == Xor(c, b * 256)
    ensures Holds(x, Low(c, w + w), Low(b, w), 0)
  {
    var r, p := Low(c, w + w), Low(b, w);
    Powers();
    LowOfXor(c, b * 256, w + w);
    LowSplit(b, 0, w, w);
    LowOfZero(w);
    assert p[..0] == [] && p[0..] == p;
  }

  lemma HoldsNext(c: u16, r: register, p: bits, bit: nat)
    requires Holds(c, r, p, bit) && bit < 8
    ensures Holds(ShiftOnce(c), r, p, bit + 1)
  {
    ShiftOnceBits(c);
    PendingShift(Feed(r, p[..bit]), p[bit..]);
    assert p[..bit + 1][..bit] == p[..bit] && p[bit..][1..] == p[bit + 1..];
  }

  lemma HoldsLast(x: u16, c: u16, b: byte, w: nat)
    requires w == 8 && Holds(x, Low(c, w + w), Low(b, w), 8)
    ensures x == CrcFrom(c, [b])
  {
    var r, p := Low(c, w + w), Low(b, w);
    assert p[..8] == p && p[8..] == [] && Low(x, w + w) == Feed(r, p);
    BitsOfByte(b);
    Powers();
    ValueOfLow(x, w + w);
  }

  /** crc16_update_byte, and the loop body of the one-shot checksum. */
  method UpdateByte(crc: u16, b: byte) returns (c: u16)
    ensures c == CrcFrom(crc, [b])
  {
    FoldedRange(crc, b);
    c := Xor(crc, b * 256);
    ghost var r, p := Low(crc, 16), Low(b, 8);
    HoldsFirst(crc, b, c, 8);
    var bit := 0;
    while bit < 8
      invariant 0 <= bit <= 8 && Holds(c, r, p, bit)
    {
      HoldsNext(c, r, p, bit);
      c := ShiftOnce(c);
      bit := bit + 1;
    }
    HoldsLast(c, crc, b, 8);
  }

  lemma FoldedRange(crc: u16, b: byte)
    ensures 0 <= Xor(crc, b * 256) < 0x1_0000
  {
    Powers();
    XorBound(crc, b * 256, 16);
  }

  /** The one-shot checksum loop. */
  method Crc16(data: array<byte>, len: nat) returns (crc: u16)
    requires len <= data.Length
    ensures crc == CrcOf(data[..len])
  {
    crc := INIT;
    Powers();
    ValueOfLow(INIT, 16);
    assert data[..0] == [];
    for i := 0 to len
      invariant crc == CrcOf(data[..i])
    {
      CrcAppend(INIT, data[..i], [data[i]]);
      assert data[..i] + [data[i]] == data[..i + 1];
      crc := UpdateByte(crc, data[i]);
    }
  }
}
