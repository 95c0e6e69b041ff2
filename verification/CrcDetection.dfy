/** Which transmission errors the checksum is certain to expose. */
module CrcDetection {
  import opened Words
  import opened Bits
  import opened Crc

  /** validate_frame_crc: the trailing little-endian checksum matches the bytes before it. */
  predicate ValidCrc(frame: seq<byte>) {
    |frame| >= 10 && Read16(frame, |frame| - 2) == CrcOf(frame[..|frame| - 2])
  }

  // ---------- Bursts ----------

  lemma FeedBitInjective(r: register, s: register, b: bool)
    requires FeedBit(r, b) == FeedBit(s, b)
    ensures r == s
  {
    var x, y := FeedBit(r, b), FeedBit(s, b);
    assert x[15] == (r[0] != b) && y[15] == (s[0] != b);
    assert r[0] == s[0];
    forall i | 1 <= i < 16 ensures r[i] == s[i] {
      assert x[i - 1] == y[i - 1];
    }
  }

  lemma {:induction false} FeedInjective(r: register, s: register, m: bits)
    requires Feed(r, m) == Feed(s, m)
    ensures r == s
  {
    if m != [] {
      var n := |m| - 1;
      FeedBitInjective(Feed(r, m[..n]), Feed(s, m[..n]), m[n]);
      FeedInjective(r, s, m[..n]);
    }
  }

  lemma FeedFirst(r: register, m: bits)
    requires m != []
    ensures Feed(r, m) == Feed(FeedBit(r, m[0]), m[1..])
  {
    FeedAppend(r, m[..1], m[1..]);
    assert m[..1] + m[1..] == m && m[..1][..0] == [];
    assert Feed(r, m[..1]) == FeedBit(Feed(r, []), m[0]);
  }

  /** Registers that meet again after `n` steps agreed on their low `16 - n` bits. */
  lemma {:induction false} MeetingRegisters(r: register, s: register, p: bits, q: bits)
    requires |p| == |q| <= 15 && Feed(r, p) == Feed(s, q)
    ensures r[|p|..] == s[|p|..]
    decreases |p|
  {
    var n := |p|;
    if n > 0 {
      FeedFirst(r, p);
      FeedFirst(s, q);
      var x, y := FeedBit(r, p[0]), FeedBit(s, q[0]);
      MeetingRegisters(x, y, p[1..], q[1..]);
      forall i | n - 1 <= i < 16 ensures x[i] == y[i] {
        assert x[n - 1..][i - (n - 1)] == y[n - 1..][i - (n - 1)];
      }
      assert x[15] == (r[0] != p[0]) && y[15] == (s[0] != q[0]);
      forall i | n <= i < 16 ensures r[i] == s[i] {
        assert x[i - 1] == y[i - 1];
      }
    }
  }

  /** `a` and `b` differ, and only inside the `width` positions from `lo` on. */
  ghost predicate DifferWithin(a: bits, b: bits, lo: nat, width: nat) {
    |a| == |b| && a != b && forall i :: 0 <= i < |a| && !(lo <= i < lo + width) ==> a[i] == b[i]
  }

  ghost predicate Burst(a: bits, b: bits) {
    exists lo: nat :: DifferWithin(a, b, lo, 16)
  }

  lemma FirstDifference(a: bits, b: bits) returns (k: nat)
    requires |a| == |b| && a != b
    ensures k < |a| && a[k] != b[k] && a[..k] == b[..k]
  {
    k := 0;
    while k < |a| && a[k] == b[k]
      invariant k <= |a| && a[..k] == b[..k]
      decreases |a| - k
    {
      k := k + 1;
    }
    assert a == a[..|a|] && b == b[..|a|];
  }

  lemma RegistersStayApart(r: register, s: register, p: bits, q: bits)
    requires |p| == |q| <= 15 && r[15] != s[15]
    ensures Feed(r, p) != Feed(s, q)
  {
    assert r[|p|..][15 - |p|] == r[15] && s[|p|..][15 - |p|] == s[15];
    if Feed(r, p) == Feed(s, q) {
      MeetingRegisters(r, s, p, q);
      assert false;
    }
  }

  lemma WindowChangesRegister(s: register, a: bits, b: bits)
    requires 1 <= |a| == |b| <= 16 && a[0] != b[0]
    ensures Feed(s, a) != Feed(s, b)
  {
    FeedFirst(s, a);
    FeedFirst(s, b);
    var x, y := FeedBit(s, a[0]), FeedBit(s, b[0]);
    assert x[15] == (s[0] != a[0]) && y[15] == (s[0] != b[0]);
    RegistersStayApart(x, y, a[1..], b[1..]);
  }

  /** A burst of at most 16 bits always changes the register. */
  lemma BurstChangesRegister(r: register, a: bits, b: bits, lo: nat)
    requires DifferWithin(a, b, lo, 16)
    ensures Feed(r, a) != Feed(r, b)
  {
    var k := FirstDifference(a, b);
    var end := if lo + 16 < |a| then lo + 16 else |a|;
    assert lo <= k < end;
    WindowChangesRegister(Feed(r, a[..k]), a[k..end], b[k..end]);
    FeedThrice(r, a, k, end);
    FeedThrice(r, b, k, end);
    assert a[end..] == b[end..];
    if Feed(r, a) == Feed(r, b) {
      FeedInjective(Feed(Feed(r, a[..k]), a[k..end]), Feed(Feed(r, a[..k]), b[k..end]), a[end..]);
    }
  }

  lemma FeedThrice(r: register, m: bits, i: nat, j: nat)
    requires i <= j <= |m|
    ensures Feed(r, m) == Feed(Feed(Feed(r, m[..i]), m[i..j]), m[j..])
  {
    FeedAppend(r, m[..i], m[i..j]);
    FeedAppend(r, m[..j], m[j..]);
    assert m[..j] == m[..i] + m[i..j] && m == m[..j] + m[j..];
  }

  /** `g` is `f` damaged inside 16 consecutive bits before the footer. */
  ghost predicate BurstDamage(f: seq<byte>, g: seq<byte>) {
    |f| == |g| >= 2 && f[|f| - 2..] == g[|g| - 2..] && Burst(BitsOf(f[..|f| - 2]), BitsOf(g[..|g| - 2]))
  }

  lemma DifferentMessagesDifferentCrc(m: seq<byte>, m': seq<byte>)
    requires Burst(BitsOf(m), BitsOf(m'))
    ensures CrcOf(m) != CrcOf(m')
  {
    var lo: nat :| DifferWithin(BitsOf(m), BitsOf(m'), lo, 16);
    BurstChangesRegister(Low(INIT, 16), BitsOf(m), BitsOf(m'), lo);
    CrcBits(INIT, m);
    CrcBits(INIT, m');
  }

  // ---------- Which damage goes unseen ----------

  lemma FeedBitLinear(r: register, s: register, b: bool, c: bool)
    ensures FeedBit(XorBits(r, s), b != c) == XorBits(FeedBit(r, b), FeedBit(s, c))
  {}

  lemma {:induction false} FeedLinear(r: register, s: register, m: bits, n: bits)
    requires |m| == |n|
    ensures Feed(XorBits(r, s), XorBits(m, n)) == XorBits(Feed(r, m), Feed(s, n))
  {
    if m == [] {
    } else {
      var k := |m| - 1;
      FeedLinear(r, s, m[..k], n[..k]);
      assert XorBits(m, n)[..k] == XorBits(m[..k], n[..k]);
      FeedBitLinear(Feed(r, m[..k]), Feed(s, n[..k]), m[k], n[k]);
    }
  }

  lemma SameBits(a: u16, b: u16, w: nat)
    requires w == 16 && Low(a, w) == Low(b, w)
    ensures a == b
  {
    Powers();
    ValueOfLow(a, w);
    ValueOfLow(b, w);
  }

  /** The flipped bits before the footer, and those of the checksum the footer holds. */
  function MessageFlips(f: seq<byte>, g: seq<byte>): bits
    requires |g| == |f| >= 2
  {
    XorBits(BitsOf(f[..|f| - 2]), BitsOf(g[..|f| - 2]))
  }

  function FooterFlips(f: seq<byte>, g: seq<byte>): register
    requires |g| == |f| >= 2
  {
    XorBits(Low(Read16(f, |f| - 2), 16), Low(Read16(g, |f| - 2), 16))
  }

  lemma XorCancels(r: register, s: register, x: register)
    ensures XorBits(r, s) == XorBits(r, x) <==> s == x
    ensures XorBits(r, r) == Zeros(16)
  {
    if XorBits(r, s) == XorBits(r, x) {
      forall i | 0 <= i < 16 ensures s[i] == x[i] {
        assert XorBits(r, s)[i] == XorBits(r, x)[i];
      }
    }
  }

  lemma FlippedChecksums(m: seq<byte>, m': seq<byte>)
    requires |m'| == |m|
    ensures Feed(Zeros(16), XorBits(BitsOf(m), BitsOf(m'))) == XorBits(Low(CrcOf(m), 16), Low(CrcOf(m'), 16))
  {
    CrcBits(INIT, m);
    CrcBits(INIT, m');
    var start := Low(INIT, 16);
    XorCancels(start, start, start);
    FeedLinear(start, start, BitsOf(m), BitsOf(m'));
  }

  /**
   Damage to a valid frame goes unseen exactly when the flipped bits before
   the footer, fed from zero, give the flipped bits of the checksum: a
   condition on the damage alone, the same for every frame of a length.
   */
  lemma UndetectedExactly(f: seq<byte>, g: seq<byte>)
    requires ValidCrc(f) && |g| == |f|
    ensures ValidCrc(g) <==> Feed(Zeros(16), MessageFlips(f, g)) == FooterFlips(f, g)
  {
    var n := |f| - 2;
    var c, c', footer := CrcOf(f[..n]), CrcOf(g[..n]), Read16(g, n);
    FlippedChecksums(f[..n], g[..n]);
    XorCancels(Low(c, 16), Low(c', 16), Low(footer, 16));
    if Low(c', 16) == Low(footer, 16) {
      SameBits(c', footer, 16);
    }
  }

  lemma {:induction false} FeedZeros(n: nat)
    ensures Feed(Zeros(16), Zeros(n)) == Zeros(16)
  {
    if n > 0 {
      FeedZeros(n - 1);
      assert Zeros(n)[..n - 1] == Zeros(n - 1);
    }
  }

  /** A burst before the footer is no such damage. */
  lemma BurstDetected(f: seq<byte>, g: seq<byte>)
    requires ValidCrc(f) && BurstDamage(f, g)
    ensures !ValidCrc(g)
  {
    var n := |f| - 2;
    var a, b, flips := BitsOf(f[..n]), BitsOf(g[..n]), MessageFlips(f, g);
    var lo: nat :| DifferWithin(a, b, lo, 16);
    var k := FirstDifference(a, b);
    assert flips[k] && DifferWithin(flips, Zeros(|flips|), lo, 16);
    BurstChangesRegister(Zeros(16), flips, Zeros(|flips|), lo);
    FeedZeros(|flips|);
    FooterKept(f, g);
    UndetectedExactly(f, g);
  }

  lemma FooterKept(f: seq<byte>, g: seq<byte>)
    requires |g| == |f| >= 2 && f[|f| - 2..] == g[|f| - 2..]
    ensures FooterFlips(f, g) == Zeros(16)
  {
    var n := |f| - 2;
    assert f[n] == f[n..][0] && g[n] == g[n..][0] && f[n + 1] == f[n..][1] && g[n + 1] == g[n..][1];
    var footer := Low(Read16(f, n), 16);
    XorCancels(footer, footer, footer);
  }

  // ---------- Odd numbers of flipped bits ----------

  lemma ParityOfPoly()
    ensures Parity(POLY)
  {
    var z, o := [false, false, false, true], [false, false, true, false];
    ParityAppend([], z);
    ParityOf4(false, false, false, true);
    ParityOf4(false, false, false, false);
    ParityOf4(false, false, true, false);
    var zero := [false, false, false, false];
    ParityAppend(z, zero);
    ParityAppend(z + zero, o);
    ParityAppend(z + zero + o, z);
    assert POLY == z + zero + o + z;
  }

  lemma ParityOf4(a: bool, b: bool, c: bool, d: bool)
    ensures Parity([a, b, c, d]) == ((a != b) != (c != d))
  {
    var x := [a, b, c, d];
    assert x[..3] == [a, b, c] && [a, b, c][..2] == [a, b] && [a, b][..1] == [a] && [a][..0] == [];
    assert Parity([a]) == a;
    assert Parity([a, b]) == (a != b);
    assert Parity([a, b, c]) == ((a != b) != c);
  }

  lemma FeedBitParity(r: register, b: bool)
    ensures Parity(FeedBit(r, b)) == (Parity(r) != b)
  {
    var shifted := r[1..] + [false];
    assert r == r[..1] + r[1..] && r[..1][..0] == [] && [false][..0] == [];
    ParityAppend(r[..1], r[1..]);
    ParityAppend(r[1..], [false]);
    ParityXor(shifted, POLY);
    ParityOfPoly();
  }

  lemma {:induction false} FeedParity(r: register, m: bits)
    ensures Parity(Feed(r, m)) == (Parity(r) != Parity(m))
  {
    if m != [] {
      FeedParity(r, m[..|m| - 1]);
      FeedBitParity(Feed(r, m[..|m| - 1]), m[|m| - 1]);
    }
  }

  /** 2^w - 1. */
  function AllOnes(w: nat): nat {
    if w == 0 then 0 else 2 * AllOnes(w - 1) + 1
  }

  lemma HalfOfOdd(m: nat, n: nat)
    requires m == 2 * n + 1
    ensures m / 2 == n && m % 2 == 1
  {}

  lemma LowOdd(m: nat, n: nat, w: nat)
    requires w > 0 && m / 2 == n && m % 2 == 1
    ensures Low(m, w) == Low(n, w - 1) + [true]
  {}

  lemma ParityOfOdd(m: nat, n: nat, w: nat)
    requires w > 0 && m == 2 * n + 1
    ensures Parity(Low(m, w)) == !Parity(Low(n, w - 1))
  {
    HalfOfOdd(m, n);
    LowOdd(m, n, w);
    ParityNext(Low(n, w - 1), true);
  }

  predicate Odd(w: nat) {
    w > 0 && !Odd(w - 1)
  }

  lemma {:induction false} ParityOfOnes(m: nat, w: nat)
    requires m == AllOnes(w)
    ensures Parity(Low(m, w)) == Odd(w)
  {
    if w > 0 {
      var n := AllOnes(w - 1);
      ParityOfOnes(n, w - 1);
      ParityOfOdd(m, n, w);
    }
  }

  lemma InitIsOnes()
    ensures AllOnes(16) == 0xFFFF
  {
    assert AllOnes(4) == 0xF;
    assert AllOnes(8) == 0xFF;
    assert AllOnes(12) == 0xFFF;
  }

  lemma ParityNext(a: bits, b: bool)
    ensures Parity(a + [b]) == (Parity(a) != b)
  {
    assert (a + [b])[..|a|] == a;
  }

  /** The parity of the checksum is the parity of the message, at every length. */
  lemma CrcParity(m: seq<byte>)
    ensures Parity(Low(CrcOf(m), 16)) == Parity(BitsOf(m))
  {
    InitParity(16);
    CrcBits(INIT, m);
    FeedParity(Low(INIT, 16), BitsOf(m));
  }

  lemma SixteenIsEven()
    ensures !Odd(16)
  {
    assert !Odd(4);
    assert !Odd(8);
    assert !Odd(12);
  }

  lemma InitParity(w: nat)
    requires w == 16
    ensures !Parity(Low(INIT, w))
  {
    InitIsOnes();
    SixteenIsEven();
    ParityOfOnes(INIT, w);
  }

  lemma FooterBits(lo: byte, hi: byte)
    ensures BitsOf([lo, hi]) == Low(lo, 8) + Low(hi, 8)
  {
    BitsOfAppend([lo], [hi]);
    BitsOfByte(lo);
    BitsOfByte(hi);
    assert [lo, hi] == [lo] + [hi];
  }

  lemma FooterParity(lo: byte, hi: byte, c: u16)
    requires c == 256 * hi + lo
    ensures Parity(BitsOf([lo, hi])) == Parity(Low(c, 16))
  {
    FooterBits(lo, hi);
    var x, y := Low(lo, 8), Low(hi, 8);
    ParitySwap(x, y);
    assert Low(c, 16) == y + x by { LowBytes(hi, lo, 8); }
  }

  lemma EvenWithFooter(m: seq<byte>, lo: byte, hi: byte)
    requires CrcOf(m) == 256 * hi + lo
    ensures !Parity(BitsOf(m + [lo, hi]))
  {
    BitsOfAppend(m, [lo, hi]);
    ParityAppend(BitsOf(m), BitsOf([lo, hi]));
    CrcParity(m);
    FooterParity(lo, hi, CrcOf(m));
  }

  lemma SplitFooter(f: seq<byte>)
    requires |f| >= 2
    ensures var n := |f| - 2; f == f[..n] + [f[n], f[n + 1]]
  {}

  lemma ChecksumOf(f: seq<byte>)
    requires ValidCrc(f)
    ensures var n := |f| - 2; CrcOf(f[..n]) == 256 * f[n + 1] as int + f[n]
  {}

  /** Every valid frame, footer included, holds an even number of one bits. */
  lemma ValidFrameIsEven(f: seq<byte>)
    requires ValidCrc(f)
    ensures !Parity(BitsOf(f))
  {
    var n := |f| - 2;
    SplitFooter(f);
    ChecksumOf(f);
    EvenWithFooter(f[..n], f[n], f[n + 1]);
  }

  /** `g` is `f` with an odd number of bits flipped, anywhere. */
  predicate OddDamage(f: seq<byte>, g: seq<byte>) {
    |f| == |g| && Distance(BitsOf(f), BitsOf(g)) % 2 == 1
  }

  lemma OddDetected(f: seq<byte>, g: seq<byte>)
    requires ValidCrc(f) && OddDamage(f, g)
    ensures !ValidCrc(g)
  {
    ValidFrameIsEven(f);
    DistanceParity(BitsOf(f), BitsOf(g));
    if ValidCrc(g) {
      ValidFrameIsEven(g);
    }
  }

  // ---------- A burst across the footer ----------

  lemma ShiftStep(p: register, j: nat)
    requires j < 16
    ensures FeedBit(p[j..] + Zeros(j), p[j]) == p[j + 1..] + Zeros(j + 1)
  {}

  /** Feeding a register its own leading bits only shifts it. */
  lemma {:induction false} FeedOwnBits(p: register, k: nat)
    requires k <= 16
    ensures Feed(p, p[..k]) == p[k..] + Zeros(k)
  {
    if k > 0 {
      FeedOwnBits(p, k - 1);
      ShiftStep(p, k - 1);
      assert p[..k][..k - 1] == p[..k - 1];
    }
  }

  lemma ValueOfHalves(hi: bits, lo: bits)
    requires |hi| == |lo| == 4
    ensures Value(hi + lo) == 16 * Value([] + hi) + Value([] + lo)
  {
    ValueAppend4(hi, lo[0], lo[1], lo[2], lo[3]);
    ValueAppend4([], lo[0], lo[1], lo[2], lo[3]);
    assert [lo[0], lo[1], lo[2], lo[3]] == lo && [] + hi == hi;
  }

  lemma BitsOfNumber(hi: bits, lo: bits, n: nat, w: nat)
    requires |hi| == |lo| == 4 && w == 8
    requires n == 16 * Value([] + hi) + Value([] + lo)
    ensures Low(n, w) == hi + lo
  {
    ValueOfHalves(hi, lo);
    LowOfValue(hi + lo);
    assert |hi + lo| == w;
  }

  lemma HighPattern(w: nat)
    requires w == 8
    ensures Low(0x89, w) == [true] + POLY[..6] + [true]
  {
    ValueAppend4([], true, false, false, false);
    ValueAppend4([], true, false, false, true);
    BitsOfNumber([true, false, false, false], [true, false, false, true], 0x89, w);
  }

  lemma LowPattern(w: nat)
    requires w == 8
    ensures Low(0xA1, w) == [true, false, true, false, false, false, false, true]
  {
    ValueAppend4([], true, false, true, false);
    ValueAppend4([], false, false, false, true);
    BitsOfNumber([true, false, true, false], [false, false, false, true], 0xA1, w);
  }

  lemma FeedPattern(w: nat)
    requires w == 8
    ensures Feed(Zeros(16), Low(0x89, w)) == Zeros(w) + Low(0xA1, w)
  {
    HighPattern(w);
    LowPattern(w);
    var m := [true] + POLY[..6];
    assert Feed(Zeros(16), m) == POLY[6..] + Zeros(6) by {
      FeedFirst(Zeros(16), m);
      assert m[1..] == POLY[..6] && FeedBit(Zeros(16), true) == POLY;
      FeedOwnBits(POLY, 6);
    }
    assert (m + [true])[..7] == m;
    assert Feed(Zeros(16), m + [true]) == FeedBit(POLY[6..] + Zeros(6), true);
  }

  /** `g` is `f` with 0x89 flipped in the last payload byte and 0xA1 in the first footer byte. */
  ghost predicate StraddlingDamage(f: seq<byte>, g: seq<byte>) {
    var n := |f| - 2;
    && |g| == |f| >= 10
    && g[..n - 1] == f[..n - 1]
    && g[n - 1] == Xor(f[n - 1], 0x89) && g[n] == Xor(f[n], 0xA1) && g[n + 1] == f[n + 1]
  }

  lemma StraddlingFlips(m: seq<byte>, b: byte, d: byte)
    requires d == Xor(b, 0x89)
    ensures XorBits(BitsOf(m + [b]), BitsOf(m + [d])) == Zeros(8 * |m|) + Low(0x89, 8)
  {
    BitsOfAppend(m, [b]);
    BitsOfAppend(m, [d]);
    BitsOfByte(b);
    BitsOfByte(d);
    LowOfXor(b, 0x89, 8);
    FlipLast(BitsOf(m), Low(b, 8), Low(d, 8), Low(0x89, 8));
  }

  lemma FlipLast(m: bits, b: bits, d: bits, x: bits)
    requires |b| == |x| && d == XorBits(b, x)
    ensures XorBits(m + b, m + d) == Zeros(|m|) + x
  {
    forall i | 0 <= i < |m| + |b| ensures XorBits(m + b, m + d)[i] == (Zeros(|m|) + x)[i] {
      if i >= |m| {
        assert (m + b)[i] == b[i - |m|] && (m + d)[i] == d[i - |m|];
      }
    }
  }

  lemma XoredFooter(hi: byte, lo: byte, lo': byte, w: nat)
    requires w == 8 && lo' == Xor(lo, 0xA1)
    ensures XorBits(Low(256 * hi + lo, w + w), Low(256 * hi + lo', w + w)) == Zeros(w) + Low(0xA1, w)
    ensures lo' != lo
  {
    LowOfXor(lo, 0xA1, w);
    LowBytes(hi, lo, w);
    LowBytes(hi, lo', w);
    FlipLast(Low(hi, w), Low(lo, w), Low(lo', w), Low(0xA1, w));
    LowPattern(w);
    assert Low(lo', w)[0] != Low(lo, w)[0];
  }

  lemma StraddlingFed(n: nat)
    ensures Feed(Zeros(16), Zeros(n) + Low(0x89, 8)) == Zeros(8) + Low(0xA1, 8)
  {
    FeedAppend(Zeros(16), Zeros(n), Low(0x89, 8));
    FeedZeros(n);
    FeedPattern(8);
  }

  lemma StraddlingMessage(m: seq<byte>, b: byte, d: byte)
    requires d == Xor(b, 0x89)
    ensures Feed(Zeros(16), XorBits(BitsOf(m + [b]), BitsOf(m + [d]))) == Zeros(8) + Low(0xA1, 8)
  {
    StraddlingFlips(m, b, d);
    StraddlingFed(8 * |m|);
  }

  lemma FooterWord(f: seq<byte>, n: nat)
    requires |f| == n + 2
    ensures Read16(f, n) == 256 * (f[n + 1] as int) + f[n]
  {}

  lemma FlippedFooter(f: seq<byte>, g: seq<byte>, n: nat, w: nat)
    requires w == 8 && |f| == |g| == n + 2 && g[n + 1] == f[n + 1] && g[n] == Xor(f[n], 0xA1)
    ensures XorBits(Low(Read16(f, n), w + w), Low(Read16(g, n), w + w)) == Zeros(w) + Low(0xA1, w)
    ensures g[n] != f[n]
  {
    FooterWord(f, n);
    FooterWord(g, n);
    XoredFooter(f[n + 1], f[n], g[n], w);
  }

  lemma StraddlingChecksum(f: seq<byte>, g: seq<byte>)
    requires StraddlingDamage(f, g)
    ensures FooterFlips(f, g) == Zeros(8) + Low(0xA1, 8) && g != f
  {
    FlippedFooter(f, g, |f| - 2, 8);
  }

  /**
   This damage spans 16 consecutive bits across the footer and turns every
   valid frame into another valid frame.
   */
  lemma StraddlingBurstUndetected(f: seq<byte>, g: seq<byte>)
    requires ValidCrc(f) && StraddlingDamage(f, g)
    ensures ValidCrc(g) && g != f
  {
    var n := |f| - 2;
    assert f[..n] == f[..n - 1] + [f[n - 1]] && g[..n] == f[..n - 1] + [g[n - 1]];
    StraddlingMessage(f[..n - 1], f[n - 1], g[n - 1]);
    StraddlingChecksum(f, g);
    UndetectedExactly(f, g);
  }
}
