/**
 How far the register runs before it repeats: 32767 steps. So any two flipped
 bits of a frame of up to 4095 bytes are detected, and with the parity theorem
 any one, two or three.
 */
module CrcOrder {
  import opened Words
  import opened Bits
  import opened Crc
  import opened CrcDetection
  import opened Residues
  import opened Ladder
  import opened Periods

  // ---------- Registers and residues ----------

  function AsRegister(w: Word16): register {
    seq(16, i requires 0 <= i < 16 => Coefficient(w, i))
  }

  function AsWord(r: register): Word16 {
    W(r[0], r[1], r[2], r[3], r[4], r[5], r[6], r[7], r[8], r[9], r[10], r[11], r[12], r[13], r[14], r[15])
  }

  lemma WordOfRegister(r: register)
    ensures AsRegister(AsWord(r)) == r
  {
    forall i | 0 <= i < 16 ensures AsRegister(AsWord(r))[i] == r[i] {
      assert AsRegister(AsWord(r))[i] == Coefficient(AsWord(r), i);
    }
  }

  lemma RegisterOfWord(w: Word16)
    ensures AsWord(AsRegister(w)) == w
  {}

  lemma SameWord(v: Word16, w: Word16)
    requires AsRegister(v) == AsRegister(w)
    ensures v == w
  {
    RegisterOfWord(v);
    RegisterOfWord(w);
  }

  lemma PolyAt(i: nat)
    requires i < 16
    ensures POLY[i] == (i == 3 || i == 10 || i == 15)
  {}

  lemma ShiftIsFeed(w: Word16)
    ensures AsRegister(Shift(w)) == FeedBit(AsRegister(w), false)
  {
    forall i | 0 <= i < 16 ensures AsRegister(Shift(w))[i] == FeedBit(AsRegister(w), false)[i] {
      PolyAt(i);
      ShiftedAt(w, i);
      FedAt(AsRegister(w), i);
    }
  }

  lemma FedAt(r: register, i: nat)
    requires i < 16
    ensures FeedBit(r, false)[i] == ((i < 15 && r[i + 1]) != (r[0] && POLY[i]))
  {}

  // ---------- Powers of x ----------

  /** x^n modulo the generator. */
  function Power(n: nat): register {
    Feed(AsRegister(ONE), Zeros(n))
  }

  lemma PowerNext(n: nat)
    ensures Power(n + 1) == FeedBit(Power(n), false)
  {
    assert Zeros(n + 1)[..n] == Zeros(n);
  }

  lemma PowerSum(m: nat, n: nat)
    ensures Power(m + n) == Feed(Power(m), Zeros(n))
  {
    assert Zeros(m + n) == Zeros(m) + Zeros(n);
    FeedAppend(AsRegister(ONE), Zeros(m), Zeros(n));
  }

  lemma ShiftedPower(n: nat, w: Word16)
    requires AsRegister(w) == Power(n)
    ensures AsRegister(Shift(w)) == Power(n + 1)
  {
    ShiftIsFeed(w);
    PowerNext(n);
  }

  lemma {:induction false} SquarePower(n: nat, w: Word16)
    requires AsRegister(w) == Power(n)
    ensures AsRegister(Square(w)) == Power(2 * n)
  {
    if n == 0 {
      SameWord(w, ONE);
      SquareOfOne();
    } else {
      var v := Before(n, w);
      SquarePower(n - 1, v);
      SquareOfShift(v);
      ShiftedPower(2 * n - 2, Square(v));
      ShiftedPower(2 * n - 1, Shift(Square(v)));
    }
  }

  lemma Before(n: nat, w: Word16) returns (v: Word16)
    requires n > 0 && AsRegister(w) == Power(n)
    ensures AsRegister(v) == Power(n - 1) && w == Shift(v)
  {
    v := AsWord(Power(n - 1));
    WordOfRegister(Power(n - 1));
    ShiftedPower(n - 1, v);
    SameWord(w, Shift(v));
  }

  lemma {:induction false} XPowerIsPower(n: nat)
    ensures AsRegister(XPower(n)) == Power(n)
  {
    if n > 0 {
      var w, half := XPower(n / 2), n / 2;
      XPowerIsPower(half);
      SquarePower(half, w);
      if n % 2 == 1 {
        assert n == 2 * half + 1;
        ShiftedPower(2 * half, Square(w));
      } else {
        assert n == 2 * half;
      }
    }
  }

  // ---------- The order of x ----------

  /** x^n is 1. */
  predicate Period(n: nat) {
    Power(n) == AsRegister(ONE)
  }

  lemma PeriodIsOne(n: nat)
    ensures Period(n) <==> XPower(n) == ONE
  {
    XPowerIsPower(n);
    if Period(n) {
      SameWord(XPower(n), ONE);
    }
  }

  lemma PeriodAdds(a: nat, b: nat)
    ensures Adds(Period, a, b)
  {
    if Period(b) {
      PowerSum(b, a);
    }
  }

  /** Equal powers mean that their distance is a period. */
  lemma PowerCancel(a: nat, d: nat)
    ensures Power(a + d) == Power(a) <==> Period(d)
  {
    PowerSum(d, a);
    if Power(a + d) == Power(a) {
      FeedInjective(Power(d), AsRegister(ONE), Zeros(a));
    }
  }

  /** The powers of x repeat with period 32767 and no shorter one. */
  lemma OrderOfX(d: nat)
    ensures Period(d) <==> d % 32767 == 0
  {
    forall a: nat, b: nat ensures Adds(Period, a, b) {
      PeriodAdds(a, b);
    }
    KnownPeriods(32767, 4681, 1057, 217);
    OnlyMultiples(Period, d);
  }

  lemma KnownPeriods(n: nat, a: nat, b: nat, c: nat)
    requires n == 32767 && a == 4681 && b == 1057 && c == 217
    ensures Period(n) && !Period(a) && !Period(b) && !Period(c)
  {
    XPower32767();
    XPower4681();
    XPower1057();
    XPower217();
    PeriodIsOne(n);
    PeriodIsOne(a);
    PeriodIsOne(b);
    PeriodIsOne(c);
  }

  // ---------- Two flipped bits ----------

  /** Flips of a frame in register order: those before the footer, then those of the checksum. */
  function Flips(f: seq<byte>, g: seq<byte>): bits
    requires |g| == |f| >= 2
  {
    MessageFlips(f, g) + FooterFlips(f, g)
  }

  /** Damage goes unseen exactly when its flips, all fed from zero, lead back to zero. */
  lemma UndetectedIsZero(f: seq<byte>, g: seq<byte>)
    requires ValidCrc(f) && |g| == |f|
    ensures ValidCrc(g) <==> Feed(Zeros(16), Flips(f, g)) == Zeros(16)
  {
    var m, c := MessageFlips(f, g), FooterFlips(f, g);
    UndetectedExactly(f, g);
    FeedAppend(Zeros(16), m, c);
    FeedOwnBits(c, 16);
    assert c[..16] == c;
    if Feed(Feed(Zeros(16), m), c) == Zeros(16) {
      FeedInjective(Feed(Zeros(16), m), c, c);
    }
  }

  function TwoFlips(i: nat, d: nat, k: nat): bits {
    Zeros(i) + [true] + Zeros(d) + [true] + Zeros(k)
  }

  /** Two flips `d + 1` apart lead back to zero exactly when x^(d+1) is 1. */
  lemma TwoFlipsFed(i: nat, d: nat, k: nat)
    ensures Feed(Zeros(16), TwoFlips(i, d, k)) == Zeros(16) <==> Period(d + 1)
  {
    var z := Zeros(16);
    var front := Zeros(i) + [true] + Zeros(d) + [true];
    TwoFlipsFront(i, d);
    FeedAppend(z, front, Zeros(k));
    FeedZeros(k);
    if Feed(Feed(z, front), Zeros(k)) == z {
      FeedInjective(Feed(z, front), z, Zeros(k));
    }
  }

  lemma TwoFlipsFront(i: nat, d: nat)
    ensures Feed(Zeros(16), Zeros(i) + [true] + Zeros(d) + [true]) == Zeros(16) <==> Period(d + 1)
  {
    var z := Zeros(16);
    FeedZeros(i);
    FeedAppend(z, Zeros(i), [true]);
    FeedOne(z);
    FirstFlip(16);
    FeedAppend(z, Zeros(i) + [true], Zeros(d));
    PowerSum(16, d);
    FeedAppend(z, Zeros(i) + [true] + Zeros(d), [true]);
    FeedOne(Power(16 + d));
    SecondFlip(d, 16);
  }

  lemma FeedOne(r: register)
    ensures Feed(r, [true]) == FeedBit(r, true)
  {
    assert [true][..0] == [];
  }

  lemma FirstFlip(n: nat)
    requires n == 16
    ensures FeedBit(Zeros(16), true) == Power(n)
  {
    XPower16();
    XPowerIsPower(n);
    GeneratorWord();
  }

  lemma GeneratorWord()
    ensures AsRegister(Hex(1, 0, 2, 1)) == FeedBit(Zeros(16), true)
  {
    forall i | 0 <= i < 16 ensures AsRegister(Hex(1, 0, 2, 1))[i] == FeedBit(Zeros(16), true)[i] {
      PolyAt(i);
    }
  }

  lemma SecondFlip(d: nat, n: nat)
    requires n == 16
    ensures FeedBit(Power(n + d), true) == Zeros(16) <==> Period(d + 1)
  {
    PowerNext(n + d);
    FlipBit(Power(n + d));
    FirstFlip(n);
    XorIsZero(FeedBit(Power(n + d), false), Power(n));
    PowerCancel(n, d + 1);
  }

  lemma FlipBit(r: register)
    ensures FeedBit(r, true) == XorBits(FeedBit(r, false), FeedBit(Zeros(16), true))
  {}

  lemma XorIsZero(r: register, s: register)
    ensures XorBits(r, s) == Zeros(16) <==> r == s
  {
    if XorBits(r, s) == Zeros(16) {
      forall i | 0 <= i < 16 ensures r[i] == s[i] {
        assert XorBits(r, s)[i] == Zeros(16)[i];
      }
    }
  }

  // ---------- Counting flips ----------

  function Weight(c: bits): nat {
    Distance(c, Zeros(|c|))
  }

  lemma WeightLast(c: bits)
    requires c != []
    ensures Weight(c) == Weight(c[..|c| - 1]) + (if c[|c| - 1] then 1 else 0)
  {
    assert Zeros(|c|)[..|c| - 1] == Zeros(|c| - 1);
  }

  lemma {:induction false} NoWeight(c: bits)
    requires Weight(c) == 0
    ensures c == Zeros(|c|)
  {
    if c != [] {
      WeightLast(c);
      NoWeight(c[..|c| - 1]);
      assert c == c[..|c| - 1] + [c[|c| - 1]];
    }
  }

  lemma {:induction false} OneFlip(c: bits) returns (i: nat)
    requires Weight(c) == 1
    ensures i < |c| && c == Zeros(i) + [true] + Zeros(|c| - 1 - i)
  {
    var n := |c| - 1;
    WeightLast(c);
    if c[n] {
      NoWeight(c[..n]);
      i := n;
    } else {
      i := OneFlip(c[..n]);
    }
    assert c == c[..n] + [c[n]];
  }

  lemma {:induction false} FlipsOfWeightTwo(c: bits) returns (i: nat, d: nat)
    requires Weight(c) == 2
    ensures i + d + 2 <= |c| && c == TwoFlips(i, d, |c| - 2 - i - d)
  {
    var n := |c| - 1;
    WeightLast(c);
    if c[n] {
      i := OneFlip(c[..n]);
      d := n - 1 - i;
    } else {
      i, d := FlipsOfWeightTwo(c[..n]);
    }
    assert c == c[..n] + [c[n]];
  }

  lemma {:induction false} DistanceAppend(a: bits, b: bits, c: bits, d: bits)
    requires |a| == |b| && |c| == |d|
    ensures Distance(a + c, b + d) == Distance(a, b) + Distance(c, d)
  {
    if c == [] {
      assert a + c == a && b + d == b;
    } else {
      var n := |c| - 1;
      DistanceAppend(a, b, c[..n], d[..n]);
      assert (a + c)[..|a + c| - 1] == a + c[..n] && (b + d)[..|b + d| - 1] == b + d[..n];
    }
  }

  lemma {:induction false} WeightOfXor(a: bits, b: bits)
    requires |a| == |b|
    ensures Weight(XorBits(a, b)) == Distance(a, b)
  {
    if a != [] {
      var n := |a| - 1;
      WeightOfXor(a[..n], b[..n]);
      WeightLast(XorBits(a, b));
      assert XorBits(a, b)[..n] == XorBits(a[..n], b[..n]);
    }
  }

  /** Register order moves the two footer bytes about but keeps the number of flips. */
  lemma FlipsCount(f: seq<byte>, g: seq<byte>)
    requires |g| == |f| >= 2
    ensures |Flips(f, g)| == 8 * |f| && Weight(Flips(f, g)) == Distance(BitsOf(f), BitsOf(g))
  {
    var n := |f| - 2;
    FlipsParts(f, g, 8);
    FrameBits(f, 8);
    FrameBits(g, 8);
    PartsCount(BitsOf(f[..n]), BitsOf(g[..n]), Low(f[n], 8), Low(g[n], 8), Low(f[n + 1], 8), Low(g[n + 1], 8));
  }

  lemma FlipsParts(f: seq<byte>, g: seq<byte>, w: nat)
    requires |g| == |f| >= 2 && w == 8
    ensures var n := |f| - 2;
            Flips(f, g) == XorBits(BitsOf(f[..n]), BitsOf(g[..n]))
                           + XorBits(Low(f[n + 1], w) + Low(f[n], w), Low(g[n + 1], w) + Low(g[n], w))
  {
    FooterRegister(f, w);
    FooterRegister(g, w);
  }

  lemma PartsCount(m: bits, m': bits, x: bits, x': bits, y: bits, y': bits)
    requires |m| == |m'| && |x| == |x'| && |y| == |y'|
    ensures Weight(XorBits(m, m') + XorBits(y + x, y' + x')) == Distance(m + (x + y), m' + (x' + y'))
  {
    WeightAppend(XorBits(m, m'), XorBits(y + x, y' + x'));
    WeightOfXor(m, m');
    WeightOfXor(y + x, y' + x');
    DistanceAppend(y, y', x, x');
    DistanceAppend(x, x', y, y');
    DistanceAppend(m, m', x + y, x' + y');
  }

  lemma FooterRegister(f: seq<byte>, w: nat)
    requires |f| >= 2 && w == 8
    ensures var n := |f| - 2; Low(Read16(f, n), w + w) == Low(f[n + 1], w) + Low(f[n], w)
  {
    var lo: int, hi: int := f[|f| - 2], f[|f| - 1];
    assert Read16(f, |f| - 2) == 256 * hi + lo;
    LowBytes(f[|f| - 1], f[|f| - 2], w);
  }

  lemma WeightAppend(a: bits, b: bits)
    ensures Weight(a + b) == Weight(a) + Weight(b)
  {
    assert Zeros(|a + b|) == Zeros(|a|) + Zeros(|b|);
    DistanceAppend(a, Zeros(|a|), b, Zeros(|b|));
  }

  lemma FrameBits(f: seq<byte>, w: nat)
    requires |f| >= 2 && w == 8
    ensures var n := |f| - 2; BitsOf(f) == BitsOf(f[..n]) + (Low(f[n], w) + Low(f[n + 1], w))
  {
    var n := |f| - 2;
    assert f == f[..n] + [f[n], f[n + 1]];
    BitsOfAppend(f[..n], [f[n], f[n + 1]]);
    FooterBits(f[n], f[n + 1]);
  }

  // ---------- Detection ----------

  /** `g` is `f` with one, two or three bits flipped anywhere; `f` has at most 32767 bits. */
  predicate FewFlips(f: seq<byte>, g: seq<byte>) {
    |g| == |f| <= 4095 && 1 <= Distance(BitsOf(f), BitsOf(g)) <= 3
  }

  lemma FewFlipsDetected(f: seq<byte>, g: seq<byte>)
    requires ValidCrc(f) && FewFlips(f, g)
    ensures !ValidCrc(g)
  {
    if Distance(BitsOf(f), BitsOf(g)) == 2 {
      FlipsCount(f, g);
      UndetectedIsZero(f, g);
      TwoFlipsShow(Flips(f, g));
    } else {
      OddDetected(f, g);
    }
  }

  lemma TwoFlipsShow(c: bits)
    requires Weight(c) == 2 && |c| <= 32767
    ensures Feed(Zeros(16), c) != Zeros(16)
  {
    var i, d := FlipsOfWeightTwo(c);
    TwoFlipsFed(i, d, |c| - 2 - i - d);
    OrderOfX(d + 1);
    SmallMod(d + 1, 32767);
  }

  /** Two flips go unseen exactly when they are a multiple of 32767 positions of the register order apart. */
  lemma TwoFlipsExactly(f: seq<byte>, g: seq<byte>, i: nat, d: nat, k: nat)
    requires ValidCrc(f) && |g| == |f| && Flips(f, g) == TwoFlips(i, d, k)
    ensures ValidCrc(g) <==> (d + 1) % 32767 == 0
  {
    TwoFlipsFed(i, d, k);
    OrderOfX(d + 1);
    UndetectedIsZero(f, g);
  }

  // ---------- All of it ----------

  /** The damage the checksum is certain to expose. */
  ghost predicate Detectable(f: seq<byte>, g: seq<byte>) {
    BurstDamage(f, g) || OddDamage(f, g) || FewFlips(f, g)
  }

  lemma DetectableRejected(f: seq<byte>, g: seq<byte>)
    requires ValidCrc(f) && Detectable(f, g)
    ensures !ValidCrc(g)
  {
    if BurstDamage(f, g) {
      BurstDetected(f, g);
    } else if OddDamage(f, g) {
      OddDetected(f, g);
    } else {
      FewFlipsDetected(f, g);
    }
  }

  /** What may come out of a link: anything sent, or anything sent and then damaged. */
  ghost predicate Arrives(net: set<seq<byte>>, b: seq<byte>) {
    b in net || exists sent :: sent in net && Detectable(sent, b)
  }
}
