/** Where the register starts: the published check value, and what a start at all ones does to every message. */
module CrcStart {
  import opened Words
  import opened Bits
  import opened Crc
  import opened CrcDetection
  import opened Residues
  import opened Ladder
  import opened CrcOrder

  // ---------- The law of the start value ----------

  /** The first 16 bits flipped. */
  function Complemented(m: bits): (c: bits)
    ensures |c| == |m|
  {
    seq(|m|, i requires 0 <= i < |m| => if i < 16 then !m[i] else m[i])
  }

  function Ones(n: nat): (z: bits)
    ensures |z| == n
  {
    seq(n, i => true)
  }

  lemma {:induction false} LowOfOnes(w: nat)
    ensures Low(AllOnes(w), w) == Ones(w)
  {
    if w > 0 {
      HalfOfOdd(AllOnes(w), AllOnes(w - 1));
      LowOfOnes(w - 1);
      LowOdd(AllOnes(w), AllOnes(w - 1), w);
    }
  }

  lemma StartIsOnes(w: nat)
    requires w == 16
    ensures Low(INIT, w) == Ones(w)
  {
    InitIsOnes();
    LowOfOnes(w);
  }

  /** From all ones, sixteen bits lead where their complement leads from zero. */
  lemma OnesFeed(x: bits)
    requires |x| == 16
    ensures Feed(Ones(16), x) == Feed(Zeros(16), XorBits(x, Ones(16)))
  {
    var ones := Ones(16);
    FeedOwnBits(ones, 16);
    assert ones[..16] == ones && XorBits(ones, ones) == Zeros(16);
    FeedLinear(ones, ones, x, ones);
    assert Feed(ones, ones) == Zeros(16);
    assert XorBits(Feed(ones, x), Zeros(16)) == Feed(ones, x);
  }

  lemma OnesFeedMore(x: bits, y: bits)
    requires |x| == 16
    ensures Feed(Ones(16), x + y) == Feed(Zeros(16), Complemented(x + y))
  {
    OnesFeed(x);
    FeedAppend(Ones(16), x, y);
    FeedAppend(Zeros(16), XorBits(x, Ones(16)), y);
    assert Complemented(x + y) == XorBits(x, Ones(16)) + y;
  }

  lemma ChecksumFromOnes(m: seq<byte>, w: nat)
    requires w == 16
    ensures Low(CrcOf(m), w) == Feed(Ones(w), BitsOf(m))
  {
    CrcBits(INIT, m);
    StartIsOnes(w);
  }

  lemma FromZero(b: bits)
    requires |b| >= 16
    ensures Feed(Ones(16), b) == Feed(Zeros(16), Complemented(b))
  {
    OnesFeedMore(b[..16], b[16..]);
    assert b[..16] + b[16..] == b;
  }

  /**
   The start value 0xFFFF: the checksum of two bytes or more is the one
   remainder, from the zero register, of the message with its first 16 bits
   complemented.
   */
  lemma ComplementRule(m: seq<byte>, rem: register, w: nat)
    requires |m| >= 2 && w == 16
    ensures IsRemainder(Zeros(w), Complemented(BitsOf(m)), rem) <==> rem == Low(CrcOf(m), w)
  {
    FeedIsTheRemainder(Zeros(w), Complemented(BitsOf(m)), rem);
    ChecksumFromOnes(m, w);
    FromZero(BitsOf(m));
  }

  // ---------- The check value ----------

  /** The generator added. */
  function Toggle(w: Word16): Word16 {
    W(w.b15, w.b14, w.b13, !w.b12, w.b11, w.b10, w.b9, w.b8, w.b7, w.b6, !w.b5, w.b4, w.b3, w.b2, w.b1, !w.b0)
  }

  /** One message bit on sixteen coefficients. */
  function Fed(w: Word16, b: bool): Word16 {
    if b then Toggle(Shift(w)) else Shift(w)
  }

  function FedNibble(w: Word16, b3: bool, b2: bool, b1: bool, b0: bool): Word16 {
    Fed(Fed(Fed(Fed(w, b3), b2), b1), b0)
  }

  lemma ToggledAt(w: Word16, i: nat)
    requires i < 16
    ensures Coefficient(Toggle(w), i) == (Coefficient(w, i) != (i == 3 || i == 10 || i == 15))
  {
    if i < 4 {
      ToggledTop(w, i);
    } else if i < 8 {
      ToggledHigh(w, i);
    } else if i < 12 {
      ToggledLow(w, i);
    } else {
      ToggledBottom(w, i);
    }
  }

  lemma ToggledTop(w: Word16, i: nat)
    requires i < 4
    ensures Coefficient(Toggle(w), i) == (Coefficient(w, i) != (i == 3))
  {}

  lemma ToggledHigh(w: Word16, i: nat)
    requires 4 <= i < 8
    ensures Coefficient(Toggle(w), i) == Coefficient(w, i)
  {}

  lemma ToggledLow(w: Word16, i: nat)
    requires 8 <= i < 12
    ensures Coefficient(Toggle(w), i) == (Coefficient(w, i) != (i == 10))
  {}

  lemma ToggledBottom(w: Word16, i: nat)
    requires 12 <= i < 16
    ensures Coefficient(Toggle(w), i) == (Coefficient(w, i) != (i == 15))
  {}

  lemma TrueFedAt(r: register, i: nat)
    requires i < 16
    ensures FeedBit(r, true)[i] == (FeedBit(r, false)[i] != POLY[i])
  {}

  lemma FedIsFeed(w: Word16, b: bool)
    ensures AsRegister(Fed(w, b)) == FeedBit(AsRegister(w), b)
  {
    ShiftIsFeed(w);
    if b {
      forall i | 0 <= i < 16 ensures AsRegister(Toggle(Shift(w)))[i] == FeedBit(AsRegister(w), true)[i] {
        ToggledAt(Shift(w), i);
        PolyAt(i);
        TrueFedAt(AsRegister(w), i);
      }
    }
  }

  lemma FeedLast(r: register, m: bits, b: bool)
    ensures Feed(r, m + [b]) == FeedBit(Feed(r, m), b)
  {
    assert (m + [b])[..|m|] == m;
  }

  lemma FourFed(r: register, b3: bool, b2: bool, b1: bool, b0: bool)
    ensures Feed(r, [b3, b2, b1, b0]) == FeedBit(FeedBit(FeedBit(FeedBit(r, b3), b2), b1), b0)
  {
    var m1, m2, m3 := [b3], [b3, b2], [b3, b2, b1];
    FeedLast(r, [], b3);
    FeedLast(r, m1, b2);
    FeedLast(r, m2, b1);
    FeedLast(r, m3, b0);
    assert [] + [b3] == m1 && m1 + [b2] == m2 && m2 + [b1] == m3 && m3 + [b0] == [b3, b2, b1, b0];
  }

  lemma NibbleIsFeed(w: Word16, b3: bool, b2: bool, b1: bool, b0: bool)
    ensures AsRegister(FedNibble(w, b3, b2, b1, b0)) == Feed(AsRegister(w), [b3, b2, b1, b0])
  {
    FourFed(AsRegister(w), b3, b2, b1, b0);
    var w1 := Fed(w, b3);
    var w2 := Fed(w1, b2);
    var w3 := Fed(w2, b1);
    FedIsFeed(w, b3);
    FedIsFeed(w1, b2);
    FedIsFeed(w2, b1);
    FedIsFeed(w3, b0);
  }

  function Nibble(d: nat): bits {
    [d / 8 % 2 == 1, d / 4 % 2 == 1, d / 2 % 2 == 1, d % 2 == 1]
  }

  function FedDigit(w: Word16, d: nat): Word16 {
    FedNibble(w, d / 8 % 2 == 1, d / 4 % 2 == 1, d / 2 % 2 == 1, d % 2 == 1)
  }

  lemma NibbleValue(d: nat)
    requires d < 16
    ensures Value(Nibble(d)) == d
  {
    ValueAppend4([], d / 8 % 2 == 1, d / 4 % 2 == 1, d / 2 % 2 == 1, d % 2 == 1);
    assert [] + Nibble(d) == Nibble(d);
  }

  lemma NibblesOfByte(a: nat, d: nat, v: byte, w: nat)
    requires w == 8 && a < 16 && d < 16 && v as int == 16 * a + d
    ensures Low(v, w) == Nibble(a) + Nibble(d)
  {
    NibbleValue(a);
    NibbleValue(d);
    assert [] + Nibble(a) == Nibble(a) && [] + Nibble(d) == Nibble(d);
    BitsOfNumber(Nibble(a), Nibble(d), v, w);
  }

  /** A byte is fed as its two hexadecimal digits. */
  lemma ByteFed(w: Word16, a: nat, d: nat, v: byte)
    requires a < 16 && d < 16 && v as int == 16 * a + d
    ensures Feed(AsRegister(w), BitsOf([v])) == AsRegister(FedDigit(FedDigit(w, a), d))
  {
    BitsOfByte(v);
    NibblesOfByte(a, d, v, 8);
    FeedAppend(AsRegister(w), Nibble(a), Nibble(d));
    NibbleIsFeed(w, a / 8 % 2 == 1, a / 4 % 2 == 1, a / 2 % 2 == 1, a % 2 == 1);
    NibbleIsFeed(FedDigit(w, a), d / 8 % 2 == 1, d / 4 % 2 == 1, d / 2 % 2 == 1, d % 2 == 1);
  }

  /** Message `m` takes the register from `start` to `w`. */
  predicate Leads(start: register, m: seq<byte>, w: Word16) {
    Feed(start, BitsOf(m)) == AsRegister(w)
  }

  lemma DigitFed(start: register, m: seq<byte>, w: Word16, mid: Word16, d: nat, next: Word16)
    requires Leads(start, m, w) && d < 10 && FedDigit(w, 3) == mid && FedDigit(mid, d) == next
    ensures Leads(start, m + [0x30 + d], next)
  {
    ByteFed(w, 3, d, 0x30 + d);
    BitsOfAppend(m, [0x30 + d]);
    FeedAppend(start, BitsOf(m), BitsOf([0x30 + d]));
  }

  /** Four bits in a row. */
  lemma NibbleStep(d: nat, w: Word16, w1: Word16, w2: Word16, w3: Word16, w4: Word16)
    requires Fed(w, d / 8 % 2 == 1) == w1 && Fed(w1, d / 4 % 2 == 1) == w2
    requires Fed(w2, d / 2 % 2 == 1) == w3 && Fed(w3, d % 2 == 1) == w4
    ensures FedDigit(w, d) == w4
  {}

  lemma Step1High()
    ensures FedDigit(Hex(15, 15, 15, 15), 3) == Hex(3, 14, 7, 12)
  {
    NibbleStep(3, Hex(15, 15, 15, 15), Hex(14, 15, 13, 15), Hex(12, 15, 9, 15), Hex(9, 15, 3, 14), Hex(3, 14, 7, 12));
  }

  lemma Step1Low()
    ensures FedDigit(Hex(3, 14, 7, 12), 1) == Hex(12, 7, 8, 2)
  {
    NibbleStep(1, Hex(3, 14, 7, 12), Hex(7, 12, 15, 8), Hex(15, 9, 15, 0), Hex(14, 3, 12, 1), Hex(12, 7, 8, 2));
  }

  lemma Step1() returns (w: Word16, mid: Word16, next: Word16)
    ensures w == Hex(15, 15, 15, 15) && FedDigit(w, 3) == mid && FedDigit(mid, 1) == next == Hex(12, 7, 8, 2)
  {
    w, mid, next := Hex(15, 15, 15, 15), Hex(3, 14, 7, 12), Hex(12, 7, 8, 2);
    Step1High();
    Step1Low();
  }

  lemma Step2High()
    ensures FedDigit(Hex(12, 7, 8, 2), 3) == Hex(8, 9, 12, 15)
  {
    NibbleStep(3, Hex(12, 7, 8, 2), Hex(9, 15, 2, 5), Hex(2, 14, 6, 11), Hex(4, 12, 15, 7), Hex(8, 9, 12, 15));
  }

  lemma Step2Low()
    ensures FedDigit(Hex(8, 9, 12, 15), 2) == Hex(3, 13, 11, 10)
  {
    NibbleStep(2, Hex(8, 9, 12, 15), Hex(0, 3, 11, 15), Hex(0, 7, 7, 14), Hex(1, 14, 13, 13), Hex(3, 13, 11, 10));
  }

  lemma Step2() returns (w: Word16, mid: Word16, next: Word16)
    ensures w == Hex(12, 7, 8, 2) && FedDigit(w, 3) == mid && FedDigit(mid, 2) == next == Hex(3, 13, 11, 10)
  {
    w, mid, next := Hex(12, 7, 8, 2), Hex(8, 9, 12, 15), Hex(3, 13, 11, 10);
    Step2High();
    Step2Low();
  }

  lemma Step3High()
    ensures FedDigit(Hex(3, 13, 11, 10), 3) == Hex(13, 11, 10, 0)
  {
    NibbleStep(3, Hex(3, 13, 11, 10), Hex(7, 11, 7, 4), Hex(15, 6, 14, 8), Hex(14, 13, 13, 0), Hex(13, 11, 10, 0));
  }

  lemma Step3Low()
    ensures FedDigit(Hex(13, 11, 10, 0), 3) == Hex(5, 11, 12, 14)
  {
    NibbleStep(3, Hex(13, 11, 10, 0), Hex(10, 7, 6, 1), Hex(5, 14, 14, 3), Hex(10, 13, 14, 7), Hex(5, 11, 12, 14));
  }

  lemma Step3() returns (w: Word16, mid: Word16, next: Word16)
    ensures w == Hex(3, 13, 11, 10) && FedDigit(w, 3) == mid && FedDigit(mid, 3) == next == Hex(5, 11, 12, 14)
  {
    w, mid, next := Hex(3, 13, 11, 10), Hex(13, 11, 10, 0), Hex(5, 11, 12, 14);
    Step3High();
    Step3Low();
  }

  lemma Step4High()
    ensures FedDigit(Hex(5, 11, 12, 14), 3) == Hex(13, 12, 2, 6)
  {
    NibbleStep(3, Hex(5, 11, 12, 14), Hex(11, 7, 9, 12), Hex(7, 15, 1, 9), Hex(14, 14, 1, 3), Hex(13, 12, 2, 6));
  }

  lemma Step4Low()
    ensures FedDigit(Hex(13, 12, 2, 6), 4) == Hex(5, 3, 4, 9)
  {
    NibbleStep(4, Hex(13, 12, 2, 6), Hex(10, 8, 6, 13), Hex(5, 0, 13, 10), Hex(10, 1, 11, 4), Hex(5, 3, 4, 9));
  }

  lemma Step4() returns (w: Word16, mid: Word16, next: Word16)
    ensures w == Hex(5, 11, 12, 14) && FedDigit(w, 3) == mid && FedDigit(mid, 4) == next == Hex(5, 3, 4, 9)
  {
    w, mid, next := Hex(5, 11, 12, 14), Hex(13, 12, 2, 6), Hex(5, 3, 4, 9);
    Step4High();
    Step4Low();
  }

  lemma Step5High()
    ensures FedDigit(Hex(5, 3, 4, 9), 3) == Hex(5, 4, 5, 6)
  {
    NibbleStep(3, Hex(5, 3, 4, 9), Hex(10, 6, 9, 2), Hex(5, 13, 0, 5), Hex(10, 10, 2, 11), Hex(5, 4, 5, 6));
  }

  lemma Step5Low()
    ensures FedDigit(Hex(5, 4, 5, 6), 5) == Hex(4, 5, 6, 0)
  {
    NibbleStep(5, Hex(5, 4, 5, 6), Hex(10, 8, 10, 12), Hex(5, 1, 5, 8), Hex(10, 2, 11, 0), Hex(4, 5, 6, 0));
  }

  lemma Step5() returns (w: Word16, mid: Word16, next: Word16)
    ensures w == Hex(5, 3, 4, 9) && FedDigit(w, 3) == mid && FedDigit(mid, 5) == next == Hex(4, 5, 6, 0)
  {
    w, mid, next := Hex(5, 3, 4, 9), Hex(5, 4, 5, 6), Hex(4, 5, 6, 0);
    Step5High();
    Step5Low();
  }

  lemma Step6High()
    ensures FedDigit(Hex(4, 5, 6, 0), 3) == Hex(2, 6, 14, 7)
  {
    NibbleStep(3, Hex(4, 5, 6, 0), Hex(8, 10, 12, 0), Hex(0, 5, 10, 1), Hex(1, 11, 6, 3), Hex(2, 6, 14, 7));
  }

  lemma Step6Low()
    ensures FedDigit(Hex(2, 6, 14, 7), 6) == Hex(2, 14, 15, 4)
  {
    NibbleStep(6, Hex(2, 6, 14, 7), Hex(4, 13, 12, 14), Hex(8, 11, 11, 13), Hex(1, 7, 7, 10), Hex(2, 14, 15, 4));
  }

  lemma Step6() returns (w: Word16, mid: Word16, next: Word16)
    ensures w == Hex(4, 5, 6, 0) && FedDigit(w, 3) == mid && FedDigit(mid, 6) == next == Hex(2, 14, 15, 4)
  {
    w, mid, next := Hex(4, 5, 6, 0), Hex(2, 6, 14, 7), Hex(2, 14, 15, 4);
    Step6High();
    Step6Low();
  }

  lemma Step7High()
    ensures FedDigit(Hex(2, 14, 15, 4), 3) == Hex(15, 15, 6, 1)
  {
    NibbleStep(3, Hex(2, 14, 15, 4), Hex(5, 13, 14, 8), Hex(11, 11, 13, 0), Hex(7, 7, 10, 0), Hex(15, 15, 6, 1));
  }

  lemma Step7Low()
    ensures FedDigit(Hex(15, 15, 6, 1), 7) == Hex(7, 7, 1, 8)
  {
    NibbleStep(7, Hex(15, 15, 6, 1), Hex(14, 14, 14, 3), Hex(13, 13, 12, 6), Hex(11, 11, 8, 12), Hex(7, 7, 1, 8));
  }

  lemma Step7() returns (w: Word16, mid: Word16, next: Word16)
    ensures w == Hex(2, 14, 15, 4) && FedDigit(w, 3) == mid && FedDigit(mid, 7) == next == Hex(7, 7, 1, 8)
  {
    w, mid, next := Hex(2, 14, 15, 4), Hex(15, 15, 6, 1), Hex(7, 7, 1, 8);
    Step7High();
    Step7Low();
  }

  lemma Step8High()
    ensures FedDigit(Hex(7, 7, 1, 8), 3) == Hex(3, 1, 0, 4)
  {
    NibbleStep(3, Hex(7, 7, 1, 8), Hex(14, 14, 3, 0), Hex(12, 12, 4, 1), Hex(9, 8, 8, 2), Hex(3, 1, 0, 4));
  }

  lemma Step8Low()
    ensures FedDigit(Hex(3, 1, 0, 4), 8) == Hex(10, 1, 2, 11)
  {
    NibbleStep(8, Hex(3, 1, 0, 4), Hex(7, 2, 2, 9), Hex(14, 4, 5, 2), Hex(13, 8, 8, 5), Hex(10, 1, 2, 11));
  }

  lemma Step8() returns (w: Word16, mid: Word16, next: Word16)
    ensures w == Hex(7, 7, 1, 8) && FedDigit(w, 3) == mid && FedDigit(mid, 8) == next == Hex(10, 1, 2, 11)
  {
    w, mid, next := Hex(7, 7, 1, 8), Hex(3, 1, 0, 4), Hex(10, 1, 2, 11);
    Step8High();
    Step8Low();
  }

  lemma Step9High()
    ensures FedDigit(Hex(10, 1, 2, 11), 3) == Hex(8, 3, 9, 9)
  {
    NibbleStep(3, Hex(10, 1, 2, 11), Hex(5, 2, 7, 7), Hex(10, 4, 14, 14), Hex(4, 9, 13, 12), Hex(8, 3, 9, 9));
  }

  lemma Step9Low()
    ensures FedDigit(Hex(8, 3, 9, 9), 9) == Hex(2, 9, 11, 1)
  {
    NibbleStep(9, Hex(8, 3, 9, 9), Hex(0, 7, 3, 2), Hex(0, 14, 6, 4), Hex(1, 12, 12, 8), Hex(2, 9, 11, 1));
  }

  lemma Step9() returns (w: Word16, mid: Word16, next: Word16)
    ensures w == Hex(10, 1, 2, 11) && FedDigit(w, 3) == mid && FedDigit(mid, 9) == next == Hex(2, 9, 11, 1)
  {
    w, mid, next := Hex(10, 1, 2, 11), Hex(8, 3, 9, 9), Hex(2, 9, 11, 1);
    Step9High();
    Step9Low();
  }

  lemma TopHalf(w: Word16)
    ensures var r := AsRegister(w);
            && r[0] == w.b15 && r[1] == w.b14 && r[2] == w.b13 && r[3] == w.b12
            && r[4] == w.b11 && r[5] == w.b10 && r[6] == w.b9 && r[7] == w.b8
  {}

  lemma BottomHalf(w: Word16)
    ensures var r := AsRegister(w);
            && r[8] == w.b7 && r[9] == w.b6 && r[10] == w.b5 && r[11] == w.b4
            && r[12] == w.b3 && r[13] == w.b2 && r[14] == w.b1 && r[15] == w.b0
  {}

  lemma FourAt(r: bits, at: nat, a: bool, b: bool, c: bool, d: bool)
    requires at + 4 <= |r| && r[at] == a && r[at + 1] == b && r[at + 2] == c && r[at + 3] == d
    ensures r[at..at + 4] == [a, b, c, d]
  {}

  lemma InFours(r: bits)
    requires |r| == 16
    ensures r == r[0..4] + r[4..8] + (r[8..12] + r[12..16])
  {}

  lemma Assembled(
    r: bits, b15: bool, b14: bool, b13: bool, b12: bool, b11: bool, b10: bool, b9: bool, b8: bool,
    b7: bool, b6: bool, b5: bool, b4: bool, b3: bool, b2: bool, b1: bool, b0: bool)
    requires |r| == 16
    requires r[0] == b15 && r[1] == b14 && r[2] == b13 && r[3] == b12
    requires r[4] == b11 && r[5] == b10 && r[6] == b9 && r[7] == b8
    requires r[8] == b7 && r[9] == b6 && r[10] == b5 && r[11] == b4
    requires r[12] == b3 && r[13] == b2 && r[14] == b1 && r[15] == b0
    ensures r == [b15, b14, b13, b12] + [b11, b10, b9, b8] + ([b7, b6, b5, b4] + [b3, b2, b1, b0])
  {
    FourAt(r, 0, b15, b14, b13, b12);
    FourAt(r, 4, b11, b10, b9, b8);
    FourAt(r, 8, b7, b6, b5, b4);
    FourAt(r, 12, b3, b2, b1, b0);
    InFours(r);
  }

  lemma RegisterOf(w: Word16)
    ensures AsRegister(w) == [w.b15, w.b14, w.b13, w.b12] + [w.b11, w.b10, w.b9, w.b8]
                             + ([w.b7, w.b6, w.b5, w.b4] + [w.b3, w.b2, w.b1, w.b0])
  {
    TopHalf(w);
    BottomHalf(w);
    Assembled(AsRegister(w), w.b15, w.b14, w.b13, w.b12, w.b11, w.b10, w.b9, w.b8,
              w.b7, w.b6, w.b5, w.b4, w.b3, w.b2, w.b1, w.b0);
  }

  lemma WordOfHex(a: nat, b: nat, c: nat, d: nat, hi: byte, lo: byte, w: nat)
    requires w == 8 && a < 16 && b < 16 && c < 16 && d < 16 && hi as int == 16 * a + b && lo as int == 16 * c + d
    ensures Low(256 * (hi as int) + lo, w + w) == AsRegister(Hex(a, b, c, d))
  {
    NibblesOfByte(a, b, hi, w);
    NibblesOfByte(c, d, lo, w);
    LowBytes(hi, lo, w);
    RegisterOf(Hex(a, b, c, d));
  }

  lemma SameWord16(x: u16, y: u16, w: nat)
    requires w == 16 && Low(x, w) == Low(y, w)
    ensures x == y
  {
    Powers();
    ValueOfLow(x, w);
    ValueOfLow(y, w);
  }

  lemma NineDigits(start: register, m: seq<byte>) returns (next: Word16)
    requires Leads(start, [], Hex(15, 15, 15, 15))
    requires m == [] + [0x31] + [0x32] + [0x33] + [0x34] + [0x35] + [0x36] + [0x37] + [0x38] + [0x39]
    ensures next == Hex(2, 9, 11, 1) && Leads(start, m, next)
  {
    var m0: seq<byte> := [];
    var m1 := m0 + [0x31];
    var m2 := m1 + [0x32];
    var m3 := m2 + [0x33];
    var m4 := m3 + [0x34];
    var m5 := m4 + [0x35];
    var m6 := m5 + [0x36];
    var m7 := m6 + [0x37];
    var m8 := m7 + [0x38];
    var w1, h1, n1 := Step1();
    DigitFed(start, m0, w1, h1, 1, n1);
    var w2, h2, n2 := Step2();
    DigitFed(start, m1, w2, h2, 2, n2);
    var w3, h3, n3 := Step3();
    DigitFed(start, m2, w3, h3, 3, n3);
    var w4, h4, n4 := Step4();
    DigitFed(start, m3, w4, h4, 4, n4);
    var w5, h5, n5 := Step5();
    DigitFed(start, m4, w5, h5, 5, n5);
    var w6, h6, n6 := Step6();
    DigitFed(start, m5, w6, h6, 6, n6);
    var w7, h7, n7 := Step7();
    DigitFed(start, m6, w7, h7, 7, n7);
    var w8, h8, n8 := Step8();
    DigitFed(start, m7, w8, h8, 8, n8);
    var w9, h9, n9 := Step9();
    DigitFed(start, m8, w9, h9, 9, n9);
    next := n9;
  }

  lemma ChecksumOfDigits(m: seq<byte>, w: nat)
    requires w == 8 && m == [] + [0x31] + [0x32] + [0x33] + [0x34] + [0x35] + [0x36] + [0x37] + [0x38] + [0x39]
    ensures CrcOf(m) == 0x29B1
  {
    var start := Low(INIT, w + w);
    WordOfHex(15, 15, 15, 15, 0xFF, 0xFF, w);
    assert BitsOf([]) == [];
    var next := NineDigits(start, m);
    CrcBits(INIT, m);
    WordOfHex(2, 9, 11, 1, 0x29, 0xB1, w);
    SameWord16(CrcOf(m), 0x29B1, w + w);
  }

  lemma NineBytes(m: seq<byte>)
    requires m == [0x31, 0x32, 0x33, 0x34, 0x35, 0x36, 0x37, 0x38, 0x39]
    ensures m == [] + [0x31] + [0x32] + [0x33] + [0x34] + [0x35] + [0x36] + [0x37] + [0x38] + [0x39]
  {}

  /** The published check value of CRC-16/CCITT-FALSE, on the bytes of "123456789". */
  lemma CheckValue()
    ensures CrcOf([0x31, 0x32, 0x33, 0x34, 0x35, 0x36, 0x37, 0x38, 0x39]) == 0x29B1
  {
    var m: seq<byte> := [0x31, 0x32, 0x33, 0x34, 0x35, 0x36, 0x37, 0x38, 0x39];
    NineBytes(m);
    ChecksumOfDigits(m, 8);
  }
}
