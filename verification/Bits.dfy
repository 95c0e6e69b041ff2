/** Bit strings, most significant bit first, and the bitwise reading of unsigned integers. */
module Bits {
  import opened Words

  type bits = seq<bool>

  function Pow2(w: nat): (p: nat)
    ensures p >= 1
  {
    if w == 0 then 1 else 2 * Pow2(w - 1)
  }

  lemma Powers()
    ensures Pow2(4) == 0x10 && Pow2(8) == 0x100 && Pow2(15) == 0x8000 && Pow2(16) == 0x1_0000
  {
    assert Pow2(4) == 0x10;
    assert Pow2(8) == 0x100;
    assert Pow2(12) == 0x1000;
  }

  /** The low `w` bits of `n`. */
  function Low(n: nat, w: nat): (r: bits)
    ensures |r| == w
  {
    if w == 0 then [] else Low(n / 2, w - 1) + [n % 2 == 1]
  }

  /** The number whose bits are `b`. */
  function Value(b: bits): nat {
    if b == [] then 0 else 2 * Value(b[..|b| - 1]) + (if b[|b| - 1] then 1 else 0)
  }

  lemma {:induction false} LowOfValue(b: bits)
    ensures Value(b) < Pow2(|b|) && Low(Value(b), |b|) == b
  {
    if b != [] {
      LowOfValue(b[..|b| - 1]);
      assert Value(b) / 2 == Value(b[..|b| - 1]);
    }
  }

  function Zeros(n: nat): (z: bits)
    ensures |z| == n
  {
    seq(n, i => false)
  }

  /** `a ^ b` on bit strings of equal length. */
  function XorBits(a: bits, b: bits): (r: bits)
    requires |a| == |b|
    ensures |r| == |a|
  {
    seq(|a|, i requires 0 <= i < |a| => a[i] != b[i])
  }

  /** `a ^ b` on unsigned integers. */
  function Xor(a: nat, b: nat): nat
    decreases a + b
  {
    if a == 0 && b == 0 then 0
    else 2 * Xor(a / 2, b / 2) + (if a % 2 != b % 2 then 1 else 0)
  }

  lemma {:induction false} LowOfXor(a: nat, b: nat, w: nat)
    ensures Low(Xor(a, b), w) == XorBits(Low(a, w), Low(b, w))
  {
    if w > 0 {
      LowOfXor(a / 2, b / 2, w - 1);
      var x := Xor(a, b);
      assert x / 2 == Xor(a / 2, b / 2) && (x % 2 == 1) == (a % 2 != b % 2);
    }
  }

  lemma {:induction false} XorBound(a: nat, b: nat, w: nat)
    requires a < Pow2(w) && b < Pow2(w)
    ensures Xor(a, b) < Pow2(w)
  {
    if w > 0 && !(a == 0 && b == 0) {
      XorBound(a / 2, b / 2, w - 1);
    }
  }

  lemma {:induction false} ValueOfLow(n: nat, w: nat)
    requires n < Pow2(w)
    ensures Value(Low(n, w)) == n
  {
    if w > 0 {
      ValueOfLow(n / 2, w - 1);
      assert Low(n, w)[..w - 1] == Low(n / 2, w - 1);
    }
  }

  lemma LowDouble(n: nat, w: nat)
    requires w > 0
    ensures Low(2 * n, w) == Low(n, w - 1) + [false]
  {}

  lemma ValueAppend4(b: bits, b3: bool, b2: bool, b1: bool, b0: bool)
    ensures Value(b + [b3, b2, b1, b0])
            == 16 * Value(b) + (if b3 then 8 else 0) + (if b2 then 4 else 0) + (if b1 then 2 else 0) + (if b0 then 1 else 0)
  {
    var c := b + [b3, b2, b1, b0];
    var n := |b|;
    assert c[..n] == b && c[..n + 1][..n] == b && c[..n + 2][..n + 1] == c[..n + 1] && c[..n + 3][..n + 2] == c[..n + 2];
    assert Value(c[..n + 1]) == 2 * Value(b) + (if b3 then 1 else 0);
    assert Value(c[..n + 2]) == 2 * Value(c[..n + 1]) + (if b2 then 1 else 0);
    assert Value(c[..n + 3]) == 2 * Value(c[..n + 2]) + (if b1 then 1 else 0);
  }

  /** Dropping the top bit keeps the low ones. */
  lemma {:induction false} LowTail(n: nat, w: nat)
    requires w > 0
    ensures Low(n, w)[1..] == Low(n, w - 1)
  {
    if w > 1 {
      LowTail(n / 2, w - 1);
    }
  }

  lemma {:induction false} LowTop(n: nat, w: nat)
    requires w > 0 && n < Pow2(w)
    ensures Low(n, w)[0] == (n >= Pow2(w - 1))
  {
    if w > 1 {
      LowTop(n / 2, w - 1);
    }
  }

  /** Subtracting the bit above the low `w` ones does not change them. */
  lemma {:induction false} LowCarry(n: nat, w: nat)
    ensures Low(n + Pow2(w), w) == Low(n, w)
  {
    if w > 0 {
      LowCarry(n / 2, w - 1);
      assert (n + Pow2(w)) / 2 == n / 2 + Pow2(w - 1);
    }
  }

  lemma {:induction false} LowSplit(hi: nat, lo: nat, w: nat, k: nat)
    requires lo < Pow2(k)
    ensures Low(hi * Pow2(k) + lo, w + k) == Low(hi, w) + Low(lo, k)
  {
    if k > 0 {
      LowSplit(hi, lo / 2, w, k - 1);
      Doubling(hi, k);
      var n := hi * Pow2(k) + lo;
      assert n / 2 == hi * Pow2(k - 1) + lo / 2 && n % 2 == lo % 2;
      assert Low(n, w + k) == Low(n / 2, w + k - 1) + [n % 2 == 1];
    }
  }

  /** A 16-bit number is its high byte followed by its low byte. */
  lemma LowBytes(hi: byte, lo: byte, w: nat)
    requires w == 8
    ensures Low(256 * hi + lo, w + w) == Low(hi, w) + Low(lo, w)
  {
    Powers();
    LowSplit(hi, lo, w, w);
  }

  lemma {:induction false} LowOfZero(w: nat)
    ensures Low(0, w) == Zeros(w)
  {
    if w > 0 {
      LowOfZero(w - 1);
    }
  }

  lemma Doubling(n: nat, k: nat)
    requires k > 0
    ensures n * Pow2(k) == 2 * (n * Pow2(k - 1))
  {}

  /** The bits of a byte string in transmission order. */
  function BitsOf(m: seq<byte>): (r: bits)
    ensures |r| == 8 * |m|
  {
    if m == [] then [] else BitsOf(m[..|m| - 1]) + Low(m[|m| - 1], 8)
  }

  lemma {:induction false} BitsOfAppend(a: seq<byte>, b: seq<byte>)
    ensures BitsOf(a + b) == BitsOf(a) + BitsOf(b)
  {
    if b == [] {
      assert a + b == a;
    } else {
      var c, x := b[..|b| - 1], b[|b| - 1];
      BitsOfAppend(a, c);
      assert (a + b)[..|a + b| - 1] == a + c && (a + b)[|a + b| - 1] == x;
      assert BitsOf(a) + BitsOf(c) + Low(x, 8) == BitsOf(a) + (BitsOf(c) + Low(x, 8));
    }
  }

  lemma BitsOfByte(b: byte)
    ensures BitsOf([b]) == Low(b, 8)
  {
    assert BitsOf([b][..0]) == [];
  }

  /** Exclusive or of all bits. */
  function Parity(b: bits): bool {
    if b == [] then false else Parity(b[..|b| - 1]) != b[|b| - 1]
  }

  lemma {:induction false} ParityAppend(a: bits, b: bits)
    ensures Parity(a + b) == (Parity(a) != Parity(b))
  {
    if b == [] {
      assert a + b == a;
    } else {
      ParityAppend(a, b[..|b| - 1]);
      assert (a + b)[..|a + b| - 1] == a + b[..|b| - 1];
    }
  }

  lemma ParitySwap(a: bits, b: bits)
    ensures Parity(a + b) == Parity(b + a)
  {
    ParityAppend(a, b);
    ParityAppend(b, a);
  }

  lemma {:induction false} ParityXor(a: bits, b: bits)
    requires |a| == |b|
    ensures Parity(XorBits(a, b)) == (Parity(a) != Parity(b))
  {
    if a != [] {
      var n := |a| - 1;
      ParityXor(a[..n], b[..n]);
      assert XorBits(a, b)[..n] == XorBits(a[..n], b[..n]);
    }
  }

  /** The number of positions in which two strings of equal length differ. */
  function Distance(a: bits, b: bits): nat
    requires |a| == |b|
  {
    if a == [] then 0
    else Distance(a[..|a| - 1], b[..|b| - 1]) + (if a[|a| - 1] != b[|b| - 1] then 1 else 0)
  }

  lemma {:induction false} DistanceParity(a: bits, b: bits)
    requires |a| == |b|
    ensures Distance(a, b) % 2 == 1 <==> Parity(a) != Parity(b)
  {
    if a != [] {
      DistanceParity(a[..|a| - 1], b[..|b| - 1]);
    }
  }
}
