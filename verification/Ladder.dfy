/** Enough powers of x modulo the generator to pin down its order. */
module Ladder {
  import opened Residues

  /** Four hexadecimal digits. */
  function Hex(a: nat, b: nat, c: nat, d: nat): Word16 {
    W(a / 8 % 2 == 1, a / 4 % 2 == 1, a / 2 % 2 == 1, a % 2 == 1, b / 8 % 2 == 1, b / 4 % 2 == 1, b / 2 % 2 == 1, b % 2 == 1,
      c / 8 % 2 == 1, c / 4 % 2 == 1, c / 2 % 2 == 1, c % 2 == 1, d / 8 % 2 == 1, d / 4 % 2 == 1, d / 2 % 2 == 1, d % 2 == 1)
  }

  const ONE: Word16 := Hex(0, 0, 0, 1)

  lemma SquareOfOne()
    ensures Square(ONE) == ONE
  {}

  /** x^n by squaring and shifting. */
  function XPower(n: nat): Word16 {
    if n == 0 then ONE
    else if n % 2 == 1 then Shift(Square(XPower(n / 2)))
    else Square(XPower(n / 2))
  }

  lemma XPowerNext(n: nat, half: nat, w: Word16, v: Word16)
    requires n > 0 && half == n / 2 && XPower(half) == w && v == if n % 2 == 1 then Shift(Square(w)) else Square(w)
    ensures XPower(n) == v
  {}

  lemma XPower217()
    ensures XPower(217) == Hex(4, 8, 14, 3) != ONE
  {
    XPowerNext(1, 0, Hex(0, 0, 0, 1), Hex(0, 0, 0, 2));
    XPowerNext(3, 1, Hex(0, 0, 0, 2), Hex(0, 0, 0, 8));
    XPowerNext(6, 3, Hex(0, 0, 0, 8), Hex(0, 0, 4, 0));
    XPowerNext(13, 6, Hex(0, 0, 4, 0), Hex(2, 0, 0, 0));
    XPowerNext(27, 13, Hex(2, 0, 0, 0), Hex(8, 9, 10, 9));
    XPowerNext(54, 27, Hex(8, 9, 10, 9), Hex(1, 1, 6, 8));
    XPowerNext(108, 54, Hex(1, 1, 6, 8), Hex(3, 7, 5, 0));
    XPowerNext(217, 108, Hex(3, 7, 5, 0), Hex(4, 8, 14, 3));
  }

  lemma XPower1057()
    ensures XPower(1057) == Hex(15, 2, 10, 15) != ONE
  {
    XPowerNext(1, 0, Hex(0, 0, 0, 1), Hex(0, 0, 0, 2));
    XPowerNext(2, 1, Hex(0, 0, 0, 2), Hex(0, 0, 0, 4));
    XPowerNext(4, 2, Hex(0, 0, 0, 4), Hex(0, 0, 1, 0));
    XPowerNext(8, 4, Hex(0, 0, 1, 0), Hex(0, 1, 0, 0));
    XPowerNext(16, 8, Hex(0, 1, 0, 0), Hex(1, 0, 2, 1));
    XPowerNext(33, 16, Hex(1, 0, 2, 1), Hex(6, 14, 6, 0));
    XPowerNext(66, 33, Hex(6, 14, 6, 0), Hex(12, 1, 12, 6));
    XPowerNext(132, 66, Hex(12, 1, 12, 6), Hex(4, 14, 8, 10));
    XPowerNext(264, 132, Hex(4, 14, 8, 10), Hex(5, 9, 4, 6));
    XPowerNext(528, 264, Hex(5, 9, 4, 6), Hex(7, 8, 11, 3));
    XPowerNext(1057, 528, Hex(7, 8, 11, 3), Hex(15, 2, 10, 15));
  }

  lemma XPower4681()
    ensures XPower(4681) == Hex(2, 12, 4, 2) != ONE
  {
    XPowerNext(1, 0, Hex(0, 0, 0, 1), Hex(0, 0, 0, 2));
    XPowerNext(2, 1, Hex(0, 0, 0, 2), Hex(0, 0, 0, 4));
    XPowerNext(4, 2, Hex(0, 0, 0, 4), Hex(0, 0, 1, 0));
    XPowerNext(9, 4, Hex(0, 0, 1, 0), Hex(0, 2, 0, 0));
    XPowerNext(18, 9, Hex(0, 2, 0, 0), Hex(4, 0, 8, 4));
    XPowerNext(36, 18, Hex(4, 0, 8, 4), Hex(4, 3, 6, 3));
    XPowerNext(73, 36, Hex(4, 3, 6, 3), Hex(8, 15, 10, 6));
    XPowerNext(146, 73, Hex(8, 15, 10, 6), Hex(4, 3, 8, 8));
    XPowerNext(292, 146, Hex(4, 3, 8, 8), Hex(1, 3, 9, 6));
    XPowerNext(585, 292, Hex(1, 3, 9, 6), Hex(4, 5, 0, 0));
    XPowerNext(1170, 585, Hex(4, 5, 0, 0), Hex(0, 1, 6, 3));
    XPowerNext(2340, 1170, Hex(0, 1, 6, 3), Hex(0, 4, 2, 4));
    XPowerNext(4681, 2340, Hex(0, 4, 2, 4), Hex(2, 12, 4, 2));
  }

  lemma XPower32767()
    ensures XPower(32767) == ONE
  {
    XPowerNext(1, 0, Hex(0, 0, 0, 1), Hex(0, 0, 0, 2));
    XPowerNext(3, 1, Hex(0, 0, 0, 2), Hex(0, 0, 0, 8));
    XPowerNext(7, 3, Hex(0, 0, 0, 8), Hex(0, 0, 8, 0));
    XPowerNext(15, 7, Hex(0, 0, 8, 0), Hex(8, 0, 0, 0));
    XPowerNext(31, 15, Hex(8, 0, 0, 0), Hex(1, 11, 9, 8));
    XPowerNext(63, 31, Hex(1, 11, 9, 8), Hex(13, 4, 2, 0));
    XPowerNext(127, 63, Hex(13, 4, 2, 0), Hex(5, 7, 7, 14));
    XPowerNext(255, 127, Hex(5, 7, 7, 14), Hex(12, 15, 0, 4));
    XPowerNext(511, 255, Hex(12, 15, 0, 4), Hex(0, 9, 15, 14));
    XPowerNext(1023, 511, Hex(0, 9, 15, 14), Hex(1, 11, 6, 2));
    XPowerNext(2047, 1023, Hex(1, 11, 6, 2), Hex(7, 14, 10, 8));
    XPowerNext(4095, 2047, Hex(7, 14, 10, 8), Hex(5, 5, 4, 15));
    XPowerNext(8191, 4095, Hex(5, 5, 4, 15), Hex(4, 4, 0, 14));
    XPowerNext(16383, 8191, Hex(4, 4, 0, 14), Hex(2, 2, 2, 12));
    XPowerNext(32767, 16383, Hex(2, 2, 2, 12), Hex(0, 0, 0, 1));
  }

  lemma XPower16()
    ensures XPower(16) == Hex(1, 0, 2, 1)
  {
    XPowerNext(1, 0, Hex(0, 0, 0, 1), Hex(0, 0, 0, 2));
    XPowerNext(2, 1, Hex(0, 0, 0, 2), Hex(0, 0, 0, 4));
    XPowerNext(4, 2, Hex(0, 0, 0, 4), Hex(0, 0, 1, 0));
    XPowerNext(8, 4, Hex(0, 0, 1, 0), Hex(0, 1, 0, 0));
    XPowerNext(16, 8, Hex(0, 1, 0, 0), Hex(1, 0, 2, 1));
  }
}
