/** Arithmetic modulo x^16 + x^12 + x^5 + 1 on sixteen coefficients. */
module Residues {
  datatype Word16 = W(
    b15: bool, b14: bool, b13: bool, b12: bool, b11: bool, b10: bool, b9: bool, b8: bool,
    b7: bool, b6: bool, b5: bool, b4: bool, b3: bool, b2: bool, b1: bool, b0: bool)

  /** Multiplication by x. */
  function Shift(w: Word16): Word16 {
    W(w.b14, w.b13, w.b12, w.b11 != w.b15, w.b10, w.b9, w.b8, w.b7,
      w.b6, w.b5, w.b4 != w.b15, w.b3, w.b2, w.b1, w.b0, w.b15)
  }

  /** The coefficient at register position `i`. */
  function Coefficient(w: Word16, i: nat): bool {
    if i == 0 then w.b15 else if i == 1 then w.b14 else if i == 2 then w.b13 else if i == 3 then w.b12
    else if i == 4 then w.b11 else if i == 5 then w.b10 else if i == 6 then w.b9 else if i == 7 then w.b8
    else if i == 8 then w.b7 else if i == 9 then w.b6 else if i == 10 then w.b5 else if i == 11 then w.b4
    else if i == 12 then w.b3 else if i == 13 then w.b2 else if i == 14 then w.b1 else w.b0
  }

  lemma ShiftedAt(w: Word16, i: nat)
    requires i < 16
    ensures Coefficient(Shift(w), i) == ((i < 15 && Coefficient(w, i + 1)) != (w.b15 && (i == 3 || i == 10 || i == 15)))
  {
    if i < 4 {
      ShiftedTop(w, i);
    } else if i < 8 {
      ShiftedHigh(w, i);
    } else if i < 12 {
      ShiftedLow(w, i);
    } else {
      ShiftedBottom(w, i);
    }
  }

  lemma ShiftedTop(w: Word16, i: nat)
    requires i < 4
    ensures Coefficient(Shift(w), i) == (Coefficient(w, i + 1) != (w.b15 && i == 3))
  {}

  lemma ShiftedHigh(w: Word16, i: nat)
    requires 4 <= i < 8
    ensures Coefficient(Shift(w), i) == Coefficient(w, i + 1)
  {}

  lemma ShiftedLow(w: Word16, i: nat)
    requires 8 <= i < 12
    ensures Coefficient(Shift(w), i) == (Coefficient(w, i + 1) != (w.b15 && i == 10))
  {}

  lemma ShiftedBottom(w: Word16, i: nat)
    requires 12 <= i < 16
    ensures Coefficient(Shift(w), i) == ((i < 15 && Coefficient(w, i + 1)) != (w.b15 && i == 15))
  {}

  /** Squaring, which is linear: coefficient i goes to x^2i, reduced by the generator. */
  function Square(w: Word16): Word16 {
    W(w.b13,
      ((w.b13 != w.b11) != w.b9) != w.b7,
      w.b12,
      ((w.b12 != w.b10) != w.b8) != w.b6,
      (w.b15 != w.b13) != w.b11,
      (w.b15 != w.b13) != w.b5,
      (w.b14 != w.b12) != w.b10,
      ((w.b15 != w.b14) != w.b12) != w.b4,
      ((w.b15 != w.b13) != w.b11) != w.b9,
      (((w.b15 != w.b14) != w.b13) != w.b11) != w.b3,
      ((w.b14 != w.b12) != w.b10) != w.b8,
      ((w.b14 != w.b12) != w.b10) != w.b2,
      w.b15,
      (((w.b15 != w.b13) != w.b11) != w.b9) != w.b1,
      w.b14,
      (((w.b14 != w.b12) != w.b10) != w.b8) != w.b0)
  }

  lemma SquareOfShiftTop(w: Word16)
    ensures var l, r := Square(Shift(w)), Shift(Shift(Square(w)));
            l.b15 == r.b15 && l.b14 == r.b14 && l.b13 == r.b13 && l.b12 == r.b12
  {}

  lemma SquareOfShiftHigh(w: Word16)
    ensures var l, r := Square(Shift(w)), Shift(Shift(Square(w)));
            l.b11 == r.b11 && l.b10 == r.b10 && l.b9 == r.b9 && l.b8 == r.b8
  {}

  lemma SquareOfShiftLow(w: Word16)
    ensures var l, r := Square(Shift(w)), Shift(Shift(Square(w)));
            l.b7 == r.b7 && l.b6 == r.b6 && l.b5 == r.b5 && l.b4 == r.b4
  {}

  lemma SquareOfShiftBottom(w: Word16)
    ensures var l, r := Square(Shift(w)), Shift(Shift(Square(w)));
            l.b3 == r.b3 && l.b2 == r.b2 && l.b1 == r.b1 && l.b0 == r.b0
  {}

  lemma SquareOfShift(w: Word16)
    ensures Square(Shift(w)) == Shift(Shift(Square(w)))
  {
    SquareOfShiftTop(w);
    SquareOfShiftHigh(w);
    SquareOfShiftLow(w);
    SquareOfShiftBottom(w);
  }
}
