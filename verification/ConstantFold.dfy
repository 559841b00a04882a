/** Integer arithmetic of constant initializers: values are C's 64-bit `long long`. */
module ConstantFold {
  import opened Basics
  import opened TwosComplement

  /** A cast of a 64-bit integer to a type of so many bytes; None where the type has no size. Below 8 bytes the
      value is masked and, for a signed type whose sign bit came out set, filled with ones above; from 8 bytes on
      it is left alone. */
  function CastConstant(value: int, size: int, signed: bool): Option<int>
    requires InRange(8, true, value)
  {
    if size <= 0 then None
    else
      var bits := value % WORD;
      var bits' :=
        if size < 8 then
          var kept := bits % Pow256(size);
          if signed && kept >= Pow256(size) / 2 then kept + (WORD - Pow256(size)) else kept
        else bits;
      Some(AsSigned(bits'))
  }

  /** The same value modulo 256 to the size, and below 8 bytes the only one the type holds. */
  lemma {:induction false} CastWraps(value: int, size: int, signed: bool)
    requires InRange(8, true, value) && size > 0
    ensures var r := CastConstant(value, size, signed).value;
            && Congruent(r, value, Pow256(if size < 8 then size else 8))
            && (size < 8 ==> InRange(size, signed, r))
            && (size >= 8 ==> r == value)
  {
    if size < 8 {
      var p := Pow256(size);
      PowDivides(size, 8);
      PowBelow(size, 8);
      EuclidCongruent(value, WORD);
      EuclidCongruent(value % WORD, p);
      Coarser(value % WORD, value, size, 8);
      CongruentChain(value % WORD % p, value % WORD, value, p);
      Shifted(value % WORD % p, value, p);
      PowIsEven(size);
    } else {
      CongruentSame(value, WORD);
    }
  }

  /** A cast's result is a value of the target type unless it is a negative one cast to 8 bytes or more, unsigned. */
  lemma {:induction false} CastIsOfType(value: int, size: int, signed: bool)
    requires InRange(8, true, value) && size > 0
    ensures InRange(size, signed, CastConstant(value, size, signed).value) <==> size < 8 || signed || value >= 0
  {
    CastWraps(value, size, signed);
    if size >= 8 { PowGrows(8, size); }
  }

  /** Whatever a type of less than 8 bytes holds and is congruent to the operand is the cast's result. */
  lemma {:induction false} CastIsOnly(value: int, size: int, signed: bool, w: int)
    requires InRange(8, true, value) && 0 < size < 8
    requires InRange(size, signed, w) && Congruent(w, value, Pow256(size))
    ensures CastConstant(value, size, signed) == Some(w)
  {
    CastWraps(value, size, signed);
    CongruentBack(w, value, Pow256(size));
    var r := CastConstant(value, size, signed).value;
    CongruentChain(r, value, w, Pow256(size));
    PowIsEven(size);
    OnlyOne(r, w, Pow256(size));
  }

  /** Casting again changes nothing, and of two casts only the narrower one matters. */
  lemma {:induction false} NarrowingComposes(value: int, wide: int, wideSigned: bool, size: int, signed: bool)
    requires InRange(8, true, value) && 0 < size <= wide
    ensures var w := CastConstant(value, wide, wideSigned).value;
            InRange(8, true, w) && CastConstant(w, size, signed) == CastConstant(value, size, signed)
  {
    var w := CastConstant(value, wide, wideSigned).value;
    CastWraps(value, wide, wideSigned);
    if wide < 8 {
      PowGrows(wide, 7);
      assert InRange(8, true, w);
      CastWraps(w, size, signed);
      Coarser(w, value, size, wide);
      var r := CastConstant(w, size, signed).value;
      CongruentChain(r, w, value, Pow256(size));
      CastIsOnly(value, size, signed, r);
    }
  }

  /** The complement trick: shift the complement of a negative value down with zeros, and complement again. */
  function ArithmeticShiftRight(value: int, count: nat): int
    requires InRange(8, true, value)
  {
    if count == 0 then value
    else if count >= 64 then (if value < 0 then -1 else 0)
    else if value >= 0 then value / Pow2(count)
    else
      var bits := value % WORD;
      AsSigned((WORD - 1) - ((WORD - 1) - bits) / Pow2(count))
  }

  /** r is x / p rounded down. */
  predicate FloorOf(r: int, x: int, p: nat) {
    r * p <= x < (r + 1) * p
  }

  lemma FloorIsQuotient(x: int, p: nat)
    requires p > 0
    ensures FloorOf(x / p, x, p)
  {
    DivisionBounds(x, p);
  }

  lemma FloorOfComplement(value: int, p: nat)
    requires -WORD / 2 <= value < 0 && p > 0
    ensures FloorOf(AsSigned((WORD - 1) - ((WORD - 1) - value % WORD) / p), value, p)
  {
    hide FloorOf;
    var c := -1 - value;
    assert (WORD - 1) - value % WORD == c;
    QuotientNotAbove(c, p);
    assert AsSigned((WORD - 1) - c / p) == -1 - c / p;
    ComplementFloor(c, p);
  }

  lemma ComplementFloor(c: nat, p: nat)
    requires p > 0
    ensures FloorOf(-1 - c / p, -1 - c, p)
  {
    DivisionBounds(c, p);
    Distribute(c / p, p);
  }

  lemma Pow2At63()
    ensures Pow2(63) == WORD / 2
  {
    Pow2OfBytes(8);
    PowBelow(7, 8);
    assert Pow2(64) == 2 * Pow2(63);
  }

  lemma FloorPastWord(value: int, p: nat)
    requires InRange(8, true, value) && p >= WORD / 2
    ensures FloorOf(if value < 0 then -1 else 0, value, p)
  {
  }

  /** It divides by 2^count rounding down, for every 64-bit value and every count. */
  lemma {:induction false} ShiftIsFloor(value: int, count: nat)
    requires InRange(8, true, value)
    ensures FloorOf(ArithmeticShiftRight(value, count), value, Pow2(count))
  {
    hide FloorOf;
    var p := Pow2(count);
    if count == 0 {
      FloorIsQuotient(value, 1);
    } else if count >= 64 {
      Pow2Grows(63, count);
      Pow2At63();
      FloorPastWord(value, p);
    } else if value >= 0 {
      FloorIsQuotient(value, p);
    } else {
      FloorOfComplement(value, p);
    }
  }

  datatype ShiftResult = Shifted64(value: int) | NegativeCount | CountTooLarge

  /** Width in bits of a shift's left operand. */
  function ShiftWidth(size: int): nat {
    if size <= 0 || size > 8 then 64 else size * 8
  }

  /** `lhs << rhs` and `lhs >> rhs`: counts outside 0..width-1 are rejected; an unsigned left operand is shifted
      down with zeros. */
  function ShiftConstant(lhs: int, rhs: int, left: bool, size: int, unsigned: bool): ShiftResult
    requires InRange(8, true, lhs)
  {
    if rhs < 0 then NegativeCount
    else if rhs >= ShiftWidth(size) then CountTooLarge
    else if left then Shifted64(AsSigned(lhs % WORD * Pow2(rhs) % WORD))
    else if unsigned then Shifted64(AsSigned(lhs % WORD / Pow2(rhs)))
    else Shifted64(ArithmeticShiftRight(lhs, rhs))
  }

  /** An accepted right shift rounds the operand down: a signed one as it stands, an unsigned one as the 64-bit
      pattern it is kept in. The result is again a 64-bit value. */
  lemma {:induction false} RightShiftIsFloor(lhs: int, rhs: int, size: int, unsigned: bool)
    requires InRange(8, true, lhs) && 0 <= rhs < ShiftWidth(size)
    ensures var x := if unsigned then lhs % WORD else lhs;
            var r := ShiftConstant(lhs, rhs, false, size, unsigned);
            && r.Shifted64? && InRange(8, true, r.value)
            && (var y := if unsigned then r.value % WORD else r.value;
                FloorOf(y, x, Pow2(rhs)))
  {
    if unsigned {
      DivisionBounds(lhs % WORD, Pow2(rhs));
      QuotientNotAbove(lhs % WORD, Pow2(rhs));
    } else {
      ShiftIsFloor(lhs, rhs);
      ShrinksInRange(lhs, ArithmeticShiftRight(lhs, rhs), Pow2(rhs));
    }
  }

  /** An accepted left shift multiplies, modulo 2^64. */
  lemma {:induction false} LeftShiftMultiplies(lhs: int, rhs: int, size: int, unsigned: bool)
    requires InRange(8, true, lhs) && 0 <= rhs < ShiftWidth(size)
    ensures var r := ShiftConstant(lhs, rhs, true, size, unsigned);
            r.Shifted64? && InRange(8, true, r.value) && Congruent(r.value, lhs * Pow2(rhs), WORD)
  {
    var p := Pow2(rhs);
    var u := lhs % WORD;
    EuclidCongruent(u * p, WORD);
    EuclidCongruent(lhs, WORD);
    CongruentScaled(u, lhs, p, WORD);
    CongruentChain(u * p % WORD, u * p, lhs * p, WORD);
    Shifted(u * p % WORD, lhs * p, WORD);
  }

  /** A shift is accepted exactly when its count is below the number of bits of the operand's type, 64 for a type of no
      size or of more than 8 bytes; the two refusals say on which side the count lies. A cast needs a type with a size. */
  lemma RefusedIff(lhs: int, rhs: int, left: bool, size: int, unsigned: bool)
    requires InRange(8, true, lhs)
    ensures var r := ShiftConstant(lhs, rhs, left, size, unsigned); var bits := if 1 <= size < 8 then 8 * size else 64;
      && (r.Shifted64? <==> 0 <= rhs < bits)
      && (r.NegativeCount? <==> rhs < 0)
    ensures CastConstant(lhs, size, unsigned).Some? <==> size > 0
  {
    hide AsSigned, Pow2, Pow256, ArithmeticShiftRight;
  }
}
