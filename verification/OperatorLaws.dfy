/** Laws that tie the operators of the evaluator to each other and to arithmetic. */
module OperatorLaws {
  import opened Division
  import opened LogicValues

  // ---------------------------------------------------------------------------
  // Numbers
  // ---------------------------------------------------------------------------

  lemma {:induction false} Remainder(q: int, m: nat, r: int)
    requires 0 <= r < m
    ensures (q * m + r) % m == r
  {
    QuotientOf(q, m, r);
  }

  lemma {:induction false} Small(n: nat, m: nat)
    requires n < m
    ensures n % m == n
  {
    Remainder(0, m, n);
  }

  /** The number of the low bits of a small number is the number. */
  lemma {:induction false} SmallNumber(n: nat, width: nat)
    requires n < Pow2(width)
    ensures ToUint(FromNat(n, width)) == n
  {
    UintOfNat(n, width);
    Small(n, Pow2(width));
  }

  /** Bits of the same width with the same number are the same. */
  lemma {:induction false} SameNumber(n: nat, bits: seq<Bit>)
    requires IsDefinite(bits) && n % Pow2(|bits|) == ToUint(bits)
    ensures FromNat(n, |bits|) == bits
  {
    var w := |bits|;
    UintOfNat(n, w);
    NatOfUint(FromNat(n, w));
    NatOfUint(bits);
  }

  lemma {:induction false} PowAdds(a: nat, b: nat)
    ensures Pow2(a + b) == Pow2(a) * Pow2(b)
  {
    if a > 0 {
      PowAdds(a - 1, b);
      assert 2 * (Pow2(a - 1) * Pow2(b)) == (2 * Pow2(a - 1)) * Pow2(b);
    }
  }

  // ---------------------------------------------------------------------------
  // Arithmetic
  // ---------------------------------------------------------------------------

  /** Subtracting and adding back gives the value, wrap-around included. */
  lemma {:induction false} SubtractThenAdd(a: LogicValue, b: LogicValue)
    requires IsDefinite(a.bits) && IsDefinite(b.bits) && |a.bits| == |b.bits|
    ensures EvalArithmetic(Add, EvalArithmetic(Sub, a, b), b).bits == a.bits
  {
    var w, x: int, y: int := |a.bits|, ToUint(a.bits), ToUint(b.bits);
    UintBound(a.bits);
    UintBound(b.bits);
    Difference(x, y, Pow2(w));
    SmallNumber(Wrapped(x - y, Pow2(w)), w);
    AddedNumber(a, EvalArithmetic(Sub, a, b), b);
  }

  lemma {:induction false} AddedNumber(a: LogicValue, d: LogicValue, b: LogicValue)
    requires IsDefinite(a.bits) && IsDefinite(d.bits) && IsDefinite(b.bits) && |a.bits| == |d.bits| == |b.bits|
    requires (ToUint(d.bits) + ToUint(b.bits)) % Pow2(|a.bits|) == ToUint(a.bits)
    ensures EvalArithmetic(Add, d, b).bits == a.bits
  {
    SameNumber(ToUint(d.bits) + ToUint(b.bits), a.bits);
  }

  lemma {:induction false} Difference(x: nat, y: nat, m: nat)
    requires x < m && y < m
    ensures var n := Wrapped(x as int - y, m); n < m && (n + y) % m == x
  {
    if y <= x {
      Remainder(0, m, x - y);
      Small(x, m);
    } else {
      Remainder(-1, m, x - y + m);
      Remainder(1, m, x);
    }
  }

  /** Quotient times divisor plus remainder gives the dividend. */
  lemma {:induction false} DivideRecombines(a: LogicValue, b: LogicValue)
    requires IsDefinite(a.bits) && IsDefinite(b.bits) && |a.bits| == |b.bits| && ToUint(b.bits) != 0
    ensures EvalArithmetic(Add, EvalArithmetic(Mul, EvalArithmetic(Div, a, b), b), EvalArithmetic(Mod, a, b)).bits ==
            a.bits
  {
    var x, y := ToUint(a.bits), ToUint(b.bits);
    UintBound(a.bits);
    QuotientParts(x, y);
    var d, r := EvalArithmetic(Div, a, b), EvalArithmetic(Mod, a, b);
    SmallNumber(Quotient(x, y), |a.bits|);
    SmallNumber(Wrapped(x, y), |a.bits|);
    RecombinedParts(a, b, d, r);
  }

  lemma {:induction false} RecombinedParts(a: LogicValue, b: LogicValue, d: LogicValue, r: LogicValue)
    requires IsDefinite(a.bits) && IsDefinite(b.bits) && IsDefinite(d.bits) && IsDefinite(r.bits)
    requires |a.bits| == |b.bits| == |d.bits| == |r.bits|
    requires Product(ToUint(d.bits), ToUint(b.bits)) + ToUint(r.bits) == ToUint(a.bits)
    ensures EvalArithmetic(Add, EvalArithmetic(Mul, d, b), r).bits == a.bits
  {
    var w, n := |a.bits|, Product(ToUint(d.bits), ToUint(b.bits));
    UintBound(a.bits);
    SmallNumber(n, w);
    Small(ToUint(a.bits), Pow2(w));
    SameNumber(n + ToUint(r.bits), a.bits);
  }

  lemma {:induction false} QuotientParts(x: nat, y: nat)
    requires y > 0
    ensures Quotient(x, y) <= x && Wrapped(x, y) <= x && Product(Quotient(x, y), y) <= x
    ensures Product(Quotient(x, y), y) + Wrapped(x, y) == x
  {
    var q, r := x / y, x % y;
    QuotientNatural(x, y);
    Multiple(y, if q > 0 then q else 1);
    assert x == q * y + r && q * y == y * q;
  }

  // ---------------------------------------------------------------------------
  // Shifts
  // ---------------------------------------------------------------------------

  /** Left shifts multiply modulo the width, for any amount. */
  lemma {:induction false} ShiftLeftScales(op: Shift, a: LogicValue, b: LogicValue)
    requires IsDefinite(a.bits) && IsDefinite(b.bits) && (op == Shl || op == AShl)
    ensures ToUint(EvalShift(op, a, b).bits) == Wrapped(ShiftLeft(ToUint(a.bits), ToUint(b.bits)), Pow2(|a.bits|))
  {
    var w, x, k := |a.bits|, ToUint(a.bits), ToUint(b.bits);
    if k >= w {
      ShiftedAway(x, k, w);
      ZeroNumber(w);
    } else {
      UintOfNat(ShiftLeft(x, k), w);
    }
  }

  lemma {:induction false} ShiftedAway(x: nat, k: nat, w: nat)
    requires k >= w
    ensures Wrapped(ShiftLeft(x, k), Pow2(w)) == 0
  {
    PowAdds(w, k - w);
    var m, rest := Pow2(w), Pow2(k - w);
    assert x * (m * rest) == (x * rest) * m;
    Remainder(x * rest, m, 0);
  }

  lemma {:induction false} ZeroNumber(w: nat)
    ensures ToUint(Repeat(B0, w)) == 0
  {
    if w > 0 {
      assert Repeat(B0, w)[..w - 1] == Repeat(B0, w - 1);
      ZeroNumber(w - 1);
    }
  }

  /** Logical right shifts divide, for any amount. */
  lemma {:induction false} ShiftRightDivides(a: LogicValue, b: LogicValue)
    requires IsDefinite(a.bits) && IsDefinite(b.bits)
    ensures ToUint(EvalShift(Shr, a, b).bits) == ShiftRight(ToUint(a.bits), ToUint(b.bits))
  {
    var w, x, k := |a.bits|, ToUint(a.bits), ToUint(b.bits);
    UintBound(a.bits);
    if k >= w {
      ShiftedOut(x, k, w);
      ZeroNumber(w);
    } else {
      ShiftedSmaller(x, k);
      SmallNumber(ShiftRight(x, k), w);
    }
  }

  lemma {:induction false} ShiftedSmaller(x: nat, k: nat)
    ensures ShiftRight(x, k) <= x
  {
    QuotientParts(x, Pow2(k));
  }

  /** The sign bit of a number. */
  lemma {:induction false} SignBit(n: nat, w: nat)
    requires w > 0 && n < Pow2(w)
    ensures ShiftRight(n, w - 1) % 2 == 1 <==> n >= Pow2(w - 1)
    ensures ToSigned(n, w) == if n >= Pow2(w - 1) then n - Pow2(w) else n
  {
    var half := Pow2(w - 1);
    if n >= half {
      QuotientOf(1, half, n - half);
    } else {
      QuotientOf(0, half, n);
    }
  }

  /** The high part of a negative number stays where the sign fill puts it. */
  lemma {:induction false} SignFilled(x: nat, k: nat, w: nat)
    requires k < w && Pow2(w - 1) <= x < Pow2(w)
    ensures var n := ShiftRight(x, k) + SignFill(k, w);
            Pow2(w - 1) <= n < Pow2(w) && n - Pow2(w) == (x - Pow2(w)) / Pow2(k)
  {
    var p, h, q := Pow2(k), Pow2(w - k), x / Pow2(k);
    PowAdds(k, w - k);
    assert x == q * p + x % p;
    FillQuotient(q, x % p, p, h);
    QuotientNatural(x, p);
    FillSize(k, w);
    if k == 0 {
      Remainder(x, 1, 0);
      QuotientOf(x, 1, 0);
    }
  }

  /** The fill reaches from the low bits to the full width, and past half of it if it is not empty. */
  lemma {:induction false} FillSize(k: nat, w: nat)
    requires k < w
    ensures SignFill(k, w) == Pow2(w) - Pow2(w - k)
    ensures if k == 0 then SignFill(k, w) == 0 else SignFill(k, w) >= Pow2(w - 1)
  {
    PowAdds(k, w - k);
    OneLess(Pow2(k), Pow2(w - k));
    if k > 0 {
      HalfLeft(k, w);
    }
  }

  lemma {:induction false} OneLess(p: nat, h: nat)
    requires p >= 1
    ensures (p - 1) * h == p * h - h
  {}

  lemma {:induction false} HalfLeft(k: nat, w: nat)
    requires 0 < k < w
    ensures Pow2(w - k) <= Pow2(w - 1) && Pow2(w) == 2 * Pow2(w - 1)
  {
    PowAdds(k - 1, w - k);
    Multiple(Pow2(k - 1), Pow2(w - k));
  }

  lemma {:induction false} FillQuotient(q: int, r: int, p: int, h: int)
    requires p >= 1 && 0 <= r < p && q * p + r < p * h
    ensures q < h && (q * p + r - p * h) / p == q - h
  {
    Multiple(q - h + 1, p);
    assert (q - h + 1) * p == q * p - p * h + p;
    assert (q - h) * p + r == q * p + r - p * h;
    QuotientOf(q - h, p, r);
  }

  /**
   An arithmetic right shift of a signed value divides it by the power of two, rounding down,
   exactly if the amount is below the width or the value is not negative.
   */
  lemma {:induction false} ArithmeticShiftDivides(a: LogicValue, b: LogicValue)
    requires IsDefinite(a.bits) && IsDefinite(b.bits) && a.signed
    ensures var w, k, v := |a.bits|, ToUint(b.bits), ToSigned(ToUint(a.bits), |a.bits|);
            ToSigned(ToUint(EvalShift(AShr, a, b).bits), w) == v / Pow2(k) <==> k < w || v >= 0
  {
    var w, x, k := |a.bits|, ToUint(a.bits), ToUint(b.bits);
    UintBound(a.bits);
    SignBit(x, w);
    if k >= w {
      ShiftedOut(x, k, w);
      ZeroNumber(w);
      SignBit(0, w);
    } else if x >= Pow2(w - 1) {
      SignFilled(x, k, w);
      SmallNumber(ShiftRight(x, k) + SignFill(k, w), w);
      SignBit(ShiftRight(x, k) + SignFill(k, w), w);
    } else {
      ShiftedSmaller(x, k);
      SmallNumber(ShiftRight(x, k), w);
      SignBit(ShiftRight(x, k), w);
    }
  }

  /** Shifted by the width or more, nothing is left of a number, and -1 of a negative one. */
  lemma {:induction false} ShiftedOut(x: nat, k: nat, w: nat)
    requires k >= w && x < Pow2(w)
    ensures x / Pow2(k) == 0 && (x as int - Pow2(w)) / Pow2(k) == -1
  {
    PowAdds(w, k - w);
    Multiple(Pow2(k - w), Pow2(w));
    QuotientOf(0, Pow2(k), x);
    QuotientOf(-1, Pow2(k), x - Pow2(w) + Pow2(k));
  }

  // ---------------------------------------------------------------------------
  // Bits
  // ---------------------------------------------------------------------------

  lemma {:induction false} FullWidth(v: LogicValue)
    ensures WithWidth(v, |v.bits|).bits == v.bits
  {}

  /** De Morgan's law on four-state values, both ways round. */
  lemma {:induction false} DeMorgan(a: LogicValue, b: LogicValue)
    requires |a.bits| == |b.bits|
    ensures EvalNot(EvalBitwise(GAnd, a, b)).bits == EvalBitwise(GOr, EvalNot(a), EvalNot(b)).bits
    ensures EvalNot(EvalBitwise(GOr, a, b)).bits == EvalBitwise(GAnd, EvalNot(a), EvalNot(b)).bits
  {
    FullWidth(a);
    FullWidth(b);
    FullWidth(EvalNot(a));
    FullWidth(EvalNot(b));
    ZipDeMorgan(a.bits, b.bits);
  }

  lemma {:induction false} ZipDeMorgan(a: seq<Bit>, b: seq<Bit>)
    requires |a| == |b|
    ensures Invert(Zip(GAnd, a, b)) == Zip(GOr, Invert(a), Invert(b))
    ensures Invert(Zip(GOr, a, b)) == Zip(GAnd, Invert(a), Invert(b))
  {
    forall i | 0 <= i < |a|
      ensures Invert(Zip(GAnd, a, b))[i] == Zip(GOr, Invert(a), Invert(b))[i]
      ensures Invert(Zip(GOr, a, b))[i] == Zip(GAnd, Invert(a), Invert(b))[i]
    {
      BitDeMorgan(a[i], b[i]);
    }
  }

  lemma {:induction false} BitDeMorgan(a: Bit, b: Bit)
    ensures Not(And(a, b)) == Or(Not(a), Not(b)) && Not(Or(a, b)) == And(Not(a), Not(b))
  {}

  /** Slices of a concatenation give the operands back, the last operand in the low bits. */
  lemma {:induction false} SliceOfConcat(a: LogicValue, b: LogicValue)
    ensures var v, low := EvalConcat([a, b]), |b.bits|;
            && EvalSlice(v, low - 1, 0).bits == b.bits
            && EvalSlice(v, low + |a.bits| - 1, low).bits == a.bits
  {
    JoinTwo(a, b);
    var v, low := EvalConcat([a, b]), |b.bits|;
    forall i | 0 <= i < low
      ensures EvalSlice(v, low - 1, 0).bits[i] == b.bits[i]
    {
      assert BitAt(v, low - 1 - i) == v.bits[|a.bits| + i];
    }
    forall i | 0 <= i < |a.bits|
      ensures EvalSlice(v, low + |a.bits| - 1, low).bits[i] == a.bits[i]
    {
      assert BitAt(v, low + |a.bits| - 1 - i) == v.bits[i];
    }
  }

  lemma {:induction false} JoinTwo(a: LogicValue, b: LogicValue)
    ensures EvalConcat([a, b]) == LogicValue(a.bits + b.bits, false)
  {
    assert [a, b][1..] == [b] && [b][1..] == [];
    assert Join([b]) == b.bits + Join([]) == b.bits;
  }

  /** A slice of the reversed value is the reversed slice from the other end. */
  lemma {:induction false} SliceOfReverse(v: LogicValue, msb: int, lsb: int)
    requires 0 <= lsb <= msb < |v.bits|
    ensures var n := |v.bits| - 1;
            EvalSlice(EvalReverse(v), msb, lsb).bits == EvalReverse(EvalSlice(v, n - lsb, n - msb)).bits
  {
    var n, s := |v.bits| - 1, EvalSlice(v, |v.bits| - 1 - lsb, |v.bits| - 1 - msb);
    forall j | 0 <= j <= msb - lsb
      ensures s.bits[j] == v.bits[lsb + j]
    {
      assert s.bits[j] == BitAt(v, n - lsb - j);
    }
    forall i | 0 <= i <= msb - lsb
      ensures EvalSlice(EvalReverse(v), msb, lsb).bits[i] == EvalReverse(s).bits[i]
    {
      assert EvalSlice(EvalReverse(v), msb, lsb).bits[i] == BitAt(EvalReverse(v), msb - i) == v.bits[msb - i];
    }
  }

  // ---------------------------------------------------------------------------
  // Comparisons
  // ---------------------------------------------------------------------------

  /** On definite values exactly one of less, equal and greater holds, and the others follow. */
  lemma {:induction false} Trichotomy(a: LogicValue, b: LogicValue)
    requires IsDefinite(a.bits) && IsDefinite(b.bits)
    ensures var lt, eq, gt := EvalComparison(Lt, a, b), EvalComparison(Eq, a, b), EvalComparison(Gt, a, b);
            && multiset{lt, eq, gt} == multiset{OneBit(B1), OneBit(B0), OneBit(B0)}
            && gt == EvalComparison(Lt, b, a)
            && EvalComparison(Ne, a, b) == EvalLogicalNot(eq)
            && EvalComparison(Le, a, b) == EvalLogicalNot(gt)
            && EvalComparison(Ge, a, b) == EvalLogicalNot(lt)
  {
    assert ToUint([B1]) == 1 && ToUint([B0]) == 0;
  }

  /** Unsigned values of one width are equal as numbers exactly if their bits are. */
  lemma {:induction false} EqualIsSameBits(a: LogicValue, b: LogicValue)
    requires IsDefinite(a.bits) && IsDefinite(b.bits) && |a.bits| == |b.bits| && !a.signed && !b.signed
    ensures EvalComparison(Eq, a, b) == EvalComparison(CaseEq, a, b)
  {
    NatOfUint(a.bits);
    NatOfUint(b.bits);
  }
}
