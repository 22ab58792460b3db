/**
 What the operators of an expression do bit by bit, without the numbers the evaluator goes
 through: comparison from the top, addition with a carry, multiplication by shifts and sums,
 truth and choice.
 */
module OperatorBits {
  import opened Division
  import opened LogicValues
  import opened OperatorLaws
  import opened Expressions

  // ---------------------------------------------------------------------------
  // Bits and numbers
  // ---------------------------------------------------------------------------

  /** The i-th bit from the low end, and 0 above the highest one. */
  function FromLow(bits: seq<Bit>, i: nat): Bit {
    if i < |bits| then bits[|bits| - 1 - i] else B0
  }

  /** `n` copies of a bit above the others. */
  function Padded(top: Bit, bits: seq<Bit>, width: nat): (out: seq<Bit>)
    requires width >= |bits|
    ensures |out| == width
  {
    Repeat(top, width - |bits|) + bits
  }

  lemma {:induction false} PaddedFront(top: Bit, bits: seq<Bit>, width: nat)
    requires 0 < |bits| <= width
    ensures var out := Padded(top, bits, width);
            out[..width - 1] == Padded(top, bits[..|bits| - 1], width - 1) && out[width - 1] == bits[|bits| - 1]
  {}

  /** Zeros above the bits do not change the number. */
  lemma {:induction false} ZerosAbove(bits: seq<Bit>, width: nat)
    requires width >= |bits|
    ensures ToUint(Padded(B0, bits, width)) == ToUint(bits)
  {
    if bits == [] {
      assert Padded(B0, bits, width) == Repeat(B0, width);
      ZeroNumber(width);
    } else {
      PaddedFront(B0, bits, width);
      ZerosAbove(bits[..|bits| - 1], width - 1);
    }
  }

  lemma {:induction false} OnesNumber(n: nat)
    ensures ToUint(Repeat(B1, n)) == Pow2(n) - 1
  {
    if n > 0 {
      assert Repeat(B1, n)[..n - 1] == Repeat(B1, n - 1);
      OnesNumber(n - 1);
    }
  }

  lemma {:induction false} OnesAbove(bits: seq<Bit>, width: nat)
    requires width >= |bits|
    ensures ToUint(Padded(B1, bits, width)) == ToUint(bits) + Pow2(width) - Pow2(|bits|)
  {
    if bits == [] {
      assert Padded(B1, bits, width) == Repeat(B1, width);
      OnesNumber(width);
    } else {
      PaddedFront(B1, bits, width);
      OnesAbove(bits[..|bits| - 1], width - 1);
    }
  }

  /** The highest bit counts half of the range. */
  lemma {:induction false} TopBit(bits: seq<Bit>)
    requires bits != []
    ensures ToUint(bits) == (if bits[0] == B1 then Pow2(|bits| - 1) else 0) + ToUint(bits[1..])
  {
    var n := |bits| - 1;
    if n == 0 {
      assert bits[..0] == [] && bits[1..] == [];
    } else {
      TopBit(bits[..n]);
      assert bits[..n][1..] == bits[1..][..n - 1];
    }
  }

  // ---------------------------------------------------------------------------
  // Comparison
  // ---------------------------------------------------------------------------

  /** At the first differing bit from the top `a` has 0 and `b` has 1. */
  ghost predicate BitsBelow(a: seq<Bit>, b: seq<Bit>) {
    |a| == |b| && exists k :: 0 <= k < |a| && a[..k] == b[..k] && a[k] == B0 && b[k] == B1
  }

  /** The same with the sign bit counted the other way. */
  ghost predicate SignedBelow(a: seq<Bit>, b: seq<Bit>) {
    && |a| == |b| > 0
    && if a[0] == b[0] then BitsBelow(a[1..], b[1..]) else a[0] == B1
  }

  lemma {:induction false} BelowStep(a: seq<Bit>, b: seq<Bit>)
    requires |a| == |b| > 0
    ensures var n := |a| - 1;
            BitsBelow(a, b) <==> BitsBelow(a[..n], b[..n]) || (a[..n] == b[..n] && a[n] == B0 && b[n] == B1)
  {
    var n := |a| - 1;
    if BitsBelow(a, b) {
      var k :| 0 <= k < |a| && a[..k] == b[..k] && a[k] == B0 && b[k] == B1;
      if k < n {
        assert a[..n][..k] == a[..k] && b[..n][..k] == b[..k];
        assert a[..n][k] == B0 && b[..n][k] == B1;
      }
    }
    if BitsBelow(a[..n], b[..n]) {
      var k :| 0 <= k < n && a[..n][..k] == b[..n][..k] && a[..n][k] == B0 && b[..n][k] == B1;
      assert a[..n][..k] == a[..k] && b[..n][..k] == b[..k];
    }
  }

  lemma {:induction false} SameNumbers(a: seq<Bit>, b: seq<Bit>)
    requires |a| == |b| && IsDefinite(a) && IsDefinite(b)
    ensures a == b <==> ToUint(a) == ToUint(b)
  {
    NatOfUint(a);
    NatOfUint(b);
  }

  lemma {:induction false} BelowIsLess(a: seq<Bit>, b: seq<Bit>)
    requires |a| == |b| && IsDefinite(a) && IsDefinite(b)
    ensures BitsBelow(a, b) <==> ToUint(a) < ToUint(b)
  {
    if a != [] {
      var n := |a| - 1;
      BelowStep(a, b);
      BelowIsLess(a[..n], b[..n]);
      SameNumbers(a[..n], b[..n]);
      assert a[n].Definite() && b[n].Definite();
      assert ToUint(a) == 2 * ToUint(a[..n]) + if a[n] == B1 then 1 else 0;
      assert ToUint(b) == 2 * ToUint(b[..n]) + if b[n] == B1 then 1 else 0;
    }
  }

  lemma {:induction false} SignedBelowIsLess(a: seq<Bit>, b: seq<Bit>)
    requires |a| == |b| > 0 && IsDefinite(a) && IsDefinite(b)
    ensures SignedBelow(a, b) <==> ToSigned(ToUint(a), |a|) < ToSigned(ToUint(b), |b|)
  {
    assert a[0].Definite() && b[0].Definite();
    TopBit(a);
    TopBit(b);
    UintBound(a);
    UintBound(b);
    UintBound(a[1..]);
    UintBound(b[1..]);
    SignBit(ToUint(a), |a|);
    SignBit(ToUint(b), |b|);
    BelowIsLess(a[1..], b[1..]);
  }

  /** A value extended by its own rule: the sign bit if it is signed, zeros otherwise. */
  function Extended(v: LogicValue, width: nat): (bits: seq<Bit>)
    requires width >= |v.bits|
    ensures |bits| == width
  {
    Padded(if v.signed then v.bits[0] else B0, v.bits, width)
  }

  /** What a value counts in a comparison. */
  function Counts(v: LogicValue): int {
    if v.signed then ToSigned(ToUint(v.bits), |v.bits|) else ToUint(v.bits)
  }

  lemma {:induction false} ExtendedCounts(v: LogicValue, width: nat)
    requires IsDefinite(v.bits) && width > |v.bits|
    ensures IsDefinite(Extended(v, width)) && ToSigned(ToUint(Extended(v, width)), width) == Counts(v)
  {
    var n := |v.bits|;
    assert v.bits[0].Definite();
    UintBound(v.bits);
    TopBit(v.bits);
    UintBound(v.bits[1..]);
    ZerosAbove(v.bits, width);
    OnesAbove(v.bits, width);
    SignBit(ToUint(v.bits), n);
    PowersGrow(n, width);
    SignBit(ToUint(Extended(v, width)), width);
  }

  lemma {:induction false} PowersGrow(n: nat, width: nat)
    requires n < width
    ensures 2 * Pow2(n) <= Pow2(width) == 2 * Pow2(width - 1)
  {
    if n < width - 1 {
      PowersGrow(n, width - 1);
    }
  }

  lemma {:induction false} SignedSame(a: seq<Bit>, b: seq<Bit>)
    requires |a| == |b| > 0 && IsDefinite(a) && IsDefinite(b)
    ensures a == b <==> ToSigned(ToUint(a), |a|) == ToSigned(ToUint(b), |b|)
  {
    SameNumbers(a, b);
    UintBound(a);
    UintBound(b);
    SignBit(ToUint(a), |a|);
    SignBit(ToUint(b), |b|);
  }

  /** Each extended past the wider one by its own rule, `a` comes first from the top. */
  ghost predicate Below(a: LogicValue, b: LogicValue) {
    SignedBelow(Extended(a, Wider(a, b)), Extended(b, Wider(a, b)))
  }

  ghost predicate Alike(a: LogicValue, b: LogicValue) {
    Extended(a, Wider(a, b)) == Extended(b, Wider(a, b))
  }

  function Wider(a: LogicValue, b: LogicValue): (w: nat)
    ensures w > |a.bits| && w > |b.bits|
  {
    (if |a.bits| > |b.bits| then |a.bits| else |b.bits|) + 1
  }

  lemma {:induction false} BelowCounts(a: LogicValue, b: LogicValue)
    requires IsDefinite(a.bits) && IsDefinite(b.bits)
    ensures Below(a, b) <==> Counts(a) < Counts(b)
    ensures Alike(a, b) <==> Counts(a) == Counts(b)
  {
    var w := Wider(a, b);
    ExtendedCounts(a, w);
    ExtendedCounts(b, w);
    SignedBelowIsLess(Extended(a, w), Extended(b, w));
    SignedSame(Extended(a, w), Extended(b, w));
  }

  /** Of unsigned values, after zeros are put above the narrower one. */
  lemma {:induction false} BelowUnsigned(a: LogicValue, b: LogicValue, w: nat)
    requires IsDefinite(a.bits) && IsDefinite(b.bits) && !a.signed && !b.signed
    requires w >= |a.bits| && w >= |b.bits|
    ensures Below(a, b) <==> BitsBelow(Padded(B0, a.bits, w), Padded(B0, b.bits, w))
    ensures Alike(a, b) <==> Padded(B0, a.bits, w) == Padded(B0, b.bits, w)
  {
    BelowCounts(a, b);
    ZerosAbove(a.bits, w);
    ZerosAbove(b.bits, w);
    BelowIsLess(Padded(B0, a.bits, w), Padded(B0, b.bits, w));
    SameNumbers(Padded(B0, a.bits, w), Padded(B0, b.bits, w));
  }

  /** Of signed values of one width, the sign bit first and the other way, then the rest from the top. */
  lemma {:induction false} BelowSigned(a: LogicValue, b: LogicValue)
    requires IsDefinite(a.bits) && IsDefinite(b.bits) && a.signed && b.signed && |a.bits| == |b.bits|
    ensures Below(a, b) <==> SignedBelow(a.bits, b.bits)
    ensures Alike(a, b) <==> a.bits == b.bits
  {
    BelowCounts(a, b);
    SignedBelowIsLess(a.bits, b.bits);
    SignedSame(a.bits, b.bits);
  }

  /** What each comparison says when one value is below, above or the same. */
  predicate Verdict(op: Comparison, below: bool, above: bool, same: bool) {
    match op
    case Lt => below
    case Gt => above
    case Le => !above
    case Ge => !below
    case Eq => same
    case CaseEq => same
    case _ => !same
  }

  /** Definite values compare bit by bit from the top. */
  lemma {:induction false} ComparesBits(l: Expr, r: Expr, env: Env, op: Comparison)
    requires IsDefinite(Evaluate(l, env).bits) && IsDefinite(Evaluate(r, env).bits) && op != CaseEq && op != CaseNe
    ensures var a, b := Evaluate(l, env), Evaluate(r, env);
            Evaluate(Binary(Compare(op), l, r), env) == Truth(Verdict(op, Below(a, b), Below(b, a), Alike(a, b)))
  {
    ValuesCompare(op, Evaluate(l, env), Evaluate(r, env));
    Applied(Compare(op), l, r, env);
  }

  lemma {:induction false} ValuesCompare(op: Comparison, a: LogicValue, b: LogicValue)
    requires IsDefinite(a.bits) && IsDefinite(b.bits) && op != CaseEq && op != CaseNe
    ensures EvalComparison(op, a, b) == Truth(Verdict(op, Below(a, b), Below(b, a), Alike(a, b)))
  {
    BelowCounts(a, b);
    BelowCounts(b, a);
    ComparesCounts(op, a, b);
  }

  lemma {:induction false} ComparesCounts(op: Comparison, a: LogicValue, b: LogicValue)
    requires IsDefinite(a.bits) && IsDefinite(b.bits) && op != CaseEq && op != CaseNe
    ensures EvalComparison(op, a, b) ==
            Truth(Verdict(op, Counts(a) < Counts(b), Counts(b) < Counts(a), Counts(a) == Counts(b)))
  {}

  /** Case equality looks at bits and width only; every other comparison is x exactly if a value is unknown. */
  lemma {:induction false} ComparesUnknown(op: Comparison, a: LogicValue, b: LogicValue)
    ensures var r := EvalComparison(op, a, b);
            if op == CaseEq then r == Truth(a.bits == b.bits)
            else if op == CaseNe then r == Truth(a.bits != b.bits)
            else r == OneBit(BX) <==> !IsDefinite(a.bits) || !IsDefinite(b.bits)
  {
    if IsDefinite(a.bits) && IsDefinite(b.bits) && op != CaseEq && op != CaseNe {
      ComparesCounts(op, a, b);
    }
  }

  // ---------------------------------------------------------------------------
  // Arithmetic
  // ---------------------------------------------------------------------------

  function Lowest(bits: seq<Bit>): bool {
    bits != [] && bits[|bits| - 1] == B1
  }

  function Rest(bits: seq<Bit>): seq<Bit> {
    if bits == [] then [] else bits[..|bits| - 1]
  }

  function Majority(x: bool, y: bool, z: bool): bool {
    (x && y) || (x && z) || (y && z)
  }

  /** Bit i of a sum, with a carry into the lowest bit. */
  predicate SumBit(a: seq<Bit>, b: seq<Bit>, carry: bool, i: nat) {
    if i == 0 then (Lowest(a) != Lowest(b)) != carry
    else SumBit(Rest(a), Rest(b), Majority(Lowest(a), Lowest(b), carry), i - 1)
  }

  /** A number written in `width` bits, from the low end. */
  lemma {:induction false} NatFromLow(n: nat, width: nat, i: nat)
    requires i < width
    ensures FromLow(FromNat(n, width), i) == if i == 0 then (if n % 2 == 1 then B1 else B0)
                                             else FromLow(FromNat(n / 2, width - 1), i - 1)
  {}

  lemma {:induction false} RestNumber(bits: seq<Bit>)
    ensures ToUint(bits) == 2 * ToUint(Rest(bits)) + if Lowest(bits) then 1 else 0
  {}

  lemma {:induction false} SumFromLow(a: seq<Bit>, b: seq<Bit>, carry: bool, width: nat, i: nat)
    requires i < width
    ensures var n := ToUint(a) + ToUint(b) + if carry then 1 else 0;
            FromLow(FromNat(n, width), i) == if SumBit(a, b, carry, i) then B1 else B0
  {
    var n, next := ToUint(a) + ToUint(b) + (if carry then 1 else 0), Majority(Lowest(a), Lowest(b), carry);
    var half := ToUint(Rest(a)) + ToUint(Rest(b)) + if next then 1 else 0;
    NatFromLow(n, width, i);
    SumHalves(a, b, carry);
    if i > 0 {
      SumFromLow(Rest(a), Rest(b), next, width - 1, i - 1);
      assert FromLow(FromNat(n, width), i) == FromLow(FromNat(half, width - 1), i - 1);
    }
  }

  /** The lowest bit of a sum, and what is carried into the rest. */
  lemma {:induction false} SumHalves(a: seq<Bit>, b: seq<Bit>, carry: bool)
    ensures var n := ToUint(a) + ToUint(b) + if carry then 1 else 0;
            && (n % 2 == 1 <==> ((Lowest(a) != Lowest(b)) != carry))
            && n / 2 == ToUint(Rest(a)) + ToUint(Rest(b)) + if Majority(Lowest(a), Lowest(b), carry) then 1 else 0
  {
    RestNumber(a);
    RestNumber(b);
    HalfOf(ToUint(Rest(a)) + ToUint(Rest(b)),
           (if Lowest(a) then 1 else 0) + (if Lowest(b) then 1 else 0) + if carry then 1 else 0);
  }

  lemma {:induction false} HalfOf(m: nat, x: nat)
    requires x <= 3
    ensures (2 * m + x) / 2 == (if x >= 2 then m + 1 else m) && (2 * m + x) % 2 == if x == 1 || x == 3 then 1 else 0
  {}

  /** A sum of definite values is the wider one wide, and each bit comes from adding with carry. */
  lemma {:induction false} AddsBits(l: Expr, r: Expr, env: Env, i: nat)
    requires IsDefinite(Evaluate(l, env).bits) && IsDefinite(Evaluate(r, env).bits)
    requires i < MaxWidth(Evaluate(l, env), Evaluate(r, env))
    ensures var a, b, sum := Evaluate(l, env), Evaluate(r, env), Evaluate(Binary(Arith(Add), l, r), env);
            && |sum.bits| == MaxWidth(a, b) && !sum.signed
            && FromLow(sum.bits, i) == if SumBit(a.bits, b.bits, false, i) then B1 else B0
  {
    AddsValues(Evaluate(l, env), Evaluate(r, env), i);
    Applied(Arith(Add), l, r, env);
  }

  lemma {:induction false} AddsValues(a: LogicValue, b: LogicValue, i: nat)
    requires IsDefinite(a.bits) && IsDefinite(b.bits) && i < MaxWidth(a, b)
    ensures var sum := EvalArithmetic(Add, a, b);
            && |sum.bits| == MaxWidth(a, b) && !sum.signed
            && FromLow(sum.bits, i) == if SumBit(a.bits, b.bits, false, i) then B1 else B0
  {
    SumFromLow(a.bits, b.bits, false, MaxWidth(a, b), i);
  }

  /** Results are unknown exactly if an operand is, or a divisor is zero. */
  lemma {:induction false} ArithmeticUnknown(op: Arithmetic, a: LogicValue, b: LogicValue)
    ensures var r := EvalArithmetic(op, a, b);
            if !IsDefinite(a.bits) || !IsDefinite(b.bits) || ((op == Div || op == Mod) && B1 !in b.bits)
            then r == Unknown(MaxWidth(a, b))
            else IsDefinite(r.bits) && |r.bits| == MaxWidth(a, b)
  {
    if IsDefinite(b.bits) {
      AllOnes(b.bits);
    }
  }

  /** Adding the negation of a definite value gives zero. */
  lemma {:induction false} NegationCancels(a: LogicValue)
    requires IsDefinite(a.bits)
    ensures EvalArithmetic(Add, a, ApplyUnary(Negate, a)).bits == Repeat(B0, |a.bits|)
  {
    var w := |a.bits|;
    UintBound(a.bits);
    NegatedNumber(a);
    Complement(ToUint(a.bits), Pow2(w));
    ZeroNumber(w);
    AddedNumber(LogicValue(Repeat(B0, w), false), a, ApplyUnary(Negate, a));
  }

  lemma {:induction false} NegatedNumber(a: LogicValue)
    ensures var n := ApplyUnary(Negate, a);
            |n.bits| == |a.bits| && IsDefinite(n.bits)
            && ToUint(n.bits) == Wrapped(Pow2(|a.bits|) - ToUint(a.bits), Pow2(|a.bits|))
  {
    var m, x := Pow2(|a.bits|), ToUint(a.bits);
    UintBound(a.bits);
    Small(x, m);
    Complement(x, m);
    SmallNumber(Wrapped(m - x, m), |a.bits|);
  }

  lemma {:induction false} Complement(x: nat, m: nat)
    requires x < m
    ensures Wrapped(m - x, m) < m && (x + Wrapped(m - x, m)) % m == 0
  {
    if x == 0 {
      Remainder(1, m, 0);
      Remainder(0, m, 0);
    } else {
      Small(m - x, m);
      Remainder(1, m, 0);
    }
  }

  /** Quotient and remainder of numbers: they recombine, and the remainder is below the divisor. */
  lemma {:induction false} DividesExactly(a: LogicValue, b: LogicValue)
    requires IsDefinite(a.bits) && IsDefinite(b.bits) && B1 in b.bits
    ensures var q, r := ToUint(EvalArithmetic(Div, a, b).bits), ToUint(EvalArithmetic(Mod, a, b).bits);
            Product(q, ToUint(b.bits)) + r == ToUint(a.bits) && r < ToUint(b.bits)
  {
    AllOnes(b.bits);
    QuotientParts(ToUint(a.bits), ToUint(b.bits));
    DivisionNumbers(a, b);
  }

  lemma {:induction false} DivisionNumbers(a: LogicValue, b: LogicValue)
    requires IsDefinite(a.bits) && IsDefinite(b.bits) && ToUint(b.bits) > 0
    ensures ToUint(EvalArithmetic(Div, a, b).bits) == Quotient(ToUint(a.bits), ToUint(b.bits))
    ensures ToUint(EvalArithmetic(Mod, a, b).bits) == Wrapped(ToUint(a.bits), ToUint(b.bits))
  {
    UintBound(a.bits);
    PowersOrdered(|a.bits|, MaxWidth(a, b));
    QuotientFits(ToUint(a.bits), ToUint(b.bits), MaxWidth(a, b));
    DivisionBits(a, b);
  }

  lemma {:induction false} DivisionBits(a: LogicValue, b: LogicValue)
    requires IsDefinite(a.bits) && IsDefinite(b.bits) && ToUint(b.bits) > 0
    ensures EvalArithmetic(Div, a, b).bits == FromNat(Quotient(ToUint(a.bits), ToUint(b.bits)), MaxWidth(a, b))
    ensures EvalArithmetic(Mod, a, b).bits == FromNat(Wrapped(ToUint(a.bits), ToUint(b.bits)), MaxWidth(a, b))
  {}

  lemma {:induction false} QuotientFits(x: nat, y: nat, width: nat)
    requires y > 0 && x < Pow2(width)
    ensures ToUint(FromNat(Quotient(x, y), width)) == Quotient(x, y)
    ensures ToUint(FromNat(Wrapped(x, y), width)) == Wrapped(x, y)
  {
    QuotientParts(x, y);
    SmallNumber(Quotient(x, y), width);
    SmallNumber(Wrapped(x, y), width);
  }

  lemma {:induction false} PowersOrdered(n: nat, width: nat)
    requires n <= width
    ensures Pow2(n) <= Pow2(width)
  {
    if n < width {
      PowersOrdered(n, width - 1);
    }
  }

  /** A number taken modulo the width first gives the same bits. */
  lemma {:induction false} SameBits(m: nat, n: nat, width: nat)
    requires m % Pow2(width) == n % Pow2(width)
    ensures FromNat(m, width) == FromNat(n, width)
  {
    UintOfNat(m, width);
    UintOfNat(n, width);
    NatOfUint(FromNat(m, width));
    NatOfUint(FromNat(n, width));
  }

  lemma {:induction false} ModuloAdds(x: nat, y: nat, m: nat)
    requires m > 0
    ensures (x % m + y) % m == (x + y) % m
  {
    var q, r, z := x / m, x % m, x % m + y;
    assert x == q * m + r;
    var p, s := z / m, z % m;
    assert z == p * m + s;
    assert x + y == (q + p) * m + s by { assert (q + p) * m == q * m + p * m; }
    Remainder(q + p, m, s);
  }

  /** Times zero is zero. */
  lemma {:induction false} TimesZero(a: LogicValue, b: LogicValue)
    requires IsDefinite(a.bits) && IsDefinite(b.bits) && B1 !in b.bits
    ensures EvalArithmetic(Mul, a, b).bits == Repeat(B0, MaxWidth(a, b))
  {
    var w := MaxWidth(a, b);
    AllOnes(b.bits);
    ZeroNumber(w);
    Small(0, Pow2(w));
    SameNumber(0, Repeat(B0, w));
  }

  /** All bits one position higher, the highest dropped. */
  function Doubled(v: LogicValue): LogicValue {
    LogicValue(v.bits[1..] + [B0], false)
  }

  /** All bits one position lower, the lowest dropped. */
  function Halved(v: LogicValue): LogicValue {
    LogicValue([B0] + v.bits[..|v.bits| - 1], false)
  }

  lemma {:induction false} DoubledNumber(v: LogicValue)
    ensures ToUint(Doubled(v).bits) == 2 * ToUint(v.bits) % Pow2(|v.bits|)
  {
    var w, d := |v.bits|, Doubled(v).bits;
    assert d[..w - 1] == v.bits[1..];
    TopBit(v.bits);
    UintBound(d);
    if v.bits[0] == B1 {
      Remainder(1, Pow2(w), ToUint(d));
    } else {
      Small(ToUint(d), Pow2(w));
    }
  }

  lemma {:induction false} HalvedNumber(v: LogicValue)
    ensures ToUint(v.bits) == 2 * ToUint(Halved(v).bits) + if Lowest(v.bits) then 1 else 0
  {
    TopBit(Halved(v).bits);
    assert Halved(v).bits[1..] == v.bits[..|v.bits| - 1];
  }

  /** Multiplication by shifts and sums: twice the product with half of `b`, and `a` once more if `b` is odd. */
  lemma {:induction false} MultipliesBits(a: LogicValue, b: LogicValue)
    requires IsDefinite(a.bits) && IsDefinite(b.bits) && |a.bits| == |b.bits|
    ensures var twice := Doubled(EvalArithmetic(Mul, a, Halved(b)));
            EvalArithmetic(Mul, a, b).bits == if Lowest(b.bits) then EvalArithmetic(Add, twice, a).bits else twice.bits
  {
    var twice := Doubled(EvalArithmetic(Mul, a, Halved(b)));
    HalvedNumber(b);
    ProductBits(a, b);
    TwiceProduct(a, Halved(b), twice);
    if Lowest(b.bits) {
      OddProductBits(a, b, twice);
    } else {
      EvenBits(ToUint(a.bits), ToUint(Halved(b).bits), |a.bits|, twice.bits);
    }
  }

  lemma {:induction false} TwiceProduct(a: LogicValue, half: LogicValue, twice: LogicValue)
    requires IsDefinite(a.bits) && IsDefinite(half.bits) && |a.bits| == |half.bits|
    requires twice == Doubled(EvalArithmetic(Mul, a, half))
    ensures IsDefinite(twice.bits) && |twice.bits| == |a.bits|
    ensures ToUint(twice.bits) == Wrapped(2 * Product(ToUint(a.bits), ToUint(half.bits)), Pow2(|a.bits|))
  {
    ProductBits(a, half);
    TwiceNumber(ToUint(a.bits), ToUint(half.bits), |a.bits|);
  }

  lemma {:induction false} OddProductBits(a: LogicValue, b: LogicValue, twice: LogicValue)
    requires IsDefinite(a.bits) && IsDefinite(b.bits) && IsDefinite(twice.bits)
    requires |a.bits| == |b.bits| == |twice.bits| && ToUint(b.bits) == 2 * ToUint(Halved(b).bits) + 1
    requires ToUint(twice.bits) == Wrapped(2 * Product(ToUint(a.bits), ToUint(Halved(b).bits)), Pow2(|a.bits|))
    ensures EvalArithmetic(Mul, a, b).bits == EvalArithmetic(Add, twice, a).bits
  {
    ProductBits(a, b);
    SumBits(twice, a);
    OddBits(ToUint(a.bits), ToUint(Halved(b).bits), |a.bits|, twice.bits);
  }

  lemma {:induction false} ProductBits(a: LogicValue, b: LogicValue)
    requires IsDefinite(a.bits) && IsDefinite(b.bits) && |a.bits| == |b.bits|
    ensures EvalArithmetic(Mul, a, b) == Number(Product(ToUint(a.bits), ToUint(b.bits)), |a.bits|)
  {}

  lemma {:induction false} SumBits(a: LogicValue, b: LogicValue)
    requires IsDefinite(a.bits) && IsDefinite(b.bits) && |a.bits| == |b.bits|
    ensures EvalArithmetic(Add, a, b).bits == FromNat(ToUint(a.bits) + ToUint(b.bits), |a.bits|)
  {}

  /** The doubled product of a number and a half, as a number. */
  lemma {:induction false} TwiceNumber(x: nat, h: nat, w: nat)
    requires w > 0
    ensures ToUint(Doubled(Number(Product(x, h), w)).bits) == Wrapped(2 * Product(x, h), Pow2(w))
  {
    DoubledNumber(Number(Product(x, h), w));
    UintOfNat(Product(x, h), w);
    DoubledProduct(x, h, Pow2(w));
  }

  lemma {:induction false} OddBits(x: nat, h: nat, w: nat, twice: seq<Bit>)
    requires ToUint(twice) == Wrapped(2 * Product(x, h), Pow2(w))
    ensures FromNat(Product(x, 2 * h + 1), w) == FromNat(ToUint(twice) + x, w)
  {
    OddProduct(x, h);
    ModuloAdds(2 * Product(x, h), x, Pow2(w));
    SameBits(ToUint(twice) + x, Product(x, 2 * h + 1), w);
  }

  lemma {:induction false} EvenBits(x: nat, h: nat, w: nat, twice: seq<Bit>)
    requires IsDefinite(twice) && |twice| == w && ToUint(twice) == Wrapped(2 * Product(x, h), Pow2(w))
    ensures FromNat(Product(x, 2 * h), w) == twice
  {
    EvenProduct(x, h);
    SameNumber(Product(x, 2 * h), twice);
  }

  lemma {:induction false} OddProduct(x: nat, h: nat)
    ensures Product(x, 2 * h + 1) == 2 * Product(x, h) + x
  {}

  lemma {:induction false} EvenProduct(x: nat, h: nat)
    ensures Product(x, 2 * h) == 2 * Product(x, h)
  {}

  lemma {:induction false} DoubledProduct(x: nat, h: nat, m: nat)
    requires m > 0
    ensures 2 * (Product(x, h) % m) % m == 2 * Product(x, h) % m
  {
    var n := Product(x, h);
    ModuloAdds(n, n % m, m);
    ModuloAdds(n, n, m);
  }

  /** To the power of zero is one; one power more is one multiplication more. */
  lemma {:induction false} PowersMultiply(a: LogicValue, b: LogicValue)
    requires IsDefinite(a.bits) && IsDefinite(b.bits) && |a.bits| == |b.bits|
    ensures var one := Number(1, |b.bits|);
            EvalArithmetic(Pow, a, b).bits ==
            if B1 !in b.bits then one.bits
            else EvalArithmetic(Mul, a, EvalArithmetic(Pow, a, EvalArithmetic(Sub, b, one))).bits
  {
    AllOnes(b.bits);
    if B1 in b.bits {
      DecrementNumber(b);
      PowerBits(ToUint(a.bits), ToUint(b.bits), |a.bits|);
    }
  }

  lemma {:induction false} DecrementNumber(b: LogicValue)
    requires IsDefinite(b.bits) && ToUint(b.bits) > 0
    ensures var less := EvalArithmetic(Sub, b, Number(1, |b.bits|));
            |less.bits| == |b.bits| && IsDefinite(less.bits) && ToUint(less.bits) == ToUint(b.bits) - 1
  {
    var w, y := |b.bits|, ToUint(b.bits);
    UintBound(b.bits);
    assert Pow2(w) == 2 * Pow2(w - 1);
    SmallNumber(1, w);
    Small(y - 1, Pow2(w));
    SmallNumber(y - 1, w);
  }

  lemma {:induction false} PowerBits(x: nat, y: nat, w: nat)
    requires y > 0
    ensures FromNat(Power(x, y), w) == FromNat(Product(x, ToUint(FromNat(Power(x, y - 1), w))), w)
  {
    UintOfNat(Power(x, y - 1), w);
    ProductModulo(x, Power(x, y - 1), Pow2(w));
    SameBits(Product(x, Power(x, y - 1) % Pow2(w)), Power(x, y), w);
  }

  lemma {:induction false} ProductModulo(x: nat, y: nat, m: nat)
    requires m > 0
    ensures Product(x, y % m) % m == Product(x, y) % m
  {
    if x == 0 {
      assert Product(x, y % m) == 0 == Product(x, y);
    } else {
      ProductModulo(x - 1, y, m);
      assert Product(x, y % m) == Product(x - 1, y % m) + y % m;
      assert Product(x, y) == Product(x - 1, y) + y;
      ModuloAdds(Product(x - 1, y % m), y % m, m);
      ModuloAdds(y, Product(x - 1, y) % m, m);
      ModuloAdds(Product(x - 1, y), y, m);
    }
  }

  /** An arithmetic right shift of an unsigned value is a logical one. */
  lemma {:induction false} UnsignedShift(a: LogicValue, b: LogicValue)
    requires !a.signed
    ensures EvalShift(AShr, a, b) == EvalShift(Shr, a, b)
  {}

  // ---------------------------------------------------------------------------
  // Truth, choice and bits
  // ---------------------------------------------------------------------------

  /** Whether a value is not zero; x if some bit is unknown. */
  function TruthOf(v: LogicValue): Bit {
    if exists i :: 0 <= i < |v.bits| && !v.bits[i].Definite() then BX
    else if B1 in v.bits then B1
    else B0
  }

  lemma {:induction false} TruthKinds(v: LogicValue)
    ensures IsTrue(v) <==> TruthOf(v) == B1
    ensures IsFalse(v) <==> TruthOf(v) == B0
    ensures IsDefinite(v.bits) <==> TruthOf(v) != BX
  {
    if IsDefinite(v.bits) {
      AllOnes(v.bits);
    }
  }

  /** Logical operators are the four-state tables on the truth of their operands. */
  lemma {:induction false} LogicalTables(l: Expr, r: Expr, env: Env)
    ensures var a, b := TruthOf(Evaluate(l, env)), TruthOf(Evaluate(r, env));
            && Evaluate(Binary(LogicalAnd, l, r), env) == OneBit(And(a, b))
            && Evaluate(Binary(LogicalOr, l, r), env) == OneBit(Or(a, b))
            && Evaluate(Unary(LogicalNot, l), env) == OneBit(Not(a))
  {
    Applied(LogicalAnd, l, r, env);
    Applied(LogicalOr, l, r, env);
    UnaryApplied(LogicalNot, l, env);
    LogicalValues(Evaluate(l, env), Evaluate(r, env));
  }

  lemma {:induction false} LogicalValues(a: LogicValue, b: LogicValue)
    ensures EvalLogicalAnd(a, b) == OneBit(And(TruthOf(a), TruthOf(b)))
    ensures EvalLogicalOr(a, b) == OneBit(Or(TruthOf(a), TruthOf(b)))
    ensures EvalLogicalNot(a) == OneBit(Not(TruthOf(a)))
  {
    TruthKinds(a);
    TruthKinds(b);
  }

  /** The tables: 0 decides an and, 1 decides an or, and z counts as x. */
  lemma {:induction false} Tables(a: Bit, b: Bit)
    ensures And(a, b) == B1 <==> a == B1 && b == B1
    ensures And(a, b) == B0 <==> a == B0 || b == B0
    ensures Or(a, b) == B1 <==> a == B1 || b == B1
    ensures Or(a, b) == B0 <==> a == B0 && b == B0
    ensures Xor(a, b) == B1 <==> (a == B1 && b == B0) || (a == B0 && b == B1)
    ensures Xor(a, b) == B0 <==> (a == B1 && b == B1) || (a == B0 && b == B0)
    ensures Not(a) == B1 <==> a == B0
    ensures Not(a) == B0 <==> a == B1
    ensures BZ !in {And(a, b), Or(a, b), Xor(a, b), Not(a)}
  {}

  /** A true condition chooses the first branch, a false one the second, an unknown one what both agree on. */
  lemma {:induction false} Chooses(c: Expr, t: Expr, f: Expr, env: Env, i: nat)
    ensures var a, b, r := Evaluate(t, env), Evaluate(f, env), Evaluate(Ternary(c, t, f), env);
            match TruthOf(Evaluate(c, env))
            case B1 => r == a
            case B0 => r == b
            case _ => AgreesAt(a, b, r, i)
  {
    ChoiceApplied(c, t, f, env);
    ChosenValue(Evaluate(c, env), Evaluate(t, env), Evaluate(f, env), i);
  }

  lemma {:induction false} ChosenValue(c: LogicValue, a: LogicValue, b: LogicValue, i: nat)
    ensures var r := EvalTernary(c, a, b);
            match TruthOf(c)
            case B1 => r == a
            case B0 => r == b
            case _ => AgreesAt(a, b, r, i)
  {
    var w := MaxWidth(a, b);
    TruthKinds(c);
    WidenedBit(a, w, i);
    WidenedBit(b, w, i);
    MergeAgrees(a, b, WithWidth(a, w).bits, WithWidth(b, w).bits, i);
  }

  /** The i-th bit from the low end of a value extended by its own rule. */
  function ExtendedBit(v: LogicValue, i: nat): Bit {
    if i < |v.bits| then v.bits[|v.bits| - 1 - i] else if v.signed then v.bits[0] else B0
  }

  /** As wide as the wider value; a bit on which both agree stays, any other is x. */
  predicate AgreesAt(a: LogicValue, b: LogicValue, r: LogicValue, i: nat) {
    && |r.bits| == Wider(a, b) - 1 && !r.signed
    && (i < |r.bits| ==>
          FromLow(r.bits, i) == if ExtendedBit(a, i) == ExtendedBit(b, i) then ExtendedBit(a, i) else BX)
  }

  lemma {:induction false} WidenedBit(v: LogicValue, width: nat, i: nat)
    requires 0 < width && |v.bits| <= width
    ensures |WithWidth(v, width).bits| == width
    ensures i < width ==> WithWidth(v, width).bits[width - 1 - i] == ExtendedBit(v, i)
  {}

  lemma {:induction false} MergeAgrees(a: LogicValue, b: LogicValue, x: seq<Bit>, y: seq<Bit>, i: nat)
    requires |x| == |y| == Wider(a, b) - 1
    requires i < |x| ==> x[|x| - 1 - i] == ExtendedBit(a, i) && y[|x| - 1 - i] == ExtendedBit(b, i)
    ensures AgreesAt(a, b, LogicValue(Merge(x, y), false), i)
  {
    if i < |x| {
      MergedBit(x, y, i);
    }
  }

  lemma {:induction false} MergedBit(x: seq<Bit>, y: seq<Bit>, i: nat)
    requires |x| == |y| && i < |x|
    ensures var j := |x| - 1 - i; FromLow(Merge(x, y), i) == if x[j] == y[j] then x[j] else BX
  {}

  /** A bitwise operator is as wide as the wider value and applies its table to each pair of bits. */
  lemma {:induction false} GatesBits(gate: Gate, l: Expr, r: Expr, env: Env, i: nat)
    requires i < MaxWidth(Evaluate(l, env), Evaluate(r, env))
    ensures var a, b, v := Evaluate(l, env), Evaluate(r, env), Evaluate(Binary(Bitwise(gate), l, r), env);
            && |v.bits| == MaxWidth(a, b) && !v.signed
            && FromLow(v.bits, i) == TableOf(gate, ExtendedBit(a, i), ExtendedBit(b, i))
  {
    Applied(Bitwise(gate), l, r, env);
    GatedBits(gate, Evaluate(l, env), Evaluate(r, env), i);
  }

  lemma {:induction false} GatedBits(gate: Gate, a: LogicValue, b: LogicValue, i: nat)
    requires i < MaxWidth(a, b)
    ensures var v := EvalBitwise(gate, a, b);
            && |v.bits| == MaxWidth(a, b) && !v.signed
            && FromLow(v.bits, i) == TableOf(gate, ExtendedBit(a, i), ExtendedBit(b, i))
  {
    WidenedBit(a, MaxWidth(a, b), i);
    WidenedBit(b, MaxWidth(a, b), i);
  }

  function TableOf(gate: Gate, a: Bit, b: Bit): Bit {
    match gate
    case GAnd => And(a, b)
    case GOr => Or(a, b)
    case GXor => Xor(a, b)
    case GNand => Not(And(a, b))
    case GNor => Not(Or(a, b))
    case GXnor => Not(Xor(a, b))
  }

  /** A slice has the bits msb down to lsb, x outside the value, and a reversed slice is one x. */
  lemma {:induction false} SlicesBits(e: Expr, env: Env, msb: int, lsb: int, i: nat)
    ensures var v, r := Evaluate(e, env).bits, Evaluate(Slice(e, msb, lsb), env);
            if msb < lsb then r == OneBit(BX)
            else
              && |r.bits| == msb - lsb + 1 && !r.signed
              && (i <= msb - lsb ==>
                    FromLow(r.bits, i) == if 0 <= lsb + i < |v| then v[|v| - 1 - (lsb + i)] else BX)
  {
    SliceApplied(e, msb, lsb, env);
    SlicedBit(Evaluate(e, env), msb, lsb, i);
  }

  lemma {:induction false} SlicedBit(v: LogicValue, msb: int, lsb: int, i: nat)
    ensures var r := EvalSlice(v, msb, lsb);
            if msb < lsb then r == OneBit(BX)
            else
              && |r.bits| == msb - lsb + 1 && !r.signed
              && (i <= msb - lsb ==>
                    FromLow(r.bits, i) == if 0 <= lsb + i < |v.bits| then v.bits[|v.bits| - 1 - (lsb + i)] else BX)
  {
    if msb < lsb {
      assert Repeat(BX, 1) == [BX];
    } else if i <= msb - lsb {
      assert FromLow(EvalSlice(v, msb, lsb).bits, i) == BitAt(v, lsb + i);
    }
  }

  /** A concatenation is its first operand in the high bits, then the others in order. */
  lemma {:induction false} ConcatBits(first: Expr, more: seq<Expr>, env: Env)
    ensures Evaluate(Concat([first] + more), env).bits
         == Evaluate(first, env).bits + if more == [] then [] else Evaluate(Concat(more), env).bits
  {
    var all := [first] + more;
    assert all[0] == first && all[1..] == more;
    var values := EvaluateAll(all, env);
    assert values[0] == Evaluate(first, env) && values[1..] == EvaluateAll(more, env);
    assert Join(values) == values[0].bits + Join(values[1..]);
    assert EvaluateAll([], env) == [] && Join([]) == [];
  }

  /** Reversal mirrors the bits, complement inverts each of them. */
  lemma {:induction false} MirrorsAndInverts(e: Expr, env: Env, i: nat)
    requires i < |Evaluate(e, env).bits|
    ensures var v := Evaluate(e, env);
            && |Evaluate(Reverse(e), env).bits| == |Evaluate(Unary(BitNot, e), env).bits| == |v.bits|
            && Evaluate(Reverse(e), env).bits[i] == v.bits[|v.bits| - 1 - i]
            && Evaluate(Unary(BitNot, e), env).bits[i] == Not(v.bits[i])
  {}
}
