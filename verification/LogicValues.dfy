/**
 Four-state values (0, 1, x, z), most significant bit first, and the operators on them.
 */
module LogicValues {
  import opened Division

  datatype Bit = B0 | B1 | BX | BZ {
    predicate Definite() {
      B0? || B1?
    }
  }

  /** At least one bit. */
  type Bits = bits: seq<Bit> | |bits| > 0 witness [BX]

  datatype RawValue = LogicValue(bits: seq<Bit>, signed: bool)

  /** A value has at least one bit; its width is the number of bits. */
  type LogicValue = v: RawValue | |v.bits| > 0 witness LogicValue([BX], false)

  function Repeat(b: Bit, n: nat): (bits: seq<Bit>)
    ensures |bits| == n && forall i :: 0 <= i < n ==> bits[i] == b
  {
    seq(n, _ => b)
  }

  function Unknown(width: nat): LogicValue
    requires width > 0
  {
    LogicValue(Repeat(BX, width), false)
  }

  function OneBit(b: Bit): LogicValue {
    LogicValue([b], false)
  }

  function Truth(b: bool): LogicValue {
    OneBit(if b then B1 else B0)
  }

  predicate IsDefinite(bits: seq<Bit>) {
    forall i :: 0 <= i < |bits| ==> bits[i].Definite()
  }

  function Pow2(n: nat): (p: nat)
    ensures p >= 1
  {
    if n == 0 then 1 else 2 * Pow2(n - 1)
  }

  function Power(a: nat, b: nat): nat {
    if b == 0 then 1 else a * Power(a, b - 1)
  }

  /** The unsigned number; x and z count as 0. */
  function ToUint(bits: seq<Bit>): nat {
    if bits == [] then 0 else 2 * ToUint(bits[..|bits| - 1]) + (if bits[|bits| - 1] == B1 then 1 else 0)
  }

  /** The low `width` bits of `n`. */
  function FromNat(n: nat, width: nat): (bits: seq<Bit>)
    ensures |bits| == width && IsDefinite(bits)
  {
    if width == 0 then [] else FromNat(n / 2, width - 1) + [if n % 2 == 1 then B1 else B0]
  }

  function Number(n: nat, width: nat): LogicValue
    requires width > 0
  {
    LogicValue(FromNat(n, width), false)
  }

  function ToSigned(val: nat, width: nat): int
    requires width > 0
  {
    if ShiftRight(val, width - 1) % 2 == 1 then val - Pow2(width) else val
  }

  /** Truncate, or extend by the sign bit of a signed value and by zeros otherwise. */
  function WithWidth(v: LogicValue, width: nat): LogicValue
    requires width > 0
  {
    if width <= |v.bits| then LogicValue(v.bits[|v.bits| - width..], v.signed)
    else LogicValue(Repeat(if v.signed then v.bits[0] else B0, width - |v.bits|) + v.bits, v.signed)
  }

  function MaxWidth(a: LogicValue, b: LogicValue): (w: nat)
    ensures w >= |a.bits| && w >= |b.bits| && (w == |a.bits| || w == |b.bits|)
  {
    if |a.bits| > |b.bits| then |a.bits| else |b.bits|
  }

  // ---------------------------------------------------------------------------
  // Truth tables
  // ---------------------------------------------------------------------------

  function And(a: Bit, b: Bit): Bit {
    if a == B0 || b == B0 then B0 else if a == B1 && b == B1 then B1 else BX
  }

  function Or(a: Bit, b: Bit): Bit {
    if a == B1 || b == B1 then B1 else if a == B0 && b == B0 then B0 else BX
  }

  function Xor(a: Bit, b: Bit): Bit {
    if a.Definite() && b.Definite() then (if a == b then B0 else B1) else BX
  }

  function Not(a: Bit): Bit {
    match a
    case B0 => B1
    case B1 => B0
    case _ => BX
  }

  // ---------------------------------------------------------------------------
  // Operators
  // ---------------------------------------------------------------------------

  datatype Gate = GAnd | GOr | GXor | GNand | GNor | GXnor {
    predicate Inverted() {
      GNand? || GNor? || GXnor?
    }

    /** The table of the gate without its inversion. */
    function Base(a: Bit, b: Bit): Bit {
      match this
      case GAnd => And(a, b)
      case GNand => And(a, b)
      case GOr => Or(a, b)
      case GNor => Or(a, b)
      case _ => Xor(a, b)
    }

    function Apply(a: Bit, b: Bit): Bit {
      if Inverted() then Not(Base(a, b)) else Base(a, b)
    }
  }

  datatype Comparison = Eq | Ne | CaseEq | CaseNe | Lt | Gt | Le | Ge

  datatype Shift = Shl | Shr | AShl | AShr

  datatype Arithmetic = Add | Sub | Mul | Div | Mod | Pow

  function Invert(bits: seq<Bit>): (r: seq<Bit>)
    ensures |r| == |bits|
  {
    seq(|bits|, i requires 0 <= i < |bits| => Not(bits[i]))
  }

  function EvalNot(a: LogicValue): LogicValue {
    LogicValue(Invert(a.bits), a.signed)
  }

  function EvalLogicalNot(a: LogicValue): LogicValue {
    if !IsDefinite(a.bits) then OneBit(BX) else Truth(ToUint(a.bits) == 0)
  }

  function Wrapped(a: int, m: nat): nat
    requires m > 0
  {
    a % m
  }

  function Quotient(a: nat, b: nat): nat
    requires b > 0
  {
    QuotientNatural(a, b);
    a / b
  }

  function EvalNegate(a: LogicValue): LogicValue {
    var m := Pow2(|a.bits|);
    Number(Wrapped(m - Wrapped(ToUint(a.bits), m), m), |a.bits|)
  }

  function Ones(bits: seq<Bit>): nat {
    if bits == [] then 0 else Ones(bits[..|bits| - 1]) + (if bits[|bits| - 1] == B1 then 1 else 0)
  }

  /** The number of ones in the binary form of `n`. */
  function PopCount(n: nat): nat {
    if n == 0 then 0 else PopCount(n / 2) + n % 2
  }

  /** A reduction: by the kinds of bits present when some bit is unknown, else by the number. */
  function EvalReduction(op: Gate, a: LogicValue): LogicValue {
    if !IsDefinite(a.bits) then
      var plain := match op
        case GAnd => if B0 in a.bits then B0 else BX
        case GNand => if B0 in a.bits then B0 else BX
        case GOr => if B1 in a.bits then B1 else BX
        case GNor => if B1 in a.bits then B1 else BX
        case _ => BX;
      OneBit(if op.Inverted() then Not(plain) else plain)
    else
      var n := ToUint(a.bits);
      match op
      case GAnd => Truth(n == Pow2(|a.bits|) - 1)
      case GOr => Truth(n != 0)
      case GXor => Truth(PopCount(n) % 2 == 1)
      case GNand => Truth(n != Pow2(|a.bits|) - 1)
      case GNor => Truth(n == 0)
      case GXnor => Truth(PopCount(n) % 2 == 0)
  }

  function Zip(op: Gate, a: seq<Bit>, b: seq<Bit>): (r: seq<Bit>)
    requires |a| == |b|
    ensures |r| == |a|
  {
    seq(|a|, i requires 0 <= i < |a| => op.Apply(a[i], b[i]))
  }

  function EvalBitwise(op: Gate, a: LogicValue, b: LogicValue): LogicValue {
    var w := MaxWidth(a, b);
    LogicValue(Zip(op, WithWidth(a, w).bits, WithWidth(b, w).bits), false)
  }

  predicate IsTrue(a: LogicValue) {
    IsDefinite(a.bits) && ToUint(a.bits) != 0
  }

  predicate IsFalse(a: LogicValue) {
    IsDefinite(a.bits) && ToUint(a.bits) == 0
  }

  function EvalLogicalAnd(a: LogicValue, b: LogicValue): LogicValue {
    if IsFalse(a) || IsFalse(b) then OneBit(B0)
    else if !IsDefinite(a.bits) || !IsDefinite(b.bits) then OneBit(BX)
    else OneBit(B1)
  }

  function EvalLogicalOr(a: LogicValue, b: LogicValue): LogicValue {
    if IsTrue(a) || IsTrue(b) then OneBit(B1)
    else if !IsDefinite(a.bits) || !IsDefinite(b.bits) then OneBit(BX)
    else OneBit(B0)
  }

  function EvalComparison(op: Comparison, a: LogicValue, b: LogicValue): LogicValue {
    if op == CaseEq then Truth(a.bits == b.bits)
    else if op == CaseNe then Truth(a.bits != b.bits)
    else if !IsDefinite(a.bits) || !IsDefinite(b.bits) then OneBit(BX)
    else
      var x: int := if a.signed then ToSigned(ToUint(a.bits), |a.bits|) else ToUint(a.bits);
      var y: int := if b.signed then ToSigned(ToUint(b.bits), |b.bits|) else ToUint(b.bits);
      match op
      case Eq => Truth(x == y)
      case Ne => Truth(x != y)
      case Lt => Truth(x < y)
      case Gt => Truth(x > y)
      case Le => Truth(x <= y)
      case _ => Truth(x >= y)
  }

  function ShiftLeft(n: nat, k: nat): nat {
    n * Pow2(k)
  }

  function ShiftRight(n: nat, k: nat): nat {
    QuotientNatural(n, Pow2(k));
    n / Pow2(k)
  }

  /** `k` ones above the low `width - k` bits. */
  function SignFill(k: nat, width: nat): nat
    requires k <= width
  {
    ShiftLeft(Pow2(k) - 1, width - k)
  }

  function EvalShift(op: Shift, a: LogicValue, b: LogicValue): LogicValue {
    var w := |a.bits|;
    if !IsDefinite(a.bits) || !IsDefinite(b.bits) then Unknown(w)
    else
      var val, amount := ToUint(a.bits), ToUint(b.bits);
      if amount >= w then LogicValue(Repeat(B0, w), false)
      else match op
        case Shl => Number(ShiftLeft(val, amount), w)
        case AShl => Number(ShiftLeft(val, amount), w)
        case Shr => Number(ShiftRight(val, amount), w)
        case AShr =>
          if a.signed && ShiftRight(val, w - 1) % 2 == 1 then
            LogicValue(FromNat(ShiftRight(val, amount) + SignFill(amount, w), w), true)
          else Number(ShiftRight(val, amount), w)
  }

  function Product(x: nat, y: nat): nat {
    x * y
  }

  function EvalArithmetic(op: Arithmetic, a: LogicValue, b: LogicValue): LogicValue {
    var w := MaxWidth(a, b);
    if !IsDefinite(a.bits) || !IsDefinite(b.bits) then Unknown(w)
    else
      var x, y := ToUint(a.bits), ToUint(b.bits);
      match op
      case Add => Number(x + y, w)
      case Sub => Number(Wrapped(x - y, Pow2(w)), w)
      case Mul => Number(Product(x, y), w)
      case Div => if y == 0 then Unknown(w) else Number(Quotient(x, y), w)
      case Mod => if y == 0 then Unknown(w) else Number(Wrapped(x, y), w)
      case Pow => Number(Power(x, y), w)
  }

  function Merge(a: seq<Bit>, b: seq<Bit>): (r: seq<Bit>)
    requires |a| == |b|
    ensures |r| == |a|
  {
    seq(|a|, i requires 0 <= i < |a| => if a[i] == b[i] then a[i] else BX)
  }

  /** An unknown condition merges both branches bit by bit. */
  function EvalTernary(cond: LogicValue, t: LogicValue, f: LogicValue): LogicValue {
    if !IsDefinite(cond.bits) then
      var w := MaxWidth(t, f);
      LogicValue(Merge(WithWidth(t, w).bits, WithWidth(f, w).bits), false)
    else if IsTrue(cond) then t else f
  }

  function Join(values: seq<LogicValue>): (bits: seq<Bit>)
    ensures values != [] ==> |bits| > 0
  {
    if values == [] then [] else values[0].bits + Join(values[1..])
  }

  function EvalConcat(values: seq<LogicValue>): LogicValue {
    if values == [] then Unknown(1) else LogicValue(Join(values), false)
  }

  /** The bit at a position counted from the least significant; x outside the value. */
  function BitAt(v: LogicValue, i: int): Bit {
    if i < 0 || i >= |v.bits| then BX else v.bits[|v.bits| - 1 - i]
  }

  function EvalSlice(v: LogicValue, msb: int, lsb: int): LogicValue {
    if msb < lsb then Unknown(1)
    else LogicValue(seq(msb - lsb + 1, i requires 0 <= i <= msb - lsb => BitAt(v, msb - i)), false)
  }

  function EvalReverse(v: LogicValue): LogicValue {
    LogicValue(seq(|v.bits|, i requires 0 <= i < |v.bits| => v.bits[|v.bits| - 1 - i]), v.signed)
  }

  // ---------------------------------------------------------------------------
  // Numbers and bits
  // ---------------------------------------------------------------------------

  lemma {:induction false} UintBound(bits: seq<Bit>)
    ensures ToUint(bits) < Pow2(|bits|)
  {
    if bits != [] {
      UintBound(bits[..|bits| - 1]);
    }
  }

  /** Reading back the low bits of a number takes it modulo the width. */
  lemma {:induction false} UintOfNat(n: nat, width: nat)
    ensures ToUint(FromNat(n, width)) == n % Pow2(width)
  {
    if width > 0 {
      var p := Pow2(width - 1);
      UintOfNat(n / 2, width - 1);
      assert FromNat(n, width)[..width - 1] == FromNat(n / 2, width - 1);
      HalfModulo(n, p);
    }
  }

  lemma {:induction false} HalfModulo(n: nat, p: nat)
    requires p >= 1
    ensures n % (2 * p) == 2 * (n / 2 % p) + n % 2
  {
    var q, r, b := n / 2 / p, n / 2 % p, n % 2;
    assert n == 2 * (q * p + r) + b == q * (2 * p) + (2 * r + b);
    QuotientOf(q, 2 * p, 2 * r + b);
  }

  /** A definite value is determined by its number and its width. */
  lemma {:induction false} NatOfUint(bits: seq<Bit>)
    requires IsDefinite(bits)
    ensures FromNat(ToUint(bits), |bits|) == bits
  {
    if bits != [] {
      var front, last := bits[..|bits| - 1], bits[|bits| - 1];
      NatOfUint(front);
      assert last.Definite() && bits == front + [last];
    }
  }

  lemma {:induction false} PopCountOnes(bits: seq<Bit>)
    requires IsDefinite(bits)
    ensures PopCount(ToUint(bits)) == Ones(bits)
  {
    if bits != [] {
      var front := bits[..|bits| - 1];
      PopCountOnes(front);
      assert ToUint(bits) / 2 == ToUint(front);
    }
  }

  lemma {:induction false} AllOnes(bits: seq<Bit>)
    requires IsDefinite(bits)
    ensures ToUint(bits) == Pow2(|bits|) - 1 <==> B0 !in bits
    ensures ToUint(bits) == 0 <==> B1 !in bits
  {
    if bits != [] {
      var front, last := bits[..|bits| - 1], bits[|bits| - 1];
      AllOnes(front);
      UintBound(front);
      assert bits == front + [last] && last.Definite();
    }
  }

  // ---------------------------------------------------------------------------
  // Reductions
  // ---------------------------------------------------------------------------

  function Identity(op: Gate): Bit {
    if op.GAnd? || op.GNand? then B1 else B0
  }

  /** Folding the gate's table over the bits from its identity element. */
  function Fold(op: Gate, bits: seq<Bit>): Bit {
    if bits == [] then Identity(op) else op.Base(Fold(op, bits[..|bits| - 1]), bits[|bits| - 1])
  }

  lemma {:induction false} FoldKinds(op: Gate, bits: seq<Bit>)
    ensures Fold(op, bits) != BZ
    ensures op.GAnd? || op.GNand? ==>
              Fold(op, bits) == if B0 in bits then B0 else if IsDefinite(bits) then B1 else BX
    ensures op.GOr? || op.GNor? ==>
              Fold(op, bits) == if B1 in bits then B1 else if IsDefinite(bits) then B0 else BX
    ensures op.GXor? || op.GXnor? ==>
              Fold(op, bits) == if !IsDefinite(bits) then BX else if Ones(bits) % 2 == 1 then B1 else B0
  {
    if bits != [] {
      var front, last := bits[..|bits| - 1], bits[|bits| - 1];
      FoldKinds(op, front);
      assert bits == front + [last];
      assert IsDefinite(bits) <==> IsDefinite(front) && last.Definite();
    }
  }

  /** Both paths of a reduction agree with folding the four-state table. */
  lemma {:induction false} ReductionIsFold(op: Gate, a: LogicValue)
    ensures EvalReduction(op, a) == OneBit(if op.Inverted() then Not(Fold(op, a.bits)) else Fold(op, a.bits))
  {
    FoldKinds(op, a.bits);
    if IsDefinite(a.bits) {
      AllOnes(a.bits);
      PopCountOnes(a.bits);
    }
  }
}
