/**
 Unknown bits are sound: a definite bit of a result stays the same however the unknown bits
 of the operands are resolved.
 */
module UnknownSoundness {
  import opened LogicValues
  import opened Expressions

  /** `b` is `a` with some unknown bits resolved; definite bits of `a` stay. */
  ghost predicate Resolves(a: seq<Bit>, b: seq<Bit>) {
    |a| == |b| && forall i :: 0 <= i < |a| && a[i].Definite() ==> b[i] == a[i]
  }

  ghost predicate Refines(a: LogicValue, b: LogicValue) {
    Resolves(a.bits, b.bits) && !a.signed && !b.signed
  }

  ghost predicate EnvRefines(a: Env, b: Env) {
    a.Keys == b.Keys && forall p :: p in a ==> Refines(a[p], b[p])
  }

  /** The width of an expression over signals of known widths. */
  function Width(e: Expr, env: Env): (w: nat)
    ensures w > 0
    decreases e, 1
  {
    match e
    case Literal(value) => |value.bits|
    case SignalRef(path) => if path in env then |env[path].bits| else 1
    case Concat(operands) => if operands == [] then 1 else WidthSum(operands, env)
    case Slice(_, msb, lsb) => if msb < lsb then 1 else msb - lsb + 1
    case Reverse(operand) => Width(operand, env)
    case Unary(op, operand) => if op.BitNot? || op.Negate? then Width(operand, env) else 1
    case Binary(op, left, right) =>
      if op.Bitwise? || op.Arith? then
        (if Width(left, env) > Width(right, env) then Width(left, env) else Width(right, env))
      else if op.ShiftBy? then Width(left, env)
      else 1
    case Ternary(_, onTrue, _) => Width(onTrue, env)
  }

  function WidthSum(es: seq<Expr>, env: Env): (w: nat)
    ensures es != [] ==> w > 0
    decreases es, 0
  {
    if es == [] then 0 else Width(es[0], env) + WidthSum(es[1..], env)
  }

  /**
   No case equality, no unary minus, unsigned literals (the only ones a parse yields), and
   conditional branches of one width.
   */
  predicate Sound(e: Expr, env: Env)
    decreases e, 1
  {
    match e
    case Literal(value) => !value.signed
    case SignalRef(_) => true
    case Concat(operands) => SoundAll(operands, env)
    case Slice(operand, _, _) => Sound(operand, env)
    case Reverse(operand) => Sound(operand, env)
    case Unary(op, operand) => !op.Negate? && Sound(operand, env)
    case Binary(op, left, right) =>
      && op != Compare(CaseEq) && op != Compare(CaseNe)
      && Sound(left, env) && Sound(right, env)
    case Ternary(cond, onTrue, onFalse) =>
      && Width(onTrue, env) == Width(onFalse, env)
      && Sound(cond, env) && Sound(onTrue, env) && Sound(onFalse, env)
  }

  predicate SoundAll(es: seq<Expr>, env: Env)
    decreases es, 0
  {
    es != [] ==> Sound(es[0], env) && SoundAll(es[1..], env)
  }

  /** Conditionals have branches of one width. */
  predicate Even(e: Expr, env: Env)
    decreases e, 1
  {
    match e
    case Literal(_) => true
    case SignalRef(_) => true
    case Concat(operands) => EvenAll(operands, env)
    case Slice(operand, _, _) => Even(operand, env)
    case Reverse(operand) => Even(operand, env)
    case Unary(_, operand) => Even(operand, env)
    case Binary(_, left, right) => Even(left, env) && Even(right, env)
    case Ternary(cond, onTrue, onFalse) =>
      && Width(onTrue, env) == Width(onFalse, env)
      && Even(cond, env) && Even(onTrue, env) && Even(onFalse, env)
  }

  predicate EvenAll(es: seq<Expr>, env: Env)
    decreases es, 0
  {
    es != [] ==> Even(es[0], env) && EvenAll(es[1..], env)
  }

  lemma {:induction false} SoundEven(e: Expr, env: Env)
    requires Sound(e, env)
    ensures Even(e, env) && Unsigned(e)
    decreases e, 1
  {
    match e
    case Literal(_) =>
    case SignalRef(_) =>
    case Concat(operands) => SoundEvenAll(operands, env);
    case Slice(operand, _, _) => SoundEven(operand, env);
    case Reverse(operand) => SoundEven(operand, env);
    case Unary(_, operand) => SoundEven(operand, env);
    case Binary(_, left, right) =>
      SoundEven(left, env);
      SoundEven(right, env);
    case Ternary(cond, onTrue, onFalse) =>
      SoundEven(cond, env);
      SoundEven(onTrue, env);
      SoundEven(onFalse, env);
  }

  lemma {:induction false} SoundEvenAll(es: seq<Expr>, env: Env)
    requires SoundAll(es, env)
    ensures EvenAll(es, env) && UnsignedAll(es)
    decreases es, 0
  {
    if es != [] {
      SoundEven(es[0], env);
      SoundEvenAll(es[1..], env);
    }
  }

  // ---------------------------------------------------------------------------
  // Each operator
  // ---------------------------------------------------------------------------

  /** A definite operand has no other resolution. */
  lemma {:induction false} DefiniteSame(a: LogicValue, b: LogicValue)
    requires Refines(a, b) && IsDefinite(a.bits)
    ensures a == b
  {
    assert forall i :: 0 <= i < |a.bits| ==> a.bits[i].Definite();
    assert a.bits == b.bits;
  }

  lemma {:induction false} GateMonotone(op: Gate, a: Bit, b: Bit, x: Bit, y: Bit)
    requires a.Definite() ==> x == a
    requires b.Definite() ==> y == b
    ensures op.Apply(a, b).Definite() ==> op.Apply(x, y) == op.Apply(a, b)
  {}

  lemma {:induction false} FoldMonotone(op: Gate, a: seq<Bit>, b: seq<Bit>)
    requires Resolves(a, b)
    ensures Fold(op, a).Definite() ==> Fold(op, b) == Fold(op, a)
  {
    if a != [] {
      FoldMonotone(op, a[..|a| - 1], b[..|b| - 1]);
    }
  }

  lemma {:induction false} WidenRefines(a: LogicValue, b: LogicValue, w: nat)
    requires Refines(a, b) && w >= |a.bits|
    ensures Refines(WithWidth(a, w), WithWidth(b, w)) && |WithWidth(a, w).bits| == w
  {}

  lemma {:induction false} ZipResolves(op: Gate, a: seq<Bit>, b: seq<Bit>, x: seq<Bit>, y: seq<Bit>)
    requires |a| == |b| && Resolves(a, x) && Resolves(b, y)
    ensures Resolves(Zip(op, a, b), Zip(op, x, y))
  {
    forall i | 0 <= i < |a| && op.Apply(a[i], b[i]).Definite()
      ensures op.Apply(x[i], y[i]) == op.Apply(a[i], b[i])
    {
      GateMonotone(op, a[i], b[i], x[i], y[i]);
    }
  }

  lemma {:induction false} UnaryRefines(op: UnaryOp, a: LogicValue, b: LogicValue)
    requires Refines(a, b) && !op.Negate?
    ensures Refines(ApplyUnary(op, a), ApplyUnary(op, b))
  {
    match op
    case BitNot =>
    case LogicalNot =>
      if IsDefinite(a.bits) { DefiniteSame(a, b); }
    case Reduce(gate) =>
      ReductionIsFold(gate, a);
      ReductionIsFold(gate, b);
      FoldMonotone(gate, a.bits, b.bits);
  }

  lemma {:induction false} BitwiseRefines(gate: Gate, a: LogicValue, b: LogicValue, x: LogicValue, y: LogicValue)
    requires Refines(a, x) && Refines(b, y)
    ensures Refines(EvalBitwise(gate, a, b), EvalBitwise(gate, x, y))
  {
    var w := MaxWidth(a, b);
    assert w == MaxWidth(x, y);
    WidenRefines(a, x, w);
    WidenRefines(b, y, w);
    ZipRefines(gate, WithWidth(a, w), WithWidth(b, w), WithWidth(x, w), WithWidth(y, w));
  }

  lemma {:induction false} ZipRefines(gate: Gate, a: LogicValue, b: LogicValue, x: LogicValue, y: LogicValue)
    requires Refines(a, x) && Refines(b, y) && |a.bits| == |b.bits|
    ensures Refines(LogicValue(Zip(gate, a.bits, b.bits), false), LogicValue(Zip(gate, x.bits, y.bits), false))
  {
    ZipResolves(gate, a.bits, b.bits, x.bits, y.bits);
  }

  lemma {:induction false} BinaryRefines(op: BinaryOp, a: LogicValue, b: LogicValue, x: LogicValue, y: LogicValue)
    requires Refines(a, x) && Refines(b, y)
    requires op != Compare(CaseEq) && op != Compare(CaseNe)
    ensures Refines(ApplyBinary(op, a, b), ApplyBinary(op, x, y))
  {
    if IsDefinite(a.bits) { DefiniteSame(a, x); }
    if IsDefinite(b.bits) { DefiniteSame(b, y); }
    if op.Bitwise? {
      BitwiseRefines(op.gate, a, b, x, y);
    } else if !IsDefinite(a.bits) || !IsDefinite(b.bits) {
      ResultShape(op, a, b);
      ResultShape(op, x, y);
    } else {
      ResultShape(op, a, b);
    }
  }

  /** The width and signedness of an unsigned operation, and its value on unknown operands. */
  lemma {:induction false} ResultShape(op: BinaryOp, a: LogicValue, b: LogicValue)
    requires !a.signed && !b.signed
    ensures var r := ApplyBinary(op, a, b);
            && !r.signed
            && |r.bits| == (if op.Bitwise? || op.Arith? then MaxWidth(a, b) else if op.ShiftBy? then |a.bits| else 1)
  {}

  /** What both branches agree on stays in either branch and in their merge. */
  lemma {:induction false} MergeResolves(t: seq<Bit>, f: seq<Bit>, u: seq<Bit>, g: seq<Bit>)
    requires |t| == |f| && Resolves(t, u) && Resolves(f, g)
    ensures Resolves(Merge(t, f), Merge(u, g)) && Resolves(Merge(t, f), u) && Resolves(Merge(t, f), g)
  {
    forall i | 0 <= i < |t| && Merge(t, f)[i].Definite()
      ensures t[i].Definite() && f[i] == t[i]
    {}
  }

  lemma {:induction false} SameWidth(v: LogicValue)
    ensures WithWidth(v, |v.bits|) == v
  {
    assert v.bits[0..] == v.bits;
  }

  lemma {:induction false} TernaryRefines(c: LogicValue, t: LogicValue, f: LogicValue,
                                          d: LogicValue, u: LogicValue, g: LogicValue)
    requires Refines(c, d) && Refines(t, u) && Refines(f, g) && |t.bits| == |f.bits|
    ensures Refines(EvalTernary(c, t, f), EvalTernary(d, u, g))
  {
    ChosenOrMerged(c, t, f);
    ChosenOrMerged(d, u, g);
    MergeResolves(t.bits, f.bits, u.bits, g.bits);
    if IsDefinite(c.bits) {
      DefiniteSame(c, d);
    }
  }

  lemma {:induction false} ChosenOrMerged(c: LogicValue, t: LogicValue, f: LogicValue)
    requires |t.bits| == |f.bits|
    ensures EvalTernary(c, t, f)
         == if !IsDefinite(c.bits) then LogicValue(Merge(t.bits, f.bits), false) else if IsTrue(c) then t else f
  {
    SameWidth(t);
    SameWidth(f);
  }

  ghost predicate AllRefine(a: seq<LogicValue>, b: seq<LogicValue>) {
    |a| == |b| && forall i :: 0 <= i < |a| ==> Refines(a[i], b[i])
  }

  lemma {:induction false} JoinRefines(a: seq<LogicValue>, b: seq<LogicValue>)
    requires AllRefine(a, b)
    ensures Resolves(Join(a), Join(b))
  {
    if a != [] {
      assert Refines(a[0], b[0]);
      JoinRefines(a[1..], b[1..]);
    }
  }

  lemma {:induction false} ConcatRefines(a: seq<LogicValue>, b: seq<LogicValue>)
    requires AllRefine(a, b)
    ensures Refines(EvalConcat(a), EvalConcat(b))
  {
    JoinRefines(a, b);
  }

  lemma {:induction false} SliceRefines(a: LogicValue, b: LogicValue, msb: int, lsb: int)
    requires Refines(a, b)
    ensures Refines(EvalSlice(a, msb, lsb), EvalSlice(b, msb, lsb))
  {
    forall i | BitAt(a, i).Definite()
      ensures BitAt(b, i) == BitAt(a, i)
    {}
  }

  lemma {:induction false} ReverseRefines(a: LogicValue, b: LogicValue)
    requires Refines(a, b)
    ensures Refines(EvalReverse(a), EvalReverse(b))
  {}

  // ---------------------------------------------------------------------------
  // The theorem
  // ---------------------------------------------------------------------------

  lemma {:induction false} UnaryShape(op: UnaryOp, a: LogicValue)
    requires !a.signed
    ensures var r := ApplyUnary(op, a); !r.signed && |r.bits| == if op.BitNot? || op.Negate? then |a.bits| else 1
  {}

  lemma {:induction false} SliceShape(a: LogicValue, msb: int, lsb: int)
    ensures var r := EvalSlice(a, msb, lsb); !r.signed && |r.bits| == if msb < lsb then 1 else msb - lsb + 1
  {}

  lemma {:induction false} TernaryShape(c: LogicValue, t: LogicValue, f: LogicValue)
    requires !t.signed && !f.signed && |t.bits| == |f.bits|
    ensures var r := EvalTernary(c, t, f); !r.signed && |r.bits| == |t.bits|
  {}

  lemma {:induction false} EvaluateWidth(e: Expr, env: Env)
    requires Even(e, env) && Unsigned(e) && forall p :: p in env ==> !env[p].signed
    ensures |Evaluate(e, env).bits| == Width(e, env) && !Evaluate(e, env).signed
    decreases e, 1
  {
    match e
    case Literal(_) =>
    case SignalRef(_) =>
    case Concat(operands) => JoinWidth(operands, env);
    case Slice(operand, msb, lsb) => SliceShape(Evaluate(operand, env), msb, lsb);
    case Reverse(operand) => EvaluateWidth(operand, env);
    case Unary(op, operand) =>
      EvaluateWidth(operand, env);
      UnaryShape(op, Evaluate(operand, env));
    case Binary(op, left, right) =>
      EvaluateWidth(left, env);
      EvaluateWidth(right, env);
      ResultShape(op, Evaluate(left, env), Evaluate(right, env));
    case Ternary(cond, onTrue, onFalse) =>
      EvaluateWidth(onTrue, env);
      EvaluateWidth(onFalse, env);
      TernaryShape(Evaluate(cond, env), Evaluate(onTrue, env), Evaluate(onFalse, env));
  }

  lemma {:induction false} JoinWidth(es: seq<Expr>, env: Env)
    requires EvenAll(es, env) && UnsignedAll(es) && forall p :: p in env ==> !env[p].signed
    ensures |Join(EvaluateAll(es, env))| == WidthSum(es, env)
    decreases es, 0
  {
    if es != [] {
      EvaluateWidth(es[0], env);
      JoinWidth(es[1..], env);
      assert EvaluateAll(es, env)[1..] == EvaluateAll(es[1..], env);
    }
  }

  lemma {:induction false} EqualBranches(e: Expr, env: Env)
    requires e.Ternary? && Sound(e, env) && forall p :: p in env ==> !env[p].signed
    ensures |Evaluate(e.onTrue, env).bits| == |Evaluate(e.onFalse, env).bits|
  {
    SoundEven(e, env);
    EvaluateWidth(e.onTrue, env);
    EvaluateWidth(e.onFalse, env);
  }

  /** Resolving operand bits never changes a definite bit of the result. */
  lemma {:induction false} DefiniteBitsStay(e: Expr, env: Env, resolved: Env)
    requires Sound(e, env) && EnvRefines(env, resolved)
    ensures Refines(Evaluate(e, env), Evaluate(e, resolved))
    decreases e, 1
  {
    match e
    case Literal(_) =>
    case SignalRef(path) =>
      if path in env { assert Refines(env[path], resolved[path]); }
    case Concat(operands) =>
      AllStay(operands, env, resolved);
      ConcatRefines(EvaluateAll(operands, env), EvaluateAll(operands, resolved));
    case Slice(operand, msb, lsb) =>
      DefiniteBitsStay(operand, env, resolved);
      SliceRefines(Evaluate(operand, env), Evaluate(operand, resolved), msb, lsb);
    case Reverse(operand) =>
      DefiniteBitsStay(operand, env, resolved);
      ReverseRefines(Evaluate(operand, env), Evaluate(operand, resolved));
    case Unary(op, operand) =>
      DefiniteBitsStay(operand, env, resolved);
      UnaryRefines(op, Evaluate(operand, env), Evaluate(operand, resolved));
    case Binary(op, left, right) =>
      DefiniteBitsStay(left, env, resolved);
      DefiniteBitsStay(right, env, resolved);
      BinaryRefines(op, Evaluate(left, env), Evaluate(right, env), Evaluate(left, resolved), Evaluate(right, resolved));
    case Ternary(cond, onTrue, onFalse) =>
      DefiniteBitsStay(cond, env, resolved);
      DefiniteBitsStay(onTrue, env, resolved);
      DefiniteBitsStay(onFalse, env, resolved);
      forall p | p in env
        ensures !env[p].signed
      {
        assert Refines(env[p], resolved[p]);
      }
      EqualBranches(e, env);
      TernaryRefines(Evaluate(cond, env), Evaluate(onTrue, env), Evaluate(onFalse, env),
                     Evaluate(cond, resolved), Evaluate(onTrue, resolved), Evaluate(onFalse, resolved));
  }

  lemma {:induction false} AllStay(es: seq<Expr>, env: Env, resolved: Env)
    requires SoundAll(es, env) && EnvRefines(env, resolved)
    ensures AllRefine(EvaluateAll(es, env), EvaluateAll(es, resolved))
    decreases es, 0
  {
    if es != [] {
      DefiniteBitsStay(es[0], env, resolved);
      AllStay(es[1..], env, resolved);
    }
  }

  // ---------------------------------------------------------------------------
  // Each exclusion is needed
  // ---------------------------------------------------------------------------

  const UNRESOLVED: Env := map["a" := OneBit(BX)]
  const RESOLVED: Env := map["a" := OneBit(B1)]

  /** Case equality decides on an unknown bit. */
  lemma {:induction false} CaseEqualityDecides()
    ensures var e := Binary(Compare(CaseEq), SignalRef("a"), Literal(OneBit(B1)));
            EnvRefines(UNRESOLVED, RESOLVED) && Evaluate(e, UNRESOLVED) == OneBit(B0) &&
              Evaluate(e, RESOLVED) == OneBit(B1)
  {}

  /** Unary minus reads an unknown bit as 0. */
  lemma {:induction false} NegateDecides()
    ensures var e := Unary(Negate, SignalRef("a"));
            EnvRefines(UNRESOLVED, RESOLVED) && Evaluate(e, UNRESOLVED) == OneBit(B0) &&
              Evaluate(e, RESOLVED) == OneBit(B1)
  {
    NegateBit(BX, 0);
    NegateBit(B1, 1);
  }

  lemma {:induction false} NegateBit(bit: Bit, n: nat)
    requires bit != B1 ==> n == 0
    requires bit == B1 ==> n == 1
    ensures EvalNegate(OneBit(bit)) == OneBit(if n == 0 then B0 else B1)
  {
    assert Pow2(1) == 2 && ToUint([bit]) == n;
    assert Wrapped(2 - Wrapped(n, 2), 2) == n;
    assert FromNat(n, 1) == [if n == 0 then B0 else B1];
  }

  lemma {:induction false} ConditionValues()
    ensures !IsDefinite(OneBit(BX).bits) && IsTrue(OneBit(B1))
  {
    assert !OneBit(BX).bits[0].Definite();
    assert ToUint([B1]) == 1;
  }

  /** Branches of different widths make the result's width depend on the condition. */
  lemma {:induction false} UnequalBranchesDecide()
    ensures var e := Ternary(SignalRef("a"), Literal(OneBit(B0)), Literal(LogicValue([B0, B0], false)));
            |Evaluate(e, UNRESOLVED).bits| == 2 && |Evaluate(e, RESOLVED).bits| == 1
  {
    ConditionValues();
  }

  lemma {:induction false} WidenOne(v: LogicValue)
    requires v.bits == [B1]
    ensures WithWidth(v, 2).bits == [if v.signed then B1 else B0, B1]
  {}

  lemma {:induction false} OrWithZero(a: Bit, b: Bit)
    requires a.Definite() && b.Definite()
    ensures Zip(GOr, [a, b], [B0, B0]) == [a, b]
  {}

  lemma {:induction false} OrWithWider(v: LogicValue)
    requires v.bits == [B1]
    ensures EvalBitwise(GOr, v, LogicValue([B0, B0], false)).bits == [if v.signed then B1 else B0, B1]
  {
    WidenOne(v);
    SameWidth(LogicValue([B0, B0], false));
    OrWithZero(if v.signed then B1 else B0, B1);
  }

  lemma {:induction false} MergeSame(c: LogicValue, v: LogicValue)
    requires v.bits == [B1]
    ensures EvalTernary(c, v, v) == if IsDefinite(c.bits) then v else LogicValue([B1], false)
  {
    SameWidth(v);
    assert Merge([B1], [B1]) == [B1];
  }

  /** One value for either choice of a signal, or-ed with another value. */
  function Choice(p: string, v: LogicValue, w: LogicValue): Expr {
    Binary(Bitwise(GOr), Ternary(SignalRef(p), Literal(v), Literal(v)), Literal(w))
  }

  lemma {:induction false} ChoiceMeans(p: string, v: LogicValue, w: LogicValue, env: Env)
    requires p in env
    ensures Evaluate(Choice(p, v, w), env) == EvalBitwise(GOr, EvalTernary(env[p], v, v), w)
  {
    var choice := Ternary(SignalRef(p), Literal(v), Literal(v));
    assert Evaluate(SignalRef(p), env) == env[p] && Evaluate(Literal(v), env) == v && Evaluate(Literal(w), env) == w;
    assert Evaluate(choice, env) == EvalTernary(env[p], v, v);
  }

  /** A signed branch loses its sign in a merge, so a wider operand extends it differently. */
  lemma {:induction false} SignedBranchesDecide()
    ensures var e := Choice("a", LogicValue([B1], true), LogicValue([B0, B0], false));
            Evaluate(e, UNRESOLVED).bits == [B0, B1] && Evaluate(e, RESOLVED).bits == [B1, B1]
  {
    var one, zeros := LogicValue([B1], true), LogicValue([B0, B0], false);
    ConditionValues();
    ChoiceMeans("a", one, zeros, UNRESOLVED);
    MergeSame(OneBit(BX), one);
    OrWithWider(LogicValue([B1], false));
    ChoiceMeans("a", one, zeros, RESOLVED);
    MergeSame(OneBit(B1), one);
    OrWithWider(one);
  }
}
