/** Expressions over signals, and their value at one time point. */
module Expressions {
  import opened LogicValues

  datatype UnaryOp = BitNot | LogicalNot | Negate | Reduce(gate: Gate)

  datatype BinaryOp =
    | Bitwise(gate: Gate)
    | LogicalAnd | LogicalOr
    | Compare(comparison: Comparison)
    | ShiftBy(shift: Shift)
    | Arith(arithmetic: Arithmetic)

  datatype Expr =
    | Literal(value: LogicValue)
    | SignalRef(path: string)
    | Concat(operands: seq<Expr>)
    | Slice(operand: Expr, msb: int, lsb: int)
    | Reverse(operand: Expr)
    | Unary(op: UnaryOp, operand: Expr)
    | Binary(bop: BinaryOp, left: Expr, right: Expr)
    | Ternary(cond: Expr, onTrue: Expr, onFalse: Expr)

  type Env = map<string, LogicValue>

  function ApplyUnary(op: UnaryOp, a: LogicValue): LogicValue {
    match op
    case BitNot => EvalNot(a)
    case LogicalNot => EvalLogicalNot(a)
    case Negate => EvalNegate(a)
    case Reduce(gate) => EvalReduction(gate, a)
  }

  function ApplyBinary(op: BinaryOp, a: LogicValue, b: LogicValue): LogicValue {
    match op
    case Bitwise(gate) => EvalBitwise(gate, a, b)
    case LogicalAnd => EvalLogicalAnd(a, b)
    case LogicalOr => EvalLogicalOr(a, b)
    case Compare(comparison) => EvalComparison(comparison, a, b)
    case ShiftBy(shift) => EvalShift(shift, a, b)
    case Arith(arithmetic) => EvalArithmetic(arithmetic, a, b)
  }

  /** The value of an expression; a signal without a value is one unknown bit. */
  function Evaluate(e: Expr, env: Env): LogicValue
    decreases e, 1
  {
    match e
    case Literal(value) => value
    case SignalRef(path) => if path in env then env[path] else Unknown(1)
    case Concat(operands) => EvalConcat(EvaluateAll(operands, env))
    case Slice(operand, msb, lsb) => EvalSlice(Evaluate(operand, env), msb, lsb)
    case Reverse(operand) => EvalReverse(Evaluate(operand, env))
    case Unary(op, operand) => ApplyUnary(op, Evaluate(operand, env))
    case Binary(op, left, right) => ApplyBinary(op, Evaluate(left, env), Evaluate(right, env))
    case Ternary(cond, onTrue, onFalse) =>
      EvalTernary(Evaluate(cond, env), Evaluate(onTrue, env), Evaluate(onFalse, env))
  }

  function EvaluateAll(es: seq<Expr>, env: Env): (values: seq<LogicValue>)
    ensures |values| == |es|
    decreases es, 0
  {
    if es == [] then [] else [Evaluate(es[0], env)] + EvaluateAll(es[1..], env)
  }

  /** A binary expression applies its operator to the values of its operands, left first. */
  lemma {:induction false} Applied(op: BinaryOp, l: Expr, r: Expr, env: Env)
    ensures Evaluate(Binary(op, l, r), env) == ApplyBinary(op, Evaluate(l, env), Evaluate(r, env))
  {}

  lemma {:induction false} UnaryApplied(op: UnaryOp, e: Expr, env: Env)
    ensures Evaluate(Unary(op, e), env) == ApplyUnary(op, Evaluate(e, env))
  {}

  lemma {:induction false} ChoiceApplied(c: Expr, t: Expr, f: Expr, env: Env)
    ensures Evaluate(Ternary(c, t, f), env) == EvalTernary(Evaluate(c, env), Evaluate(t, env), Evaluate(f, env))
  {}

  lemma {:induction false} SliceApplied(e: Expr, msb: int, lsb: int, env: Env)
    ensures Evaluate(Slice(e, msb, lsb), env) == EvalSlice(Evaluate(e, env), msb, lsb)
  {}

  /** The signals an expression reads. */
  function Refs(e: Expr): set<string>
    decreases e, 1
  {
    match e
    case Literal(_) => {}
    case SignalRef(path) => {path}
    case Concat(operands) => RefsAll(operands)
    case Slice(operand, _, _) => Refs(operand)
    case Reverse(operand) => Refs(operand)
    case Unary(_, operand) => Refs(operand)
    case Binary(_, left, right) => Refs(left) + Refs(right)
    case Ternary(cond, onTrue, onFalse) => Refs(cond) + Refs(onTrue) + Refs(onFalse)
  }

  function RefsAll(es: seq<Expr>): set<string>
    decreases es, 0
  {
    if es == [] then {} else Refs(es[0]) + RefsAll(es[1..])
  }

  /** The signals an expression reads, once each, in the order of first appearance. */
  function CollectRefs(e: Expr, seen: seq<string>): (refs: seq<string>)
    ensures forall p :: p in refs <==> p in seen || p in Refs(e)
    ensures Distinct(seen) ==> Distinct(refs)
    decreases e, 1
  {
    match e
    case Literal(_) => seen
    case SignalRef(path) => if path in seen then seen else seen + [path]
    case Concat(operands) => CollectRefsAll(operands, seen)
    case Slice(operand, _, _) => CollectRefs(operand, seen)
    case Reverse(operand) => CollectRefs(operand, seen)
    case Unary(_, operand) => CollectRefs(operand, seen)
    case Binary(_, left, right) => CollectRefs(right, CollectRefs(left, seen))
    case Ternary(cond, onTrue, onFalse) => CollectRefs(onFalse, CollectRefs(onTrue, CollectRefs(cond, seen)))
  }

  function CollectRefsAll(es: seq<Expr>, seen: seq<string>): (refs: seq<string>)
    ensures forall p :: p in refs <==> p in seen || p in RefsAll(es)
    ensures Distinct(seen) ==> Distinct(refs)
    decreases es, 0
  {
    if es == [] then seen else CollectRefsAll(es[1..], CollectRefs(es[0], seen))
  }

  ghost predicate Distinct(s: seq<string>) {
    forall i, j :: 0 <= i < j < |s| ==> s[i] != s[j]
  }

  /** No literal is signed, as in every parsed expression and every bus operation. */
  predicate Unsigned(e: Expr)
    decreases e, 1
  {
    match e
    case Literal(value) => !value.signed
    case SignalRef(_) => true
    case Concat(operands) => UnsignedAll(operands)
    case Slice(operand, _, _) => Unsigned(operand)
    case Reverse(operand) => Unsigned(operand)
    case Unary(_, operand) => Unsigned(operand)
    case Binary(_, left, right) => Unsigned(left) && Unsigned(right)
    case Ternary(cond, onTrue, onFalse) => Unsigned(cond) && Unsigned(onTrue) && Unsigned(onFalse)
  }

  predicate UnsignedAll(es: seq<Expr>)
    decreases es, 0
  {
    es != [] ==> Unsigned(es[0]) && UnsignedAll(es[1..])
  }

  lemma {:induction false} UnaryUnsigned(op: UnaryOp, a: LogicValue)
    requires !a.signed
    ensures !ApplyUnary(op, a).signed
  {}

  lemma {:induction false} BinaryUnsigned(op: BinaryOp, a: LogicValue, b: LogicValue)
    requires !a.signed
    ensures !ApplyBinary(op, a, b).signed
  {}

  /** Unsigned operands and literals never give a signed value. */
  lemma {:induction false} EvaluateUnsigned(e: Expr, env: Env)
    requires Unsigned(e) && forall p :: p in env ==> !env[p].signed
    ensures !Evaluate(e, env).signed
  {
    match e
    case Literal(_) =>
    case SignalRef(_) =>
    case Concat(_) =>
    case Slice(_, _, _) =>
    case Reverse(operand) => EvaluateUnsigned(operand, env);
    case Unary(op, operand) =>
      EvaluateUnsigned(operand, env);
      UnaryUnsigned(op, Evaluate(operand, env));
    case Binary(op, left, right) =>
      EvaluateUnsigned(left, env);
      BinaryUnsigned(op, Evaluate(left, env), Evaluate(right, env));
    case Ternary(_, onTrue, onFalse) =>
      EvaluateUnsigned(onTrue, env);
      EvaluateUnsigned(onFalse, env);
  }

  /** The two environments agree on a set of signals, absence included. */
  ghost predicate Agree(a: Env, b: Env, paths: set<string>) {
    forall p :: p in paths ==> (p in a <==> p in b) && (p in a ==> a[p] == b[p])
  }

  /** An expression depends on the signals it reads and on nothing else. */
  lemma {:induction false} EvaluateAgree(e: Expr, a: Env, b: Env)
    requires Agree(a, b, Refs(e))
    ensures Evaluate(e, a) == Evaluate(e, b)
    decreases e, 1
  {
    match e
    case Literal(_) =>
    case SignalRef(_) =>
    case Concat(operands) => EvaluateAllAgree(operands, a, b);
    case Slice(operand, _, _) => EvaluateAgree(operand, a, b);
    case Reverse(operand) => EvaluateAgree(operand, a, b);
    case Unary(_, operand) => EvaluateAgree(operand, a, b);
    case Binary(_, left, right) =>
      EvaluateAgree(left, a, b);
      EvaluateAgree(right, a, b);
    case Ternary(cond, onTrue, onFalse) =>
      EvaluateAgree(cond, a, b);
      EvaluateAgree(onTrue, a, b);
      EvaluateAgree(onFalse, a, b);
  }

  lemma {:induction false} EvaluateAllAgree(es: seq<Expr>, a: Env, b: Env)
    requires Agree(a, b, RefsAll(es))
    ensures EvaluateAll(es, a) == EvaluateAll(es, b)
    decreases es, 0
  {
    if es != [] {
      EvaluateAgree(es[0], a, b);
      EvaluateAllAgree(es[1..], a, b);
    }
  }
}
