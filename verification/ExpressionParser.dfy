/**
 The recursive-descent expression parser on tokens: the grammar as a function, the writings
 it accepts, a minimal-parentheses printer that it inverts, and the parser object that follows it.
 */
module ExpressionParser {
  import opened Wrappers
  import opened LogicValues
  import opened Expressions

  datatype Sym =
    | Bang | Tilde | TildeAnd | TildeOr | TildeXor | XorTilde
    | AndSym | OrSym | XorSym
    | AndAnd | OrOr | StarStar
    | EqEq | NotEq | EqEqEq | NotEqEq | Less | LessEq | Greater | GreaterEq
    | ShiftL | ShiftR | ShiftLL | ShiftRR
    | Plus | Minus | Star | Slash | Percent

  /** A literal token carries its bits; a literal of an expression is always unsigned. */
  datatype Token =
    | LiteralToken(bits: Bits)
    | SignalToken(path: string)
    | Op(sym: Sym)
    | LParen | RParen | Question | Colon | Equals | EndOfInput

  const POWER: nat := 3
  const UNARY: nat := 2
  const OR_OR: nat := 13
  const TERNARY: nat := 14
  const ASSIGNMENT: nat := 15

  /** The precedence level of a binary operator symbol; 0 for a prefix-only symbol. */
  function SymLevel(s: Sym): (l: nat)
    ensures l == 0 || POWER <= l <= OR_OR
  {
    match s
    case OrOr => 13
    case AndAnd => 12
    case OrSym => 11
    case TildeOr => 11
    case XorSym => 10
    case TildeXor => 10
    case XorTilde => 10
    case AndSym => 9
    case TildeAnd => 9
    case EqEq => 8
    case NotEq => 8
    case EqEqEq => 8
    case NotEqEq => 8
    case Less => 7
    case LessEq => 7
    case Greater => 7
    case GreaterEq => 7
    case ShiftL => 6
    case ShiftR => 6
    case ShiftLL => 6
    case ShiftRR => 6
    case Plus => 5
    case Minus => 5
    case Star => 4
    case Slash => 4
    case Percent => 4
    case StarStar => 3
    case Bang => 0
    case Tilde => 0
  }

  function BinaryOf(s: Sym): BinaryOp
    requires SymLevel(s) != 0
  {
    match s
    case OrOr => LogicalOr
    case AndAnd => LogicalAnd
    case OrSym => Bitwise(GOr)
    case TildeOr => Bitwise(GNor)
    case XorSym => Bitwise(GXor)
    case TildeXor => Bitwise(GXnor)
    case XorTilde => Bitwise(GXnor)
    case AndSym => Bitwise(GAnd)
    case TildeAnd => Bitwise(GNand)
    case EqEq => Compare(Eq)
    case NotEq => Compare(Ne)
    case EqEqEq => Compare(CaseEq)
    case NotEqEq => Compare(CaseNe)
    case Less => Compare(Lt)
    case LessEq => Compare(Le)
    case Greater => Compare(Gt)
    case GreaterEq => Compare(Ge)
    case ShiftL => ShiftBy(Shl)
    case ShiftR => ShiftBy(Shr)
    case ShiftLL => ShiftBy(AShl)
    case ShiftRR => ShiftBy(AShr)
    case Plus => Arith(Add)
    case Minus => Arith(Sub)
    case Star => Arith(Mul)
    case Slash => Arith(Div)
    case Percent => Arith(Mod)
    case StarStar => Arith(Pow)
  }

  function UnaryOf(s: Sym): Option<UnaryOp> {
    match s
    case Bang => Some(LogicalNot)
    case Tilde => Some(BitNot)
    case TildeAnd => Some(Reduce(GNand))
    case TildeOr => Some(Reduce(GNor))
    case TildeXor => Some(Reduce(GXnor))
    case XorTilde => Some(Reduce(GXnor))
    case AndSym => Some(Reduce(GAnd))
    case OrSym => Some(Reduce(GOr))
    case XorSym => Some(Reduce(GXor))
    case Minus => Some(Negate)
    case _ => None
  }

  // ---------------------------------------------------------------------------
  // The grammar
  // ---------------------------------------------------------------------------

  /** A token list that ends with the end-of-input token. */
  predicate Closed(ts: seq<Token>) {
    ts != [] && ts[|ts| - 1] == EndOfInput
  }

  /** Expressions that the grammar can produce: no bus operations, unsigned literals. */
  predicate Printable(e: Expr) {
    match e
    case Literal(value) => !value.signed
    case SignalRef(_) => true
    case Unary(_, operand) => Printable(operand)
    case Binary(_, left, right) => Printable(left) && Printable(right)
    case Ternary(cond, onTrue, onFalse) => Printable(cond) && Printable(onTrue) && Printable(onFalse)
    case _ => false
  }

  /** A parse and the tokens after it, or the tokens from the offending one on. */
  datatype Parse = Parsed(e: Expr, rest: seq<Token>) | Failed(at: seq<Token>)

  ghost predicate Advances(p: Parse, ts: seq<Token>) {
    match p
    case Parsed(e, rest) => Closed(rest) && |rest| < |ts| && Printable(e)
    case Failed(at) => Closed(at) && |at| <= |ts|
  }

  predicate Continues(level: nat, t: Token) {
    t.Op? && SymLevel(t.sym) == level
  }

  /** `cond ? inner : ternary`, right associative. */
  function ParseTernary(ts: seq<Token>): (p: Parse)
    requires Closed(ts)
    ensures Advances(p, ts)
    decreases |ts|, 40
  {
    var c := ParseLevel(OR_OR, ts);
    if c.Failed? then c
    else if c.rest[0] != Question then c
    else ParseBranches(c.e, c.rest[1..])
  }

  /** What follows `cond ?`. */
  function ParseBranches(cond: Expr, ts: seq<Token>): (p: Parse)
    requires Closed(ts) && Printable(cond)
    ensures Advances(p, ts)
    decreases |ts|, 44
  {
    var t := ParseInner(ts);
    if t.Failed? then t
    else if t.rest[0] != Colon then Failed(t.rest)
    else
      var f := ParseTernary(t.rest[1..]);
      if f.Failed? then f else Parsed(Ternary(cond, t.e, f.e), f.rest)
  }

  /** The true branch, where `a = b` stands for `b`. */
  function ParseInner(ts: seq<Token>): (p: Parse)
    requires Closed(ts)
    ensures Advances(p, ts)
    decreases |ts|, 40
  {
    var c := ParseLevel(OR_OR, ts);
    if c.Failed? then c
    else if c.rest[0] == Equals then ParseLevel(OR_OR, c.rest[1..])
    else if c.rest[0] != Question then c
    else ParseBranches(c.e, c.rest[1..])
  }

  /** Levels 4 to 13, left associative. */
  function ParseLevel(level: nat, ts: seq<Token>): (p: Parse)
    requires POWER < level <= OR_OR && Closed(ts)
    ensures Advances(p, ts)
    decreases |ts|, 2 * level
  {
    var first := ParseOperand(level, ts);
    if first.Failed? then first else ParseLoop(level, first.e, first.rest)
  }

  function ParseOperand(level: nat, ts: seq<Token>): (p: Parse)
    requires POWER < level <= OR_OR && Closed(ts)
    ensures Advances(p, ts)
    decreases |ts|, 2 * level - 1
  {
    if level - 1 == POWER then ParsePower(ts) else ParseLevel(level - 1, ts)
  }

  function ParseLoop(level: nat, left: Expr, ts: seq<Token>): (p: Parse)
    requires POWER < level <= OR_OR && Closed(ts) && Printable(left)
    ensures p == Parsed(left, ts) || Advances(p, ts)
    decreases |ts|, 2 * level
  {
    if !Continues(level, ts[0]) then Parsed(left, ts)
    else
      var right := ParseOperand(level, ts[1..]);
      if right.Failed? then right
      else ParseLoop(level, Binary(BinaryOf(ts[0].sym), left, right.e), right.rest)
  }

  /** Level 3, right associative. */
  function ParsePower(ts: seq<Token>): (p: Parse)
    requires Closed(ts)
    ensures Advances(p, ts)
    decreases |ts|, 6
  {
    var left := ParseUnary(ts);
    if left.Failed? then left
    else if !Continues(POWER, left.rest[0]) then left
    else
      var right := ParsePower(left.rest[1..]);
      if right.Failed? then right else Parsed(Binary(Arith(Pow), left.e, right.e), right.rest)
  }

  /** Level 2: prefix operators; unary plus is dropped. */
  function ParseUnary(ts: seq<Token>): (p: Parse)
    requires Closed(ts)
    ensures Advances(p, ts)
    decreases |ts|, 4
  {
    if ts[0].Op? && UnaryOf(ts[0].sym).Some? then
      var operand := ParseUnary(ts[1..]);
      if operand.Failed? then operand else Parsed(Unary(UnaryOf(ts[0].sym).value, operand.e), operand.rest)
    else if ts[0] == Op(Plus) then ParseUnary(ts[1..])
    else ParsePrimary(ts)
  }

  function ParsePrimary(ts: seq<Token>): (p: Parse)
    requires Closed(ts)
    ensures Advances(p, ts)
    decreases |ts|, 2
  {
    match ts[0]
    case LParen =>
      var inner := ParseTernary(ts[1..]);
      if inner.Failed? then inner
      else if inner.rest[0] != RParen then Failed(inner.rest)
      else Parsed(inner.e, inner.rest[1..])
    case LiteralToken(bits) => Parsed(Literal(LogicValue(bits, false)), ts[1..])
    case SignalToken(path) => Parsed(SignalRef(path), ts[1..])
    case _ => Failed(ts)
  }

  function ParseAll(ts: seq<Token>): Parse
    requires Closed(ts)
  {
    var p := ParseTernary(ts);
    if p.Failed? then p else if p.rest[0] != EndOfInput then Failed(p.rest) else p
  }

  // ---------------------------------------------------------------------------
  // Operator symbols
  // ---------------------------------------------------------------------------

  function BinarySym(op: BinaryOp): (s: Sym)
    ensures SymLevel(s) != 0 && BinaryOf(s) == op
  {
    match op
    case LogicalOr => OrOr
    case LogicalAnd => AndAnd
    case Bitwise(g) =>
      (match g
       case GOr => OrSym
       case GNor => TildeOr
       case GXor => XorSym
       case GXnor => TildeXor
       case GAnd => AndSym
       case GNand => TildeAnd)
    case Compare(c) =>
      (match c
       case Eq => EqEq
       case Ne => NotEq
       case CaseEq => EqEqEq
       case CaseNe => NotEqEq
       case Lt => Less
       case Le => LessEq
       case Gt => Greater
       case Ge => GreaterEq)
    case ShiftBy(s) =>
      (match s
       case Shl => ShiftL
       case Shr => ShiftR
       case AShl => ShiftLL
       case AShr => ShiftRR)
    case Arith(a) =>
      (match a
       case Add => Plus
       case Sub => Minus
       case Mul => Star
       case Div => Slash
       case Mod => Percent
       case Pow => StarStar)
  }

  function UnarySym(op: UnaryOp): (s: Sym)
    ensures UnaryOf(s) == Some(op)
  {
    match op
    case LogicalNot => Bang
    case BitNot => Tilde
    case Negate => Minus
    case Reduce(g) =>
      (match g
       case GOr => OrSym
       case GNor => TildeOr
       case GXor => XorSym
       case GXnor => TildeXor
       case GAnd => AndSym
       case GNand => TildeAnd)
  }

  // ---------------------------------------------------------------------------
  // Writings
  // ---------------------------------------------------------------------------

  /** The ways to write an expression, redundant parentheses and pluses included. */
  datatype Writing =
    | Number(bits: Bits)
    | Name(path: string)
    | Parens(inner: Writing)
    | Prefix(sym: Sym, operand: Writing)
    | UnaryPlus(operand: Writing)
    | Infix(sym: Sym, left: Writing, right: Writing)
    | Conditional(cond: Writing, onTrue: Writing, onFalse: Writing)
    | Assignment(target: Writing, value: Writing)

  /** The precedence level of a writing. */
  function At(w: Writing): nat {
    match w
    case Prefix(_, _) => UNARY
    case UnaryPlus(_) => UNARY
    case Infix(sym, _, _) => SymLevel(sym)
    case Conditional(_, _, _) => TERNARY
    case Assignment(_, _) => ASSIGNMENT
    case _ => 1
  }

  /** Operators bind as their levels say; only a true branch may be an assignment. */
  predicate Formed(w: Writing) {
    match w
    case Number(_) => true
    case Name(_) => true
    case Parens(inner) => Formed(inner) && At(inner) <= TERNARY
    case Prefix(sym, operand) => UnaryOf(sym).Some? && Formed(operand) && At(operand) <= UNARY
    case UnaryPlus(operand) => Formed(operand) && At(operand) <= UNARY
    case Infix(sym, left, right) =>
      && SymLevel(sym) != 0 && Formed(left) && Formed(right)
      && (if sym == StarStar then At(left) <= UNARY && At(right) <= POWER
          else At(left) <= SymLevel(sym) && At(right) < SymLevel(sym))
    case Conditional(cond, onTrue, onFalse) =>
      Formed(cond) && Formed(onTrue) && Formed(onFalse) && At(cond) <= OR_OR && At(onFalse) <= TERNARY
    case Assignment(target, value) =>
      Formed(target) && Formed(value) && At(target) <= OR_OR && At(value) <= OR_OR
  }

  function Tokens(w: Writing): (ts: seq<Token>)
    ensures ts != []
  {
    match w
    case Number(bits) => [LiteralToken(bits)]
    case Name(path) => [SignalToken(path)]
    case Parens(inner) => [LParen] + Tokens(inner) + [RParen]
    case Prefix(sym, operand) => [Op(sym)] + Tokens(operand)
    case UnaryPlus(operand) => [Op(Plus)] + Tokens(operand)
    case Infix(sym, left, right) => Tokens(left) + [Op(sym)] + Tokens(right)
    case Conditional(cond, onTrue, onFalse) =>
      Tokens(cond) + [Question] + Tokens(onTrue) + [Colon] + Tokens(onFalse)
    case Assignment(target, value) => Tokens(target) + [Equals] + Tokens(value)
  }

  /** What a writing stands for; an assignment stands for its value. */
  function Meaning(w: Writing): (e: Expr)
    requires Formed(w)
    ensures Printable(e)
  {
    match w
    case Number(bits) => Literal(LogicValue(bits, false))
    case Name(path) => SignalRef(path)
    case Parens(inner) => Meaning(inner)
    case Prefix(sym, operand) => Unary(UnaryOf(sym).value, Meaning(operand))
    case UnaryPlus(operand) => Meaning(operand)
    case Infix(sym, left, right) => Binary(BinaryOf(sym), Meaning(left), Meaning(right))
    case Conditional(cond, onTrue, onFalse) => Ternary(Meaning(cond), Meaning(onTrue), Meaning(onFalse))
    case Assignment(_, value) => Meaning(value)
  }

  // ---------------------------------------------------------------------------
  // Every writing parses to its meaning
  // ---------------------------------------------------------------------------

  /** The next token does not continue an expression of a level below `level`. */
  predicate Stops(level: nat, t: Token) {
    t.Op? ==> SymLevel(t.sym) == 0 || SymLevel(t.sym) >= level
  }

  /** The next token does not continue an expression at all. */
  predicate Ends(t: Token) {
    Stops(TERNARY, t) && t != Question && t != Equals
  }

  /** In parentheses a writing is a primary. */
  lemma {:induction false} ParsesParens(w: Writing, rest: seq<Token>)
    requires Formed(w) && At(w) <= TERNARY && Closed(rest)
    ensures var ts := [LParen] + Tokens(w) + [RParen] + rest;
            Closed(ts) && ParsePrimary(ts) == Parsed(Meaning(w), rest)
    decreases w, 50
  {
    var ts, after := [LParen] + Tokens(w) + [RParen] + rest, [RParen] + rest;
    assert ts[1..] == Tokens(w) + after;
    ParsesTernary(w, after);
  }

  /** Prefix operators nest. */
  lemma {:induction false} ParsesUnary(w: Writing, rest: seq<Token>)
    requires Formed(w) && At(w) <= UNARY && Closed(rest)
    ensures var ts := Tokens(w) + rest; Closed(ts) && ParseUnary(ts) == Parsed(Meaning(w), rest)
    decreases w, 4
  {
    var ts := Tokens(w) + rest;
    if w.Parens? {
      ParsesParens(w.inner, rest);
    } else if w.Prefix? || w.UnaryPlus? {
      assert ts[1..] == Tokens(w.operand) + rest;
      ParsesUnary(w.operand, rest);
    } else {
      assert ts[1..] == rest;
    }
  }

  /** What is right of an infix operator, and what follows. */
  function Tail(w: Writing, rest: seq<Token>): (ts: seq<Token>)
    requires w.Infix? && Closed(rest)
    ensures Closed(ts) && ts[1..] == Tokens(w.right) + rest && Tokens(w) + rest == Tokens(w.left) + ts
  {
    [Op(w.sym)] + (Tokens(w.right) + rest)
  }

  /** Power is right associative. */
  lemma {:induction false} ParsesPower(w: Writing, rest: seq<Token>)
    requires Formed(w) && At(w) <= POWER && Closed(rest) && Stops(POWER + 1, rest[0])
    ensures var ts := Tokens(w) + rest; Closed(ts) && ParsePower(ts) == Parsed(Meaning(w), rest)
    decreases w, 6
  {
    if w.Infix? {
      ParsesUnary(w.left, Tail(w, rest));
      ParsesPower(w.right, rest);
    } else {
      ParsesUnary(w, rest);
    }
  }

  /** At its own level a writing is the left operand of whatever follows. */
  lemma {:induction false} ParsesLevel(w: Writing, level: nat, rest: seq<Token>)
    requires Formed(w) && At(w) <= level && POWER < level <= OR_OR && Closed(rest) && Stops(level, rest[0])
    ensures var ts := Tokens(w) + rest; Closed(ts) && ParseLevel(level, ts) == ParseLoop(level, Meaning(w), rest)
    decreases w, 2 * level
  {
    if At(w) == level {
      ParsesLevel(w.left, level, Tail(w, rest));
      ParsesOperand(w.right, level, rest);
    } else {
      ParsesOperand(w, level, rest);
    }
  }

  lemma {:induction false} ParsesOperand(w: Writing, level: nat, rest: seq<Token>)
    requires Formed(w) && At(w) < level && POWER < level <= OR_OR && Closed(rest) && Stops(level, rest[0])
    ensures var ts := Tokens(w) + rest; Closed(ts) && ParseOperand(level, ts) == Parsed(Meaning(w), rest)
    decreases w, 2 * level - 1
  {
    if level - 1 == POWER {
      ParsesPower(w, rest);
    } else {
      ParsesLevel(w, level - 1, rest);
    }
  }

  lemma {:induction false} ParsesTernary(w: Writing, rest: seq<Token>)
    requires Formed(w) && At(w) <= TERNARY && Closed(rest) && Ends(rest[0])
    ensures var ts := Tokens(w) + rest;
            Closed(ts) && ParseTernary(ts) == Parsed(Meaning(w), rest) && ParseInner(ts) == Parsed(Meaning(w), rest)
    decreases w, 40
  {
    if w.Conditional? {
      ParsesConditional(w, rest);
    } else {
      ParsesLevel(w, OR_OR, rest);
    }
  }

  /** A true branch, assignments included. */
  lemma {:induction false} ParsesInner(w: Writing, rest: seq<Token>)
    requires Formed(w) && Closed(rest) && Ends(rest[0])
    ensures var ts := Tokens(w) + rest; Closed(ts) && ParseInner(ts) == Parsed(Meaning(w), rest)
    decreases w, 41
  {
    if w.Assignment? {
      var equals := [Equals] + (Tokens(w.value) + rest);
      assert Tokens(w) + rest == Tokens(w.target) + equals;
      ParsesLevel(w.target, OR_OR, equals);
      assert equals[1..] == Tokens(w.value) + rest;
      ParsesLevel(w.value, OR_OR, rest);
    } else {
      ParsesTernary(w, rest);
    }
  }

  /** Conditionals nest in either branch. */
  lemma {:induction false} ParsesConditional(w: Writing, rest: seq<Token>)
    requires Formed(w) && w.Conditional? && Closed(rest) && Ends(rest[0])
    ensures var ts := Tokens(w) + rest;
            Closed(ts) && ParseTernary(ts) == Parsed(Meaning(w), rest) && ParseInner(ts) == Parsed(Meaning(w), rest)
    decreases w, 30
  {
    var question := [Question] + BranchTokens(w, rest);
    assert Tokens(w) + rest == Tokens(w.cond) + question;
    ParsesLevel(w.cond, OR_OR, question);
    assert question[1..] == BranchTokens(w, rest);
    ParsesBranches(w, rest);
  }

  function BranchTokens(w: Writing, rest: seq<Token>): seq<Token>
    requires w.Conditional?
  {
    Tokens(w.onTrue) + ([Colon] + (Tokens(w.onFalse) + rest))
  }

  lemma {:induction false} ParsesBranches(w: Writing, rest: seq<Token>)
    requires Formed(w) && w.Conditional? && Closed(rest) && Ends(rest[0])
    ensures Closed(BranchTokens(w, rest))
    ensures ParseBranches(Meaning(w.cond), BranchTokens(w, rest)) == Parsed(Meaning(w), rest)
    decreases w, 29
  {
    var colon := [Colon] + (Tokens(w.onFalse) + rest);
    assert colon[1..] == Tokens(w.onFalse) + rest;
    ParsesInner(w.onTrue, colon);
    ParsesTernary(w.onFalse, rest);
  }

  // ---------------------------------------------------------------------------
  // Whatever parses was written
  // ---------------------------------------------------------------------------

  /** `w` is a writing up to some level of what was parsed, and its tokens are the ones read. */
  ghost predicate Wrote(w: Writing, level: nat, p: Parse, ts: seq<Token>) {
    p.Parsed? && Formed(w) && At(w) <= level && Meaning(w) == p.e && Tokens(w) + p.rest == ts
  }

  lemma {:induction false} InfixTokens(w: Writing, rest: seq<Token>, ts: seq<Token>)
    requires w.Infix? && Closed(rest) && ts != [] && ts[0] == Op(w.sym) && Tokens(w.right) + rest == ts[1..]
    ensures Tokens(w) + rest == Tokens(w.left) + ts
  {
    assert Tail(w, rest) == ts;
  }

  lemma {:induction false} AssignmentTokens(w: Writing, rest: seq<Token>, ts: seq<Token>)
    requires w.Assignment? && ts != [] && ts[0] == Equals && Tokens(w.value) + rest == ts[1..]
    ensures Tokens(w) + rest == Tokens(w.target) + ts
  {
    assert ts == [Equals] + ts[1..];
  }

  lemma {:induction false} ConditionalTokens(w: Writing, rest: seq<Token>, ts: seq<Token>, colon: seq<Token>)
    requires w.Conditional? && Tokens(w.onTrue) + colon == ts
    requires colon != [] && colon[0] == Colon && Tokens(w.onFalse) + rest == colon[1..]
    ensures Tokens(w) + rest == Tokens(w.cond) + [Question] + ts
  {
    assert colon == [Colon] + colon[1..];
    assert BranchTokens(w, rest) == ts;
  }

  /** A condition and what follows its question mark. */
  lemma {:induction false} QuestionTokens(cond: Writing, rest: seq<Token>, ts: seq<Token>)
    requires rest != [] && rest[0] == Question && Tokens(cond) + rest == ts
    ensures Tokens(cond) + [Question] + rest[1..] == ts
  {
    assert rest == [Question] + rest[1..];
  }

  lemma {:induction false} WroteTernary(ts: seq<Token>) returns (w: Writing)
    requires Closed(ts) && ParseTernary(ts).Parsed?
    ensures Wrote(w, TERNARY, ParseTernary(ts), ts)
    decreases |ts|, 40
  {
    var c := ParseLevel(OR_OR, ts);
    w := WroteLevel(OR_OR, ts);
    if c.rest[0] == Question {
      QuestionTokens(w, c.rest, ts);
      w := WroteBranches(w, c.rest[1..]);
    }
  }

  /** After the condition and the question mark. */
  lemma {:induction false} WroteBranches(cond: Writing, ts: seq<Token>) returns (w: Writing)
    requires Formed(cond) && At(cond) <= OR_OR && Closed(ts) && ParseBranches(Meaning(cond), ts).Parsed?
    ensures Wrote(w, TERNARY, ParseBranches(Meaning(cond), ts), Tokens(cond) + [Question] + ts)
    decreases |ts|, 44
  {
    var t := ParseInner(ts);
    var onTrue := WroteInner(ts);
    var onFalse := WroteTernary(t.rest[1..]);
    w := Conditional(cond, onTrue, onFalse);
    ConditionalTokens(w, ParseTernary(t.rest[1..]).rest, ts, t.rest);
  }

  lemma {:induction false} WroteInner(ts: seq<Token>) returns (w: Writing)
    requires Closed(ts) && ParseInner(ts).Parsed?
    ensures Wrote(w, ASSIGNMENT, ParseInner(ts), ts)
    decreases |ts|, 40
  {
    var c := ParseLevel(OR_OR, ts);
    w := WroteLevel(OR_OR, ts);
    if c.rest[0] == Equals {
      var value := WroteLevel(OR_OR, c.rest[1..]);
      w := Assignment(w, value);
      AssignmentTokens(w, ParseLevel(OR_OR, c.rest[1..]).rest, c.rest);
    } else if c.rest[0] == Question {
      QuestionTokens(w, c.rest, ts);
      w := WroteBranches(w, c.rest[1..]);
    }
  }

  lemma {:induction false} WroteLevel(level: nat, ts: seq<Token>) returns (w: Writing)
    requires POWER < level <= OR_OR && Closed(ts) && ParseLevel(level, ts).Parsed?
    ensures Wrote(w, level, ParseLevel(level, ts), ts)
    decreases |ts|, 2 * level
  {
    var first := ParseOperand(level, ts);
    w := WroteOperand(level, ts);
    w := WroteLoop(level, w, first.rest);
  }

  lemma {:induction false} WroteOperand(level: nat, ts: seq<Token>) returns (w: Writing)
    requires POWER < level <= OR_OR && Closed(ts) && ParseOperand(level, ts).Parsed?
    ensures Wrote(w, level - 1, ParseOperand(level, ts), ts)
    decreases |ts|, 2 * level - 1
  {
    if level - 1 == POWER {
      w := WrotePower(ts);
    } else {
      w := WroteLevel(level - 1, ts);
    }
  }

  /** After the operands read so far. */
  lemma {:induction false} WroteLoop(level: nat, left: Writing, ts: seq<Token>) returns (w: Writing)
    requires POWER < level <= OR_OR && Formed(left) && At(left) <= level
    requires Closed(ts) && ParseLoop(level, Meaning(left), ts).Parsed?
    ensures Wrote(w, level, ParseLoop(level, Meaning(left), ts), Tokens(left) + ts)
    decreases |ts|, 2 * level
  {
    w := left;
    if Continues(level, ts[0]) {
      var r := ParseOperand(level, ts[1..]);
      var right := WroteOperand(level, ts[1..]);
      var next := Infix(ts[0].sym, left, right);
      InfixTokens(next, r.rest, ts);
      w := WroteLoop(level, next, r.rest);
    }
  }

  lemma {:induction false} WrotePower(ts: seq<Token>) returns (w: Writing)
    requires Closed(ts) && ParsePower(ts).Parsed?
    ensures Wrote(w, POWER, ParsePower(ts), ts)
    decreases |ts|, 6
  {
    var left := ParseUnary(ts);
    w := WroteUnary(ts);
    if Continues(POWER, left.rest[0]) {
      var right := WrotePower(left.rest[1..]);
      w := Infix(StarStar, w, right);
      InfixTokens(w, ParsePower(left.rest[1..]).rest, left.rest);
    }
  }

  lemma {:induction false} WroteUnary(ts: seq<Token>) returns (w: Writing)
    requires Closed(ts) && ParseUnary(ts).Parsed?
    ensures Wrote(w, UNARY, ParseUnary(ts), ts)
    decreases |ts|, 4
  {
    if ts[0].Op? && UnaryOf(ts[0].sym).Some? {
      w := WroteUnary(ts[1..]);
      w := Prefix(ts[0].sym, w);
    } else if ts[0] == Op(Plus) {
      w := WroteUnary(ts[1..]);
      w := UnaryPlus(w);
    } else {
      w := WrotePrimary(ts);
    }
  }

  lemma {:induction false} WrotePrimary(ts: seq<Token>) returns (w: Writing)
    requires Closed(ts) && ParsePrimary(ts).Parsed?
    ensures Wrote(w, 1, ParsePrimary(ts), ts)
    decreases |ts|, 2
  {
    if ts[0] == LParen {
      var inner := ParseTernary(ts[1..]);
      w := WroteTernary(ts[1..]);
      w := Parens(w);
      assert inner.rest == [RParen] + inner.rest[1..];
    } else if ts[0].LiteralToken? {
      w := Number(ts[0].bits);
    } else {
      w := Name(ts[0].path);
    }
  }

  /** Exactly the writings are accepted, up to the first end-of-input token, each with its meaning. */
  lemma {:induction false} AcceptsWritings(ts: seq<Token>, e: Expr, rest: seq<Token>)
    requires Closed(ts)
    ensures ParseAll(ts) == Parsed(e, rest) <==>
            && Closed(rest) && rest[0] == EndOfInput
            && exists w :: Wrote(w, TERNARY, Parsed(e, rest), ts)
  {
    if ParseAll(ts) == Parsed(e, rest) {
      var w := WroteTernary(ts);
    }
    if Closed(rest) && rest[0] == EndOfInput {
      if w :| Wrote(w, TERNARY, Parsed(e, rest), ts) {
        ParsesTernary(w, rest);
      }
    }
  }

  /** No token list has two meanings. */
  lemma {:induction false} Unambiguous(a: Writing, b: Writing)
    requires Formed(a) && Formed(b) && At(a) <= TERNARY && At(b) <= TERNARY && Tokens(a) == Tokens(b)
    ensures Meaning(a) == Meaning(b)
  {
    ParsesTernary(a, [EndOfInput]);
    ParsesTernary(b, [EndOfInput]);
  }

  // ---------------------------------------------------------------------------
  // The printer
  // ---------------------------------------------------------------------------

  /** The loosest operand a binary operator takes on its left. */
  function LeftLevel(op: BinaryOp): (l: nat)
    ensures l > 0
  {
    if op == Arith(Pow) then UNARY else SymLevel(BinarySym(op))
  }

  function RightLevel(op: BinaryOp): (l: nat)
    ensures l > 0
  {
    if op == Arith(Pow) then POWER else SymLevel(BinarySym(op)) - 1
  }

  function PlainBinary(op: BinaryOp, left: Writing, right: Writing): (w: Writing)
    requires Formed(left) && At(left) <= LeftLevel(op) && Formed(right) && At(right) <= RightLevel(op)
    ensures Formed(w) && At(w) <= OR_OR && Meaning(w) == Binary(op, Meaning(left), Meaning(right))
  {
    Infix(BinarySym(op), left, right)
  }

  /** Parentheses only where the context binds tighter than the expression. */
  function Canonical(e: Expr, level: nat): (w: Writing)
    requires Printable(e) && level > 0
    ensures Formed(w) && At(w) <= level && Meaning(w) == e
    decreases e, 1
  {
    if At(Plain(e)) <= level then Plain(e) else Parens(Plain(e))
  }

  function Plain(e: Expr): (w: Writing)
    requires Printable(e)
    ensures Formed(w) && At(w) <= TERNARY && Meaning(w) == e
    decreases e, 0
  {
    match e
    case Literal(value) => Number(value.bits)
    case SignalRef(path) => Name(path)
    case Unary(op, operand) => Prefix(UnarySym(op), Canonical(operand, UNARY))
    case Binary(op, left, right) =>
      PlainBinary(op, Canonical(left, LeftLevel(op)), Canonical(right, RightLevel(op)))
    case Ternary(cond, onTrue, onFalse) =>
      Conditional(Canonical(cond, OR_OR), Canonical(onTrue, TERNARY), Canonical(onFalse, TERNARY))
  }

  /** Parsing the printed tokens of any expression returns that expression. */
  lemma {:induction false} ParseInvertsPrint(e: Expr)
    requires Printable(e)
    ensures var ts := Tokens(Canonical(e, TERNARY)) + [EndOfInput];
            Closed(ts) && ParseAll(ts) == Parsed(e, [EndOfInput])
  {
    ParsesTernary(Canonical(e, TERNARY), [EndOfInput]);
  }

  // ---------------------------------------------------------------------------
  // The parser object
  // ---------------------------------------------------------------------------

  /** A parse error, at the index of the offending token. */
  datatype ParseError = ParseError(index: nat)

  type Outcome = Result<Expr, ParseError>

  class Parser {
    const tokens: seq<Token>
    var pos: nat

    /** The cursor never passes the end-of-input token. */
    ghost predicate Valid()
      reads this
    {
      pos < |tokens| && Closed(tokens)
    }

    ghost function Rest(): (ts: seq<Token>)
      requires Valid()
      reads this
      ensures Closed(ts)
    {
      tokens[pos..]
    }

    /** The object has done what the grammar says. */
    ghost predicate Follows(r: Outcome, p: Parse)
      requires Valid()
      reads this
    {
      match p
      case Parsed(e, rest) => r == Ok(e) && Rest() == rest
      case Failed(at) => r.Err? && r.error.index < |tokens| && tokens[r.error.index..] == at
    }

    constructor (tokens: seq<Token>)
      requires Closed(tokens)
      ensures Valid() && this.tokens == tokens && Rest() == tokens
    {
      this.tokens, this.pos := tokens, 0;
    }

    function Peek(): Token
      requires Valid()
      reads this
      ensures Peek() == Rest()[0]
    {
      tokens[pos]
    }

    method Advance()
      requires Valid() && Peek() != EndOfInput
      modifies this`pos
      ensures Valid() && pos == old(pos) + 1 && Rest() == old(Rest())[1..]
    {
      pos := pos + 1;
    }

    method ParseAllTokens() returns (r: Outcome)
      requires Valid()
      modifies this`pos
      ensures Valid() && Follows(r, ParseAll(old(Rest())))
    {
      r := Ternary();
      if r.Ok? && Peek() != EndOfInput {
        r := Err(ParseError(pos));
      }
    }

    method Ternary() returns (r: Outcome)
      requires Valid()
      modifies this`pos
      ensures Valid() && pos >= old(pos) && Follows(r, ParseTernary(old(Rest())))
      decreases |tokens| - pos, 40
    {
      r := BinaryLevel(OR_OR);
      if r.Ok? && Peek() == Question {
        Advance();
        r := Branches(r.value);
      }
    }

    method Branches(cond: Expr) returns (r: Outcome)
      requires Valid() && Printable(cond)
      modifies this`pos
      ensures Valid() && pos >= old(pos) && Follows(r, ParseBranches(cond, old(Rest())))
      decreases |tokens| - pos, 44
    {
      r := Inner();
      if r.Err? { return; }
      if Peek() != Colon { return Err(ParseError(pos)); }
      Advance();
      var onFalse := Ternary();
      if onFalse.Err? { return onFalse; }
      r := Ok(Expr.Ternary(cond, r.value, onFalse.value));
    }

    method Inner() returns (r: Outcome)
      requires Valid()
      modifies this`pos
      ensures Valid() && pos >= old(pos) && Follows(r, ParseInner(old(Rest())))
      decreases |tokens| - pos, 40
    {
      r := BinaryLevel(OR_OR);
      if r.Err? { return; }
      if Peek() == Equals {
        Advance();
        r := BinaryLevel(OR_OR);
      } else if Peek() == Question {
        Advance();
        r := Branches(r.value);
      }
    }

    method BinaryLevel(level: nat) returns (r: Outcome)
      requires Valid() && POWER < level <= OR_OR
      modifies this`pos
      ensures Valid() && pos >= old(pos) && (r.Ok? ==> pos > old(pos)) && Follows(r, ParseLevel(level, old(Rest())))
      decreases |tokens| - pos, 2 * level
    {
      var left := Operand(level);
      if left.Err? { return left; }
      var node := left.value;
      ghost var first, after := node, Rest();
      while Continues(level, Peek())
        invariant Valid() && pos > old(pos) && Printable(node)
        invariant ParseLoop(level, node, Rest()) == ParseLoop(level, first, after)
        decreases |tokens| - pos
      {
        var sym := Peek().sym;
        Advance();
        var right := Operand(level);
        if right.Err? { return right; }
        node := Binary(BinaryOf(sym), node, right.value);
      }
      r := Ok(node);
    }

    method Operand(level: nat) returns (r: Outcome)
      requires Valid() && POWER < level <= OR_OR
      modifies this`pos
      ensures Valid() && pos >= old(pos) && (r.Ok? ==> pos > old(pos)) && Follows(r, ParseOperand(level, old(Rest())))
      decreases |tokens| - pos, 2 * level - 1
    {
      if level - 1 == POWER {
        r := PowerLevel();
      } else {
        r := BinaryLevel(level - 1);
      }
    }

    method PowerLevel() returns (r: Outcome)
      requires Valid()
      modifies this`pos
      ensures Valid() && pos >= old(pos) && (r.Ok? ==> pos > old(pos)) && Follows(r, ParsePower(old(Rest())))
      decreases |tokens| - pos, 6
    {
      r := UnaryLevel();
      if r.Ok? && Continues(POWER, Peek()) {
        Advance();
        var right := PowerLevel();
        if right.Err? { return right; }
        r := Ok(Binary(Arith(Pow), r.value, right.value));
      }
    }

    method UnaryLevel() returns (r: Outcome)
      requires Valid()
      modifies this`pos
      ensures Valid() && pos >= old(pos) && (r.Ok? ==> pos > old(pos)) && Follows(r, ParseUnary(old(Rest())))
      decreases |tokens| - pos, 4
    {
      var t := Peek();
      if t.Op? && UnaryOf(t.sym).Some? {
        Advance();
        var operand := UnaryLevel();
        if operand.Err? { return operand; }
        r := Ok(Unary(UnaryOf(t.sym).value, operand.value));
      } else if t == Op(Plus) {
        Advance();
        r := UnaryLevel();
      } else {
        r := Primary();
      }
    }

    method Primary() returns (r: Outcome)
      requires Valid()
      modifies this`pos
      ensures Valid() && pos >= old(pos) && (r.Ok? ==> pos > old(pos)) && Follows(r, ParsePrimary(old(Rest())))
      decreases |tokens| - pos, 2
    {
      match Peek() {
        case LParen =>
          Advance();
          r := Ternary();
          if r.Err? { return; }
          if Peek() != RParen { return Err(ParseError(pos)); }
          Advance();
        case LiteralToken(bits) =>
          Advance();
          r := Ok(Literal(LogicValue(bits, false)));
        case SignalToken(path) =>
          Advance();
          r := Ok(SignalRef(path));
        case _ =>
          r := Err(ParseError(pos));
      }
    }
  }
}
