/**
 How operators group, with every symbol written out: the tighter operator is inside, equal ones
 group to the left, and powers to the right.
 */
module Precedence {
  import opened Wrappers
  import opened LogicValues
  import opened Expressions
  import opened ExpressionParser

  /** The binary operators of a level, from the loosest at 0 to the tightest at 10. */
  function Operators(level: nat): map<Sym, BinaryOp> {
    match level
    case 0 => map[OrOr := LogicalOr]
    case 1 => map[AndAnd := LogicalAnd]
    case 2 => map[OrSym := Bitwise(GOr), TildeOr := Bitwise(GNor)]
    case 3 => map[XorSym := Bitwise(GXor), TildeXor := Bitwise(GXnor), XorTilde := Bitwise(GXnor)]
    case 4 => map[AndSym := Bitwise(GAnd), TildeAnd := Bitwise(GNand)]
    case 5 => map[EqEq := Compare(Eq), NotEq := Compare(Ne), EqEqEq := Compare(CaseEq), NotEqEq := Compare(CaseNe)]
    case 6 => map[Less := Compare(Lt), LessEq := Compare(Le), Greater := Compare(Gt), GreaterEq := Compare(Ge)]
    case 7 => map[ShiftL := ShiftBy(Shl), ShiftR := ShiftBy(Shr), ShiftLL := ShiftBy(AShl), ShiftRR := ShiftBy(AShr)]
    case 8 => map[Plus := Arith(Add), Minus := Arith(Sub)]
    case 9 => map[Star := Arith(Mul), Slash := Arith(Div), Percent := Arith(Mod)]
    case 10 => map[StarStar := Arith(Pow)]
    case _ => map[]
  }

  /** The prefix operators; a unary plus is dropped. */
  const Prefixes: map<Sym, UnaryOp> := map[
    Bang := LogicalNot, Tilde := BitNot, Minus := Negate,
    AndSym := Reduce(GAnd), OrSym := Reduce(GOr), XorSym := Reduce(GXor),
    TildeAnd := Reduce(GNand), TildeOr := Reduce(GNor), TildeXor := Reduce(GXnor), XorTilde := Reduce(GXnor)
  ]

  lemma {:induction false} LevelOf(level: nat, s: Sym)
    requires s in Operators(level)
    ensures level <= 10 && SymLevel(s) == 13 - level && BinaryOf(s) == Operators(level)[s]
    ensures s == StarStar <==> level == 10
  {
    if level <= 4 {
      LooseLevelOf(level, s);
    } else if level <= 7 {
      MiddleLevelOf(level, s);
    }
  }

  lemma {:induction false} LooseLevelOf(level: nat, s: Sym)
    requires level <= 4 && s in Operators(level)
    ensures SymLevel(s) == 13 - level && BinaryOf(s) == Operators(level)[s] && s != StarStar
  {}

  lemma {:induction false} MiddleLevelOf(level: nat, s: Sym)
    requires 5 <= level <= 7 && s in Operators(level)
    ensures SymLevel(s) == 13 - level && BinaryOf(s) == Operators(level)[s] && s != StarStar
  {}

  lemma {:induction false} PrefixOf(s: Sym)
    requires s in Prefixes
    ensures UnaryOf(s) == Some(Prefixes[s])
  {}

  /** An operand: a primary, or prefix operators on one. */
  predicate Operand(w: Writing) {
    Formed(w) && At(w) <= UNARY
  }

  /** `x s y t z` and the end of the input. */
  function Chain(x: Writing, s: Sym, y: Writing, t: Sym, z: Writing): (ts: seq<Token>)
    ensures Closed(ts)
  {
    Tokens(x) + [Op(s)] + Tokens(y) + [Op(t)] + Tokens(z) + [EndOfInput]
  }

  lemma {:induction false} ChainRight(x: Writing, s: Sym, y: Writing, t: Sym, z: Writing)
    requires Formed(Infix(s, x, Infix(t, y, z)))
    ensures ParseAll(Chain(x, s, y, t, z)) == Parsed(Meaning(Infix(s, x, Infix(t, y, z))), [EndOfInput])
  {
    var w := Infix(s, x, Infix(t, y, z));
    assert Tokens(w) + [EndOfInput] == Chain(x, s, y, t, z);
    ParsesTernary(w, [EndOfInput]);
  }

  lemma {:induction false} ChainLeft(x: Writing, s: Sym, y: Writing, t: Sym, z: Writing)
    requires Formed(Infix(t, Infix(s, x, y), z))
    ensures ParseAll(Chain(x, s, y, t, z)) == Parsed(Meaning(Infix(t, Infix(s, x, y), z)), [EndOfInput])
  {
    var w := Infix(t, Infix(s, x, y), z);
    assert Tokens(w) + [EndOfInput] == Chain(x, s, y, t, z);
    ParsesTernary(w, [EndOfInput]);
  }

  /** Of two operators of different levels the tighter one is inside, whichever comes first. */
  lemma {:induction false} TighterInside(i: nat, loose: Sym, j: nat, tight: Sym, x: Writing, y: Writing, z: Writing)
    requires i < j && loose in Operators(i) && tight in Operators(j)
    requires Operand(x) && Operand(y) && Operand(z)
    ensures ParseAll(Chain(x, loose, y, tight, z)) ==
            Parsed(Binary(Operators(i)[loose], Meaning(x), Binary(Operators(j)[tight], Meaning(y), Meaning(z))),
                   [EndOfInput])
    ensures ParseAll(Chain(x, tight, y, loose, z)) ==
            Parsed(Binary(Operators(i)[loose], Binary(Operators(j)[tight], Meaning(x), Meaning(y)), Meaning(z)),
                   [EndOfInput])
  {
    LevelOf(i, loose);
    LevelOf(j, tight);
    ChainRight(x, loose, y, tight, z);
    ChainLeft(x, tight, y, loose, z);
  }

  /** Operators of one level group to the left, powers to the right. */
  lemma {:induction false} OneLevelGroups(i: nat, s: Sym, t: Sym, x: Writing, y: Writing, z: Writing)
    requires s in Operators(i) && t in Operators(i) && Operand(x) && Operand(y) && Operand(z)
    ensures s != StarStar ==>
              ParseAll(Chain(x, s, y, t, z)) ==
              Parsed(Binary(Operators(i)[t], Binary(Operators(i)[s], Meaning(x), Meaning(y)), Meaning(z)), [EndOfInput])
    ensures s == StarStar ==>
              ParseAll(Chain(x, s, y, t, z)) ==
              Parsed(Binary(Arith(Pow), Meaning(x), Binary(Arith(Pow), Meaning(y), Meaning(z))), [EndOfInput])
  {
    LevelOf(i, s);
    LevelOf(i, t);
    if s == StarStar {
      ChainRight(x, s, y, t, z);
    } else {
      ChainLeft(x, s, y, t, z);
    }
  }

  /** A prefix operator takes its operand before any infix operator does. */
  lemma {:induction false} PrefixFirst(s: Sym, i: nat, t: Sym, x: Writing, y: Writing)
    requires s in Prefixes && t in Operators(i) && Operand(x) && Operand(y)
    ensures var ts := [Op(s)] + Tokens(x) + [Op(t)] + Tokens(y) + [EndOfInput];
            && Closed(ts)
            && ParseAll(ts) == Parsed(Binary(Operators(i)[t], Unary(Prefixes[s], Meaning(x)), Meaning(y)), [EndOfInput])
  {
    LevelOf(i, t);
    PrefixOf(s);
    var w := Infix(t, Prefix(s, x), y);
    assert Tokens(w) + [EndOfInput] == [Op(s)] + Tokens(x) + [Op(t)] + Tokens(y) + [EndOfInput];
    ParsesTernary(w, [EndOfInput]);
  }

  /** A unary plus is dropped. */
  lemma {:induction false} PlusDropped(i: nat, t: Sym, x: Writing, y: Writing)
    requires t in Operators(i) && Operand(x) && Operand(y)
    ensures var ts := [Op(Plus)] + Tokens(x) + [Op(t)] + Tokens(y) + [EndOfInput];
            Closed(ts) && ParseAll(ts) == Parsed(Binary(Operators(i)[t], Meaning(x), Meaning(y)), [EndOfInput])
  {
    LevelOf(i, t);
    var w := Infix(t, UnaryPlus(x), y);
    assert Tokens(w) + [EndOfInput] == [Op(Plus)] + Tokens(x) + [Op(t)] + Tokens(y) + [EndOfInput];
    ParsesTernary(w, [EndOfInput]);
  }

  /** A conditional is looser than any operator in its condition. */
  lemma {:induction false} ConditionInside(i: nat, s: Sym, a: Writing, b: Writing, c: Writing, d: Writing)
    requires s in Operators(i) && Operand(a) && Operand(b) && Operand(c) && Operand(d)
    ensures var ts := Tokens(a) + [Op(s)] + Tokens(b) + [Question] + Tokens(c) + [Colon] + Tokens(d) + [EndOfInput];
            Closed(ts) && ParseAll(ts) ==
            Parsed(Ternary(Binary(Operators(i)[s], Meaning(a), Meaning(b)), Meaning(c), Meaning(d)), [EndOfInput])
  {
    LevelOf(i, s);
    var w := Conditional(Infix(s, a, b), c, d);
    assert Tokens(w) + [EndOfInput] ==
           Tokens(a) + [Op(s)] + Tokens(b) + [Question] + Tokens(c) + [Colon] + Tokens(d) + [EndOfInput];
    ParsesTernary(w, [EndOfInput]);
  }

  /** And in its last branch, in which conditionals nest. */
  lemma {:induction false} BranchInside(i: nat, s: Sym, a: Writing, b: Writing, c: Writing, d: Writing)
    requires s in Operators(i) && Operand(a) && Operand(b) && Operand(c) && Operand(d)
    ensures var ts := Tokens(a) + [Question] + Tokens(b) + [Colon] + Tokens(c) + [Op(s)] + Tokens(d) + [EndOfInput];
            Closed(ts) && ParseAll(ts) ==
            Parsed(Ternary(Meaning(a), Meaning(b), Binary(Operators(i)[s], Meaning(c), Meaning(d))), [EndOfInput])
  {
    LevelOf(i, s);
    var w := Conditional(a, b, Infix(s, c, d));
    assert Tokens(w) + [EndOfInput] ==
           Tokens(a) + [Question] + Tokens(b) + [Colon] + Tokens(c) + [Op(s)] + Tokens(d) + [EndOfInput];
    ParsesTernary(w, [EndOfInput]);
  }

  lemma {:induction false} BranchNests(a: Writing, b: Writing, c: Writing, d: Writing, e: Writing)
    requires Operand(a) && Operand(b) && Operand(c) && Operand(d) && Operand(e)
    ensures var ts := Tokens(a) + [Question] + Tokens(b) + [Colon] + Tokens(c) + [Question] + Tokens(d) + [Colon] +
                      Tokens(e) + [EndOfInput];
            Closed(ts) && ParseAll(ts) ==
            Parsed(Ternary(Meaning(a), Meaning(b), Ternary(Meaning(c), Meaning(d), Meaning(e))), [EndOfInput])
  {
    var w := Conditional(a, b, Conditional(c, d, e));
    assert Tokens(w) + [EndOfInput] ==
           Tokens(a) + [Question] + Tokens(b) + [Colon] + Tokens(c) + [Question] + Tokens(d) + [Colon] +
           Tokens(e) + [EndOfInput];
    ParsesTernary(w, [EndOfInput]);
  }

  /** In a true branch `x = y` stands for `y`. */
  lemma {:induction false} AssignmentIsValue(c: Writing, x: Writing, y: Writing, z: Writing)
    requires Operand(c) && Operand(x) && Operand(y) && Operand(z)
    ensures var ts := Tokens(c) + [Question] + Tokens(x) + [Equals] + Tokens(y) + [Colon] + Tokens(z) + [EndOfInput];
            Closed(ts) && ParseAll(ts) == Parsed(Ternary(Meaning(c), Meaning(y), Meaning(z)), [EndOfInput])
  {
    var w := Conditional(c, Assignment(x, y), z);
    assert Tokens(w) + [EndOfInput] ==
           Tokens(c) + [Question] + Tokens(x) + [Equals] + Tokens(y) + [Colon] + Tokens(z) + [EndOfInput];
    ParsesTernary(w, [EndOfInput]);
  }
}
