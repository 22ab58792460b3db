/**
 The widths stored with created signals: they are the actual ones exactly as long as each is
 the width inferred from the definitions as they stand.
 */
module StoredWidths {
  import opened Wrappers
  import opened LogicValues
  import opened Expressions
  import opened UnknownSoundness
  import opened VirtualTransitions
  import opened VirtualSignals

  /** Of one width whatever its conditions, with references of known width. */
  ghost predicate Inferable(created: Created, rank: map<string, nat>, wave: Wave, name: string)
    requires Ranked(created, rank) && name in created
  {
    var refs := Dependencies(created[name]);
    && Unsigned(created[name].ast)
    && Even(created[name].ast, Zeros(Widths(created, rank, wave, refs, rank[name])))
    && forall d :: d in refs ==> RefWidth(created, rank, wave, d).Some?
  }

  ghost predicate SameWidths(a: Env, b: Env) {
    && (forall p :: p in a <==> p in b)
    && forall p :: p in a ==> |a[p].bits| == |b[p].bits|
  }

  /** Widths of operands decide the width of the result. */
  lemma {:induction false} WidthDecided(e: Expr, a: Env, b: Env)
    requires SameWidths(a, b)
    ensures UnknownSoundness.Width(e, a) == UnknownSoundness.Width(e, b) && (Even(e, a) <==> Even(e, b))
    decreases e, 1
  {
    match e
    case Literal(_) =>
    case SignalRef(_) =>
    case Concat(operands) => AllDecided(operands, a, b);
    case Slice(operand, _, _) => WidthDecided(operand, a, b);
    case Reverse(operand) => WidthDecided(operand, a, b);
    case Unary(_, operand) => WidthDecided(operand, a, b);
    case Binary(_, left, right) =>
      WidthDecided(left, a, b);
      WidthDecided(right, a, b);
    case Ternary(cond, onTrue, onFalse) =>
      WidthDecided(cond, a, b);
      WidthDecided(onTrue, a, b);
      WidthDecided(onFalse, a, b);
  }

  lemma {:induction false} AllDecided(es: seq<Expr>, a: Env, b: Env)
    requires SameWidths(a, b)
    ensures WidthSum(es, a) == WidthSum(es, b) && (EvenAll(es, a) <==> EvenAll(es, b))
    decreases es, 0
  {
    if es != [] {
      WidthDecided(es[0], a, b);
      AllDecided(es[1..], a, b);
    }
  }

  lemma {:induction false} HintedWidth(r: Raw, hint: Width)
    ensures |Hinted(r, hint).bits| == hint
  {}

  /** A reference of known width reads as that many bits. */
  lemma {:induction false} RefValueWidth(created: Created, rank: map<string, nat>, wave: Wave, ref: string, t: int,
                                         bound: nat)
    requires Ranked(created, rank) && (ref in created ==> ref in rank && rank[ref] < bound)
    requires RefWidth(created, rank, wave, ref).Some?
    ensures |RefValue(created, rank, wave, ref, t, bound).bits| == RefWidth(created, rank, wave, ref).value
  {
    var hint := RefWidth(created, rank, wave, ref).value;
    if ref in created {
      HintedWidth(ToRaw(Denote(created, rank, wave, ref, t)), hint);
    } else if ref in wave && UpTo(wave[ref].history, t) > 0 {
      HintedWidth(wave[ref].history[UpTo(wave[ref].history, t) - 1].v, hint);
    }
  }

  /** The width inferred over zeros is the width of the value at every time. */
  lemma {:induction false} InferredIsActual(created: Created, rank: map<string, nat>, wave: Wave, name: string, t: int)
    requires Ranked(created, rank) && name in created && Inferable(created, rank, wave, name)
    ensures InferWidth(created, rank, wave, name) == Some(|Denote(created, rank, wave, name, t).bits|)
  {
    var refs := Dependencies(created[name]);
    var widths := Widths(created, rank, wave, refs, rank[name]);
    var zeros, env := Zeros(widths), RefEnv(created, rank, wave, refs, t, rank[name]);
    WidthsAre(created, rank, wave, refs, rank[name]);
    forall p | p in refs
      ensures |env[p].bits| == widths[p] && !env[p].signed
    {
      RefValueWidth(created, rank, wave, p, t, rank[name]);
      RefUnsigned(created, rank, wave, p, t, rank[name]);
    }
    WidthDecided(created[name].ast, zeros, env);
    EvaluateWidth(created[name].ast, zeros);
    EvaluateWidth(created[name].ast, env);
  }

  /**
   The signals of a closed set are read at their actual widths exactly if each was stored with
   the width its definition now infers, or with none. So creating a signal with its inferred
   width keeps this, and redefining one keeps it exactly if no signal that rests on it would
   now be inferred wider or narrower than it was stored.
   */
  lemma {:induction false} ConsistentIsInferred(created: Created, rank: map<string, nat>, wave: Wave,
                                                keep: set<string>, t: int)
    requires Ranked(created, rank) && Closed(created, keep)
    requires forall n :: n in keep ==> Inferable(created, rank, wave, n)
    ensures Consistent(created, rank, wave, keep, t) <==>
            forall n :: n in keep ==>
              created[n].width.None? || created[n].width == InferWidth(created, rank, wave, n)
  {
    forall n | n in keep
      ensures Unsigned(created[n].ast)
      ensures InferWidth(created, rank, wave, n) == Some(|Denote(created, rank, wave, n, t).bits|)
    {
      InferredIsActual(created, rank, wave, n, t);
    }
  }

  /**
   A stale width: `w` was two bits when its alias `a` was created and is redefined as one bit.
   An alias `b` of `a` still reads two bits, while the inlined definition has one.
   */
  lemma {:induction false} StaleWidthShows(created: Created, rank: map<string, nat>, wave: Wave, b: string, a: string,
                                           w: string, t: int)
    requires Ranked(created, rank) && b in created && a in created && w in created
    requires created[b].ast == SignalRef(a) && created[a].ast == SignalRef(w)
    requires created[w].ast == Literal(OneBit(B1)) && created[a].width == Some(2)
    ensures |Denote(created, rank, wave, b, t).bits| == 2
    ensures |Evaluate(Inline(created, rank, created[b].ast, rank[b]), LeafEnv(wave, t)).bits| == 1
  {
    AliasMeans(created, rank, wave, b, a, t);
    RefValueWidth(created, rank, wave, a, t, rank[b]);
    assert a in Refs(created[b].ast) && w in Refs(created[a].ast);
    assert Inline(created, rank, SignalRef(w), rank[a]) == Inline(created, rank, created[w].ast, rank[w]);
  }
}
