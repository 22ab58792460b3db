/**
 Virtual signals defined over real and other virtual signals: what the service computes for a
 window, and the pointwise meaning it refines.
 */
module VirtualSignals {
  import opened Wrappers
  import opened LogicValues
  import opened Expressions
  import opened VirtualTransitions

  /** A created signal; `width` is the bit width stored with it, if it was resolved. */
  datatype Entry = Entry(ast: Expr, expression: string, width: Option<Width>, busOp: bool)

  type Created = map<string, Entry>

  /** A real signal of the waveform backend. */
  datatype Signal = Signal(width: Width, history: History)

  type Wave = map<string, Signal>

  ghost predicate WaveSorted(wave: Wave) {
    forall p :: p in wave ==> Sorted(wave[p].history)
  }

  function Dependencies(e: Entry): (deps: seq<string>)
    ensures Distinct(deps) && forall p :: p in deps <==> p in Refs(e.ast)
  {
    CollectRefs(e.ast, [])
  }

  /** Every created dependency of a created signal has a smaller rank: the graph is acyclic. */
  ghost predicate Ranked(created: Created, rank: map<string, nat>) {
    forall n :: n in created ==>
      n in rank && forall d :: d in Refs(created[n].ast) && d in created ==> d in rank && rank[d] < rank[n]
  }

  /** All references to created signals have ranks below the bound. */
  ghost predicate AllBelow(created: Created, rank: map<string, nat>, refs: seq<string>, bound: nat) {
    forall i :: 0 <= i < |refs| && refs[i] in created ==> refs[i] in rank && rank[refs[i]] < bound
  }

  /**
   The width used to read a reference: for a created signal the stored one or else the one
   inferred from its expression, for a real signal the declared one.
   */
  function RefWidth(created: Created, ghost rank: map<string, nat>, wave: Wave, ref: string): Option<Width>
    requires Ranked(created, rank)
    decreases if ref in created then 2 * rank[ref] + 2 else 0, 1
  {
    if ref in created then
      if created[ref].width.Some? then created[ref].width else InferWidth(created, rank, wave, ref)
    else if ref in wave then Some(wave[ref].width)
    else None
  }

  /** The width of the value over zeros, if the width of every reference is known. */
  function InferWidth(created: Created, ghost rank: map<string, nat>, wave: Wave, name: string): Option<Width>
    requires Ranked(created, rank) && name in created
    decreases 2 * rank[name] + 2, 0
  {
    var refs := Dependencies(created[name]);
    var widths := Widths(created, rank, wave, refs, rank[name]);
    if forall p :: p in refs ==> p in widths then Some(|Evaluate(created[name].ast, Zeros(widths)).bits|) else None
  }

  function Zeros(widths: map<string, Width>): Env {
    map p | p in widths :: LogicValue(Repeat(B0, widths[p]), false)
  }

  /** The known widths of the references. */
  function Widths(created: Created, ghost rank: map<string, nat>, wave: Wave, refs: seq<string>, ghost bound: nat)
    : map<string, Width>
    requires Ranked(created, rank) && AllBelow(created, rank, refs, bound)
    decreases 2 * bound + 1, |refs|
  {
    if refs == [] then map[]
    else
      var n := |refs| - 1;
      var w := Widths(created, rank, wave, refs[..n], bound);
      var width := RefWidth(created, rank, wave, refs[n]);
      if width.Some? then w[refs[n] := width.value] else w
  }

  lemma {:induction false} WidthsAre(created: Created, rank: map<string, nat>, wave: Wave, refs: seq<string>,
                                     bound: nat)
    requires Ranked(created, rank) && AllBelow(created, rank, refs, bound)
    ensures var w := Widths(created, rank, wave, refs, bound);
            && (forall p :: p in w <==> p in refs && RefWidth(created, rank, wave, p).Some?)
            && (forall p :: p in w ==> w[p] == RefWidth(created, rank, wave, p).value)
  {
    if refs != [] {
      var n := |refs| - 1;
      WidthsAre(created, rank, wave, refs[..n], bound);
      assert refs == refs[..n] + [refs[n]];
    }
  }

  // ---------------------------------------------------------------------------
  // Real signals
  // ---------------------------------------------------------------------------

  /** The backend's raw value at a time; x before the first event. */
  function RawAt(h: History, t: int): Raw {
    if UpTo(h, t) == 0 then Scalar(BX) else h[UpTo(h, t) - 1].v
  }

  lemma {:induction false} UpToMonotone(h: History, a: int, b: int)
    requires a <= b
    ensures UpTo(h, a) <= UpTo(h, b)
  {
    if h != [] {
      UpToMonotone(h[1..], a, b);
    }
  }

  /** The events of [start, end]: from the first one not before `start` on. */
  function Window(h: History, start: int, end: int): History
    requires start <= end
  {
    UpToMonotone(h, start - 1, end);
    h[UpTo(h, start - 1)..UpTo(h, end)]
  }

  /** The value just before the window as a pseudo-event, then the events of the window. */
  function FetchReal(wave: Wave, path: string, start: int, end: int): History {
    if path !in wave then []
    else
      var seed := if start - 1 > 0 then start - 1 else 0;
      [Event(seed, RawAt(wave[path].history, seed))] +
      (if start <= end then Window(wave[path].history, start, end) else [])
  }

  lemma {:induction false} FetchSorted(wave: Wave, path: string, start: int, end: int)
    requires WaveSorted(wave) && start >= 0
    ensures Sorted(FetchReal(wave, path, start, end))
  {
    if path in wave && start <= end {
      WindowAfter(wave[path].history, start, end);
    }
  }

  lemma {:induction false} WindowAfter(h: History, start: int, end: int)
    requires Sorted(h) && start <= end
    ensures Sorted(Window(h, start, end))
    ensures forall i :: 0 <= i < |Window(h, start, end)| ==> start <= Window(h, start, end)[i].t
  {
    UpToMonotone(h, start - 1, end);
    UpToSplits(h, start - 1);
    var p, w := UpTo(h, start - 1), Window(h, start, end);
    forall i | 0 <= i < |w|
      ensures w[i] == h[p + i] && start <= w[i].t
    {}
  }

  lemma {:induction false} UpToSlice(h: History, p: nat, q: nat, t: int)
    requires p <= UpTo(h, t) <= q <= |h|
    ensures UpTo(h[p..q], t) == UpTo(h, t) - p
  {
    if p > 0 {
      UpToSlice(h[1..], p - 1, q - 1, t);
      assert h[p..q] == h[1..][p - 1..q - 1];
    } else if q > 0 && h[0].t <= t {
      UpToSlice(h[1..], 0, q - 1, t);
      assert h[0..q][1..] == h[1..][0..q - 1];
    }
  }

  /** Inside the window the fetched history reads like the full one. */
  lemma {:induction false} FetchedValue(wave: Wave, path: string, hint: Width, start: int, end: int, t: int)
    requires 0 <= start <= t <= end
    ensures ValueAt(FetchReal(wave, path, start, end), hint, t) ==
            if path in wave then ValueAt(wave[path].history, hint, t) else Unknown(hint)
  {
    if path in wave {
      var h := wave[path].history;
      var seed := if start - 1 > 0 then start - 1 else 0;
      UpToMonotone(h, start - 1, seed);
      UpToMonotone(h, seed, t);
      UpToMonotone(h, t, end);
      SeedReads(h, UpTo(h, start - 1), UpTo(h, end), seed, hint, t);
    }
  }

  /** The value at the seed, then the events from position p up to q. */
  lemma {:induction false} SeedReads(h: History, p: nat, q: nat, seed: int, hint: Width, t: int)
    requires seed <= t && p <= UpTo(h, seed) <= UpTo(h, t) <= q <= |h|
    ensures ValueAt([Event(seed, RawAt(h, seed))] + h[p..q], hint, t) == ValueAt(h, hint, t)
  {
    UpToSlice(h, p, q, t);
    SeedThenWindow(Event(seed, RawAt(h, seed)), h[p..q], t);
    HintedUnknown(hint);
  }

  lemma {:induction false} SeedThenWindow(seed: Event, window: History, t: int)
    requires seed.t <= t
    ensures UpTo([seed] + window, t) == 1 + UpTo(window, t)
  {
    assert ([seed] + window)[1..] == window;
  }

  /** Reading a lone x at any width gives that many unknown bits. */
  lemma {:induction false} HintedUnknown(hint: Width)
    ensures Hinted(Scalar(BX), hint) == Unknown(hint)
  {
    assert Repeat(BX, 1) == [BX];
  }

  // ---------------------------------------------------------------------------
  // What the service computes for a window
  // ---------------------------------------------------------------------------

  /** The transitions of created signal `name`, computed from scratch. */
  ghost function Fresh(created: Created, rank: map<string, nat>, wave: Wave, name: string, start: int,
                       end: int): History
    requires Ranked(created, rank) && name in created
    decreases rank[name], 1, 0
  {
    var refs := Dependencies(created[name]);
    Changes(Sample(created[name].ast, Operands(created, rank, wave, refs, start, end, rank[name]),
                   Widths(created, rank, wave, refs, rank[name])),
            start, end)
  }

  /** The operand histories: recomputed for created signals, fetched for real ones. */
  ghost function Operands(created: Created, rank: map<string, nat>, wave: Wave, refs: seq<string>, start: int,
                          end: int, bound: nat)
    : (ops: seq<Operand>)
    requires Ranked(created, rank) && AllBelow(created, rank, refs, bound)
    ensures |ops| == |refs|
    decreases bound, 0, |refs|
  {
    if refs == [] then []
    else
      var n := |refs| - 1;
      Operands(created, rank, wave, refs[..n], start, end, bound) +
      [Operand(refs[n], if refs[n] in created then Fresh(created, rank, wave, refs[n], start, end)
                        else FetchReal(wave, refs[n], start, end))]
  }

  // ---------------------------------------------------------------------------
  // Pointwise meaning
  // ---------------------------------------------------------------------------

  /** The value of a created signal at one time, through its definition. */
  ghost function Denote(created: Created, rank: map<string, nat>, wave: Wave, name: string, t: int): LogicValue
    requires Ranked(created, rank) && name in created
    decreases rank[name], 1, 0
  {
    Evaluate(created[name].ast, RefEnv(created, rank, wave, Dependencies(created[name]), t, rank[name]))
  }

  /** The value of a reference at one time, read at its width. */
  ghost function RefValue(created: Created, rank: map<string, nat>, wave: Wave, ref: string, t: int,
                          bound: nat): LogicValue
    requires Ranked(created, rank) && (ref in created ==> ref in rank && rank[ref] < bound)
    decreases bound, 0, 0
  {
    var width := RefWidth(created, rank, wave, ref);
    var hint := if width.Some? then width.value else 1;
    if ref in created then Hinted(ToRaw(Denote(created, rank, wave, ref, t)), hint)
    else if ref in wave then ValueAt(wave[ref].history, hint, t)
    else Unknown(hint)
  }

  ghost function RefEnv(created: Created, rank: map<string, nat>, wave: Wave, refs: seq<string>, t: int,
                        bound: nat): (env: Env)
    requires Ranked(created, rank) && AllBelow(created, rank, refs, bound)
    ensures forall p :: p in env <==> p in refs
    ensures forall p :: p in env ==> env[p] == RefValue(created, rank, wave, p, t, bound)
    decreases bound, 0, |refs| + 1
  {
    if refs == [] then map[]
    else
      var n := |refs| - 1;
      assert refs == refs[..n] + [refs[n]];
      RefEnv(created, rank, wave, refs[..n], t, bound)[refs[n] := RefValue(created, rank, wave, refs[n], t, bound)]
  }

  /** The printed pointwise meaning. */
  ghost function Meaning(created: Created, rank: map<string, nat>, wave: Wave, name: string): int -> Raw
    requires Ranked(created, rank) && name in created
  {
    (t: int) => ToRaw(Denote(created, rank, wave, name, t))
  }

  /**
   Through nested virtual signals the window computation is dense sampling of the pointwise
   meaning.
   */
  lemma {:induction false} FreshIsMeaning(created: Created, rank: map<string, nat>, wave: Wave, name: string,
                                          start: int, end: int)
    requires Ranked(created, rank) && WaveSorted(wave) && name in created && 0 <= start <= end
    ensures Fresh(created, rank, wave, name, start, end) == Changes(Meaning(created, rank, wave, name), start, end)
    decreases rank[name], 1, 0
  {
    var refs := Dependencies(created[name]);
    var ops := Operands(created, rank, wave, refs, start, end, rank[name]);
    var widths := Widths(created, rank, wave, refs, rank[name]);
    AllWidthsOf(created, rank, wave, refs, rank[name]);
    forall t | start <= t <= end
      ensures Sample(created[name].ast, ops, widths)(t) == Meaning(created, rank, wave, name)(t)
    {
      OperandsMean(created, rank, wave, refs, widths, start, end, t, rank[name]);
    }
    ChangesAgree(Sample(created[name].ast, ops, widths), Meaning(created, rank, wave, name), start, end);
  }

  lemma {:induction false} OperandsMean(created: Created, rank: map<string, nat>, wave: Wave, refs: seq<string>,
                                        widths: map<string, Width>, start: int, end: int, t: int, bound: nat)
    requires Ranked(created, rank) && WaveSorted(wave) && 0 <= start <= t <= end
    requires AllBelow(created, rank, refs, bound)
    requires AllWidths(created, rank, wave, refs, widths)
    ensures EnvAt(Operands(created, rank, wave, refs, start, end, bound), widths, t) ==
            RefEnv(created, rank, wave, refs, t, bound)
    decreases bound, 0, |refs|
  {
    if refs != [] {
      var n := |refs| - 1;
      var ref := refs[n];
      OperandsMean(created, rank, wave, refs[..n], widths, start, end, t, bound);
      OperandMeans(created, rank, wave, ref, widths, start, end, t, bound);
      OperandsLast(created, rank, wave, refs, start, end, bound);
      RefEnvLast(created, rank, wave, refs, t, bound);
      EnvAppend(Operands(created, rank, wave, refs[..n], start, end, bound),
                Operand(ref, RefHistory(created, rank, wave, ref, start, end)), widths, t);
    }
  }

  /** The widths are the known ones of the references. */
  ghost predicate AllWidths(created: Created, rank: map<string, nat>, wave: Wave, refs: seq<string>,
                            widths: map<string, Width>)
    requires Ranked(created, rank)
  {
    forall i :: 0 <= i < |refs| ==> WidthKnownAs(created, rank, wave, refs[i], widths)
  }

  ghost predicate WidthKnownAs(created: Created, rank: map<string, nat>, wave: Wave, ref: string,
                               widths: map<string, Width>)
    requires Ranked(created, rank)
  {
    RefWidth(created, rank, wave, ref) == if ref in widths then Some(widths[ref]) else None
  }

  lemma {:induction false} AllWidthsOf(created: Created, rank: map<string, nat>, wave: Wave, refs: seq<string>,
                                       bound: nat)
    requires Ranked(created, rank) && AllBelow(created, rank, refs, bound)
    ensures AllWidths(created, rank, wave, refs, Widths(created, rank, wave, refs, bound))
  {
    var widths := Widths(created, rank, wave, refs, bound);
    WidthsAre(created, rank, wave, refs, bound);
    forall i | 0 <= i < |refs|
      ensures WidthKnownAs(created, rank, wave, refs[i], widths)
    {
      assert refs[i] in refs;
    }
  }

  /** The history of a reference: recomputed if it is created, fetched if it is real. */
  ghost function RefHistory(created: Created, rank: map<string, nat>, wave: Wave, r: string, start: int,
                            end: int): History
    requires Ranked(created, rank)
  {
    if r in created then Fresh(created, rank, wave, r, start, end) else FetchReal(wave, r, start, end)
  }

  ghost predicate PathsMatch(ops: seq<Operand>, refs: seq<string>) {
    |ops| == |refs| && forall i :: 0 <= i < |refs| ==> ops[i].path == refs[i]
  }

  lemma {:induction false} PathsAppend(ops: seq<Operand>, last: Operand, refs: seq<string>)
    requires refs != [] && PathsMatch(ops, refs[..|refs| - 1]) && last.path == refs[|refs| - 1]
    ensures PathsMatch(ops + [last], refs)
  {}

  lemma {:induction false} OperandPaths(created: Created, rank: map<string, nat>, wave: Wave, refs: seq<string>,
                                        start: int, end: int, bound: nat)
    requires Ranked(created, rank) && AllBelow(created, rank, refs, bound)
    ensures PathsMatch(Operands(created, rank, wave, refs, start, end, bound), refs)
    decreases |refs|
  {
    if refs != [] {
      var n := |refs| - 1;
      OperandPaths(created, rank, wave, refs[..n], start, end, bound);
      OperandsLast(created, rank, wave, refs, start, end, bound);
      PathsAppend(Operands(created, rank, wave, refs[..n], start, end, bound),
                  Operand(refs[n], RefHistory(created, rank, wave, refs[n], start, end)), refs);
    }
  }

  lemma {:induction false} OperandsLast(created: Created, rank: map<string, nat>, wave: Wave, refs: seq<string>,
                                        start: int, end: int, bound: nat)
    requires Ranked(created, rank) && AllBelow(created, rank, refs, bound) && refs != []
    ensures var n := |refs| - 1;
            && AllBelow(created, rank, refs[..n], bound)
            && Operands(created, rank, wave, refs, start, end, bound) ==
               Operands(created, rank, wave, refs[..n], start, end, bound) +
               [Operand(refs[n], RefHistory(created, rank, wave, refs[n], start, end))]
  {}

  lemma {:induction false} RefEnvLast(created: Created, rank: map<string, nat>, wave: Wave, refs: seq<string>, t: int,
                                      bound: nat)
    requires Ranked(created, rank) && AllBelow(created, rank, refs, bound) && refs != []
    ensures var n := |refs| - 1;
            && AllBelow(created, rank, refs[..n], bound)
            && (refs[n] in created ==> refs[n] in rank && rank[refs[n]] < bound)
            && RefEnv(created, rank, wave, refs, t, bound) ==
               RefEnv(created, rank, wave, refs[..n], t, bound)
               [refs[n] := RefValue(created, rank, wave, refs[n], t, bound)]
  {}

  lemma {:induction false} EnvAppend(ops: seq<Operand>, last: Operand, widths: map<string, Width>, t: int)
    ensures EnvAt(ops + [last], widths, t) ==
            EnvAt(ops, widths, t)[last.path := ValueAt(last.history, HintOf(widths, last.path), t)]
  {
    assert (ops + [last])[..|ops|] == ops;
  }

  lemma {:induction false} OperandMeans(created: Created, rank: map<string, nat>, wave: Wave, ref: string,
                                        widths: map<string, Width>, start: int, end: int, t: int, bound: nat)
    requires Ranked(created, rank) && WaveSorted(wave) && 0 <= start <= t <= end
    requires ref in created ==> ref in rank && rank[ref] < bound
    requires WidthKnownAs(created, rank, wave, ref, widths)
    ensures ValueAt(RefHistory(created, rank, wave, ref, start, end), HintOf(widths, ref), t) ==
            RefValue(created, rank, wave, ref, t, bound)
    decreases bound, 0, 0
  {
    if ref in created {
      CreatedMeans(created, rank, wave, ref, HintOf(widths, ref), start, end, t);
    } else {
      FetchedValue(wave, ref, HintOf(widths, ref), start, end, t);
    }
  }

  lemma {:induction false} CreatedMeans(created: Created, rank: map<string, nat>, wave: Wave, name: string, hint: Width,
                                        start: int, end: int, t: int)
    requires Ranked(created, rank) && WaveSorted(wave) && name in created && 0 <= start <= t <= end
    ensures ValueAt(Fresh(created, rank, wave, name, start, end), hint, t) ==
            Hinted(ToRaw(Denote(created, rank, wave, name, t)), hint)
    decreases rank[name], 2, 0
  {
    FreshIsMeaning(created, rank, wave, name, start, end);
    ChangesValue(Meaning(created, rank, wave, name), start, end, t);
  }

  /** The histories handed to the engine are sorted. */
  lemma {:induction false} OperandsSorted(created: Created, rank: map<string, nat>, wave: Wave, refs: seq<string>,
                                          start: int, end: int, bound: nat)
    requires Ranked(created, rank) && WaveSorted(wave) && start >= 0
    requires AllBelow(created, rank, refs, bound)
    ensures AllSorted(Operands(created, rank, wave, refs, start, end, bound))
    decreases |refs|
  {
    if refs != [] {
      var n := |refs| - 1;
      OperandsSorted(created, rank, wave, refs[..n], start, end, bound);
      if refs[n] in created {
        FreshSorted(created, rank, wave, refs[n], start, end);
      } else {
        FetchSorted(wave, refs[n], start, end);
      }
    }
  }

  lemma {:induction false} FreshSorted(created: Created, rank: map<string, nat>, wave: Wave, name: string, start: int,
                                       end: int)
    requires Ranked(created, rank) && name in created
    ensures Sorted(Fresh(created, rank, wave, name, start, end))
  {
    var refs := Dependencies(created[name]);
    var f := Sample(created[name].ast, Operands(created, rank, wave, refs, start, end, rank[name]),
                    Widths(created, rank, wave, refs, rank[name]));
    if start <= end {
      ChangesShape(f, start, end);
    }
  }

  // ---------------------------------------------------------------------------
  // One time point
  // ---------------------------------------------------------------------------

  /** The environment of a single-time evaluation: the last fetched value of each operand. */
  function LastEnv(ops: seq<Operand>, widths: map<string, Width>): Env {
    if ops == [] then map[]
    else
      var n := |ops| - 1;
      var last := ops[n];
      LastEnv(ops[..n], widths)[last.path := LastValue(last, widths)]
  }

  /** The last fetched value, at its own width if that of the operand is unknown. */
  function LastValue(op: Operand, widths: map<string, Width>): LogicValue {
    if op.history == [] then Unknown(HintOf(widths, op.path))
    else
      var raw := op.history[|op.history| - 1].v;
      if op.path in widths then Hinted(raw, widths[op.path]) else FromRaw(raw)
  }

  /** Evaluation of a created signal at one time, as the service does it. */
  ghost function EvalAtTime(created: Created, rank: map<string, nat>, wave: Wave, name: string, t: int): LogicValue
    requires Ranked(created, rank) && name in created
  {
    var refs := Dependencies(created[name]);
    Evaluate(created[name].ast,
             LastEnv(Operands(created, rank, wave, refs, t, t, rank[name]),
                     Widths(created, rank, wave, refs, rank[name])))
  }

  /** Every created reference whose width cannot be resolved has one bit. */
  ghost predicate UnresolvedAreBits(created: Created, rank: map<string, nat>, wave: Wave, name: string, t: int)
    requires Ranked(created, rank) && name in created
  {
    forall p :: p in Refs(created[name].ast) && p in created && RefWidth(created, rank, wave, p).None? ==>
      |Denote(created, rank, wave, p, t).bits| == 1
  }

  /**
   The single-time evaluation reads its operands as the window engine does exactly if every
   operand of unresolved width has one bit.
   */
  lemma {:induction false} OperandsReadAlike(created: Created, rank: map<string, nat>, wave: Wave, name: string, t: int)
    requires Ranked(created, rank) && WaveSorted(wave) && name in created && t >= 0
    ensures var refs := Dependencies(created[name]);
            var ops := Operands(created, rank, wave, refs, t, t, rank[name]);
            var widths := Widths(created, rank, wave, refs, rank[name]);
            && EnvAt(ops, widths, t) == RefEnv(created, rank, wave, refs, t, rank[name])
            && (LastEnv(ops, widths) == EnvAt(ops, widths, t) <==> UnresolvedAreBits(created, rank, wave, name, t))
  {
    var refs := Dependencies(created[name]);
    var ops := Operands(created, rank, wave, refs, t, t, rank[name]);
    var widths := Widths(created, rank, wave, refs, rank[name]);
    AllWidthsOf(created, rank, wave, refs, rank[name]);
    OperandsMean(created, rank, wave, refs, widths, t, t, t, rank[name]);
    OperandsUntil(created, rank, wave, refs, t, rank[name]);
    OperandPaths(created, rank, wave, refs, t, t, rank[name]);
    LastIsAt(ops, widths, t);
    forall i | 0 <= i < |refs|
      ensures ReadsAsBit(ops[i], widths) <==> UnresolvedIsBit(created, rank, wave, refs[i], t)
    {
      assert WidthKnownAs(created, rank, wave, refs[i], widths);
      OperandAt(created, rank, wave, refs, t, t, rank[name], i);
      ReadsAsBitMeans(created, rank, wave, refs[i], widths, t);
    }
    UnresolvedByIndex(created, rank, wave, name, t);
  }

  ghost predicate UnresolvedIsBit(created: Created, rank: map<string, nat>, wave: Wave, p: string, t: int)
    requires Ranked(created, rank)
  {
    p in created && RefWidth(created, rank, wave, p).None? ==> |Denote(created, rank, wave, p, t).bits| == 1
  }

  lemma {:induction false} UnresolvedByIndex(created: Created, rank: map<string, nat>, wave: Wave, name: string, t: int)
    requires Ranked(created, rank) && name in created
    ensures var refs := Dependencies(created[name]);
            UnresolvedAreBits(created, rank, wave, name, t) <==>
            forall i :: 0 <= i < |refs| ==> UnresolvedIsBit(created, rank, wave, refs[i], t)
  {
    var refs := Dependencies(created[name]);
    if forall i :: 0 <= i < |refs| ==> UnresolvedIsBit(created, rank, wave, refs[i], t) {
      forall p | p in Refs(created[name].ast)
        ensures UnresolvedIsBit(created, rank, wave, p, t)
      {
        assert p in refs;
      }
    }
  }

  lemma {:induction false} OperandAt(created: Created, rank: map<string, nat>, wave: Wave, refs: seq<string>,
                                     start: int, end: int, bound: nat, i: nat)
    requires Ranked(created, rank) && AllBelow(created, rank, refs, bound) && i < |refs|
    ensures Operands(created, rank, wave, refs, start, end, bound)[i] ==
            Operand(refs[i], RefHistory(created, rank, wave, refs[i], start, end))
    decreases |refs|
  {
    OperandsSplit(created, rank, wave, refs, start, end, bound, i);
    if i < |refs| - 1 {
      OperandAt(created, rank, wave, refs[..|refs| - 1], start, end, bound, i);
    }
  }

  /** The i-th operand is the last one, or one of those before it. */
  lemma {:induction false} OperandsSplit(created: Created, rank: map<string, nat>, wave: Wave, refs: seq<string>,
                                         start: int, end: int, bound: nat, i: nat)
    requires Ranked(created, rank) && AllBelow(created, rank, refs, bound) && i < |refs|
    ensures var n := |refs| - 1;
            && AllBelow(created, rank, refs[..n], bound)
            && Operands(created, rank, wave, refs, start, end, bound)[i] ==
               if i < n then Operands(created, rank, wave, refs[..n], start, end, bound)[i]
               else Operand(refs[n], RefHistory(created, rank, wave, refs[n], start, end))
  {
    OperandsLast(created, rank, wave, refs, start, end, bound);
  }

  lemma {:induction false} ReadsAsBitMeans(created: Created, rank: map<string, nat>, wave: Wave, ref: string,
                                           widths: map<string, Width>, t: int)
    requires Ranked(created, rank) && WaveSorted(wave) && t >= 0 && WidthKnownAs(created, rank, wave, ref, widths)
    ensures ReadsAsBit(Operand(ref, RefHistory(created, rank, wave, ref, t, t)), widths) <==>
            UnresolvedIsBit(created, rank, wave, ref, t)
  {
    if ref in created {
      FreshIsMeaning(created, rank, wave, ref, t, t);
    }
  }

  /** Where the operands read alike, evaluating at one time gives the pointwise meaning. */
  lemma {:induction false} EvalAtTimeAgrees(created: Created, rank: map<string, nat>, wave: Wave, name: string, t: int)
    requires Ranked(created, rank) && WaveSorted(wave) && name in created && t >= 0
    requires UnresolvedAreBits(created, rank, wave, name, t)
    ensures EvalAtTime(created, rank, wave, name, t) == Denote(created, rank, wave, name, t)
  {
    OperandsReadAlike(created, rank, wave, name, t);
  }

  /**
   Where they do not: `a` is `w`, and `w` is the two bits 10 or-ed with a signal that exists
   nowhere, so that no width can be resolved. At one time `a` has two bits, in a window one.
   */
  lemma {:induction false} UnresolvedReadsDiffer(created: Created, rank: map<string, nat>, wave: Wave, a: string,
                                                 w: string,
                                                 absent: string, t: int)
    requires a in created && w in created && absent !in created && absent !in wave
    requires created[a].ast == SignalRef(w) && created[w].width == None
    requires created[w].ast == Binary(Bitwise(GOr), Literal(LogicValue([B1, B0], false)), SignalRef(absent))
    requires Ranked(created, rank) && WaveSorted(wave) && t >= 0
    ensures RefWidth(created, rank, wave, w) == None
    ensures |EvalAtTime(created, rank, wave, a, t).bits| == 2 && |Denote(created, rank, wave, a, t).bits| == 1
  {
    UnresolvedOr(created, rank, wave, w, absent, t);
    AliasAtTime(created, rank, wave, a, w, t);
  }

  lemma {:induction false} UnresolvedOr(created: Created, rank: map<string, nat>, wave: Wave, w: string,
                                        absent: string, t: int)
    requires Ranked(created, rank) && w in created && absent !in created && absent !in wave
    requires created[w].ast == Binary(Bitwise(GOr), Literal(LogicValue([B1, B0], false)), SignalRef(absent))
    requires created[w].width == None
    ensures RefWidth(created, rank, wave, w) == None
    ensures |Denote(created, rank, wave, w, t).bits| == 2
  {
    var refs := Dependencies(created[w]);
    assert absent in refs;
    WidthsAre(created, rank, wave, refs, rank[w]);
    var env := RefEnv(created, rank, wave, refs, t, rank[w]);
    assert env[absent] == Unknown(1);
    OrEvaluates(LogicValue([B1, B0], false), absent, env);
  }

  lemma {:induction false} OrEvaluates(v: LogicValue, p: string, env: Env)
    requires |v.bits| == 2 && p in env && |env[p].bits| == 1
    ensures |Evaluate(Binary(Bitwise(GOr), Literal(v), SignalRef(p)), env).bits| == 2
  {
    assert Evaluate(Literal(v), env) == v && Evaluate(SignalRef(p), env) == env[p];
  }

  lemma {:induction false} AliasMeans(created: Created, rank: map<string, nat>, wave: Wave, name: string, ref: string,
                                      t: int)
    requires Ranked(created, rank) && name in created && created[name].ast == SignalRef(ref)
    ensures ref in Refs(created[name].ast)
    ensures Denote(created, rank, wave, name, t) == RefValue(created, rank, wave, ref, t, rank[name])
  {
    assert Dependencies(created[name]) == [ref];
    assert ref in Dependencies(created[name]);
  }

  /** A signal that is another one of unresolved width. */
  lemma {:induction false} AliasAtTime(created: Created, rank: map<string, nat>, wave: Wave, a: string, w: string,
                                       t: int)
    requires Ranked(created, rank) && WaveSorted(wave) && a in created && w in created && t >= 0
    requires created[a].ast == SignalRef(w) && RefWidth(created, rank, wave, w) == None
    ensures EvalAtTime(created, rank, wave, a, t) == FromRaw(ToRaw(Denote(created, rank, wave, w, t)))
    ensures Denote(created, rank, wave, a, t) == Hinted(ToRaw(Denote(created, rank, wave, w, t)), 1)
  {
    AliasMeans(created, rank, wave, a, w, t);
    AliasLast(created, rank, wave, a, w, t);
  }

  lemma {:induction false} AliasLast(created: Created, rank: map<string, nat>, wave: Wave, a: string, w: string, t: int)
    requires Ranked(created, rank) && WaveSorted(wave) && a in created && w in created && t >= 0
    requires created[a].ast == SignalRef(w) && RefWidth(created, rank, wave, w) == None
    ensures EvalAtTime(created, rank, wave, a, t) == FromRaw(ToRaw(Denote(created, rank, wave, w, t)))
  {
    assert Dependencies(created[a]) == [w];
    AliasOperand(created, rank, wave, w, t, rank[a]);
    LastOf(Operands(created, rank, wave, [w], t, t, rank[a]), Widths(created, rank, wave, [w], rank[a]));
  }

  /** The one operand of an alias of a signal of unresolved width. */
  lemma {:induction false} AliasOperand(created: Created, rank: map<string, nat>, wave: Wave, w: string, t: int,
                                        bound: nat)
    requires Ranked(created, rank) && WaveSorted(wave) && w in created && t >= 0 && rank[w] < bound
    requires RefWidth(created, rank, wave, w) == None
    ensures Operands(created, rank, wave, [w], t, t, bound)[0] ==
            Operand(w, [Event(t, ToRaw(Denote(created, rank, wave, w, t)))])
    ensures w !in Widths(created, rank, wave, [w], bound)
  {
    WidthsAre(created, rank, wave, [w], bound);
    FreshIsMeaning(created, rank, wave, w, t, t);
    OperandAt(created, rank, wave, [w], t, t, bound, 0);
  }

  lemma {:induction false} LastOf(ops: seq<Operand>, widths: map<string, Width>)
    requires |ops| == 1
    ensures LastEnv(ops, widths) == map[ops[0].path := LastValue(ops[0], widths)]
  {
    assert ops[..0] == [];
  }

  /** Everything fetched for one time lies at or before it. */
  lemma {:induction false} OperandsUntil(created: Created, rank: map<string, nat>, wave: Wave, refs: seq<string>,
                                         t: int, bound: nat)
    requires Ranked(created, rank) && t >= 0
    requires AllBelow(created, rank, refs, bound)
    ensures var ops := Operands(created, rank, wave, refs, t, t, bound);
            AllUntil(ops, t)
    decreases |refs|
  {
    if refs != [] {
      var n := |refs| - 1;
      OperandsUntil(created, rank, wave, refs[..n], t, bound);
      RefUntil(created, rank, wave, refs[n], t);
      OperandsLast(created, rank, wave, refs, t, t, bound);
    }
  }

  lemma {:induction false} RefUntil(created: Created, rank: map<string, nat>, wave: Wave, ref: string, t: int)
    requires Ranked(created, rank) && t >= 0
    ensures Until(RefHistory(created, rank, wave, ref, t, t), t)
  {
    if ref in created {
      PointUntil(Fresh(created, rank, wave, ref, t, t), t);
    } else if ref in wave {
      WindowUntil(wave[ref].history, t);
    }
  }

  ghost predicate Until(h: History, t: int) {
    UpTo(h, t) == |h|
  }

  lemma {:induction false} PointUntil(h: History, t: int)
    requires |h| == 1 && h[0].t == t
    ensures Until(h, t)
  {
    assert UpTo(h[1..], t) == 0;
  }

  lemma {:induction false} WindowUntil(h: History, t: int)
    requires t >= 0
    ensures var seed := if t - 1 > 0 then t - 1 else 0; Until([Event(seed, RawAt(h, seed))] + Window(h, t, t), t)
  {
    UpToMonotone(h, t - 1, t);
    UpToSlice(h, UpTo(h, t - 1), UpTo(h, t), t);
    var seed := if t - 1 > 0 then t - 1 else 0;
    assert ([Event(seed, RawAt(h, seed))] + Window(h, t, t))[1..] == Window(h, t, t);
  }

  /** The last fetched value of an operand of unknown width is one bit. */
  ghost predicate ReadsAsBit(op: Operand, widths: map<string, Width>) {
    op.path !in widths && op.history != [] ==> |FromRaw(op.history[|op.history| - 1].v).bits| == 1
  }

  ghost predicate AllReadAsBits(ops: seq<Operand>, widths: map<string, Width>) {
    forall i :: 0 <= i < |ops| ==> ReadsAsBit(ops[i], widths)
  }

  ghost predicate AllUntil(ops: seq<Operand>, t: int) {
    forall i :: 0 <= i < |ops| ==> Until(ops[i].history, t)
  }

  ghost predicate DistinctPaths(ops: seq<Operand>) {
    forall i, j :: 0 <= i < j < |ops| ==> ops[i].path != ops[j].path
  }

  /** Two environments that differ in how operands of unknown width are read. */
  lemma {:induction false} LastIsAt(ops: seq<Operand>, widths: map<string, Width>, t: int)
    requires AllUntil(ops, t) && DistinctPaths(ops)
    ensures LastEnv(ops, widths) == EnvAt(ops, widths, t) <==> AllReadAsBits(ops, widths)
  {
    if ops != [] {
      var n := |ops| - 1;
      FrontOperands(ops, widths, t);
      FrontBits(ops, widths);
      LastIsAt(ops[..n], widths, t);
      OperandReadAlike(ops[n], widths, t);
      SameExtended(LastEnv(ops[..n], widths), LastValue(ops[n], widths), EnvAt(ops[..n], widths, t),
                   ValueAt(ops[n].history, HintOf(widths, ops[n].path), t), ops[n].path);
    }
  }

  lemma {:induction false} FrontOperands(ops: seq<Operand>, widths: map<string, Width>, t: int)
    requires ops != [] && AllUntil(ops, t) && DistinctPaths(ops)
    ensures var n := |ops| - 1;
            && AllUntil(ops[..n], t) && DistinctPaths(ops[..n]) && Until(ops[n].history, t)
            && ops[n].path !in EnvAt(ops[..n], widths, t) && ops[n].path !in LastEnv(ops[..n], widths)
  {
    var n := |ops| - 1;
    EnvPaths(ops[..n], widths, t);
    assert forall i :: 0 <= i < n ==> ops[..n][i] == ops[i];
  }

  lemma {:induction false} FrontBits(ops: seq<Operand>, widths: map<string, Width>)
    requires ops != []
    ensures var n := |ops| - 1;
            AllReadAsBits(ops, widths) <==> AllReadAsBits(ops[..n], widths) && ReadsAsBit(ops[n], widths)
  {
    var n := |ops| - 1;
    assert forall i :: 0 <= i < n ==> ops[..n][i] == ops[i];
  }

  lemma {:induction false} OperandReadAlike(op: Operand, widths: map<string, Width>, t: int)
    requires Until(op.history, t)
    ensures LastValue(op, widths) == ValueAt(op.history, HintOf(widths, op.path), t) <==> ReadsAsBit(op, widths)
  {}

  lemma {:induction false} SameExtended(a: Env, v: LogicValue, b: Env, w: LogicValue, p: string)
    requires p !in a && p !in b
    ensures a[p := v] == b[p := w] <==> a == b && v == w
  {
    if a[p := v] == b[p := w] {
      assert a[p := v][p] == v && b[p := w][p] == w;
      assert a == a[p := v] - {p} && b == b[p := w] - {p};
    }
  }

  lemma {:induction false} EnvPaths(ops: seq<Operand>, widths: map<string, Width>, t: int)
    ensures forall p :: p in EnvAt(ops, widths, t) <==> exists i :: 0 <= i < |ops| && ops[i].path == p
    ensures LastEnv(ops, widths).Keys == EnvAt(ops, widths, t).Keys
  {
    if ops != [] {
      var n := |ops| - 1;
      EnvPaths(ops[..n], widths, t);
      assert forall i :: 0 <= i < n ==> ops[..n][i] == ops[i];
    }
  }

  // ---------------------------------------------------------------------------
  // Inlining
  // ---------------------------------------------------------------------------

  ghost predicate Below(created: Created, rank: map<string, nat>, refs: set<string>, bound: nat) {
    forall r :: r in refs && r in created ==> r in rank && rank[r] < bound
  }

  /** Every reference to a created signal replaced by its definition, all the way down. */
  ghost function Inline(created: Created, rank: map<string, nat>, e: Expr, bound: nat): Expr
    requires Ranked(created, rank) && Below(created, rank, Refs(e), bound)
    decreases bound, e, 1
  {
    match e
    case Literal(_) => e
    case SignalRef(p) => if p in created then Inline(created, rank, created[p].ast, rank[p]) else e
    case Concat(operands) => Concat(InlineAll(created, rank, operands, bound))
    case Slice(operand, msb, lsb) => Slice(Inline(created, rank, operand, bound), msb, lsb)
    case Reverse(operand) => Reverse(Inline(created, rank, operand, bound))
    case Unary(op, operand) => Unary(op, Inline(created, rank, operand, bound))
    case Binary(op, left, right) => Binary(op, Inline(created, rank, left, bound), Inline(created, rank, right, bound))
    case Ternary(cond, onTrue, onFalse) =>
      Ternary(Inline(created, rank, cond, bound), Inline(created, rank, onTrue, bound),
              Inline(created, rank, onFalse, bound))
  }

  ghost function InlineAll(created: Created, rank: map<string, nat>, es: seq<Expr>, bound: nat): seq<Expr>
    requires Ranked(created, rank) && Below(created, rank, RefsAll(es), bound)
    decreases bound, es, 0
  {
    if es == [] then []
    else [Inline(created, rank, es[0], bound)] + InlineAll(created, rank, es[1..], bound)
  }

  /** The real signals at one time, each at its declared width. */
  function LeafEnv(wave: Wave, t: int): (env: Env) {
    map p | p in wave :: ValueAt(wave[p].history, wave[p].width, t)
  }

  /** A set of created signals closed under dependencies. */
  ghost predicate Closed(created: Created, keep: set<string>) {
    forall n :: n in keep ==> n in created && Within(created, Refs(created[n].ast), keep)
  }

  ghost predicate Within(created: Created, refs: set<string>, keep: set<string>) {
    forall r :: r in refs && r in created ==> r in keep
  }

  /** Every signal of the set is unsigned and is read at its actual width. */
  ghost predicate Consistent(created: Created, rank: map<string, nat>, wave: Wave, keep: set<string>, t: int)
    requires Ranked(created, rank)
  {
    && Closed(created, keep)
    && forall n :: n in keep ==>
         Unsigned(created[n].ast) && RefWidth(created, rank, wave, n) == Some(|Denote(created, rank, wave, n, t).bits|)
  }

  /** The reference values as an environment for all signals an expression may mention. */
  ghost predicate ReadsAs(created: Created, rank: map<string, nat>, wave: Wave, env: Env, refs: set<string>, t: int,
                          bound: nat)
    requires Ranked(created, rank) && Below(created, rank, refs, bound)
  {
    forall p :: p in refs ==> p in env && env[p] == RefValue(created, rank, wave, p, t, bound)
  }

  /**
   Where every signal it rests on is read at its actual width, the meaning of a signal is that
   of the inlined expression over the real signals.
   */
  lemma {:induction false} DenoteInlines(created: Created, rank: map<string, nat>, wave: Wave, keep: set<string>,
                                         name: string, t: int)
    requires Ranked(created, rank) && Consistent(created, rank, wave, keep, t) && name in keep
    ensures Denote(created, rank, wave, name, t) ==
            Evaluate(Inline(created, rank, created[name].ast, rank[name]), LeafEnv(wave, t))
    decreases rank[name]
  {
    var refs := Dependencies(created[name]);
    EvaluateInlines(created, rank, wave, keep, created[name].ast,
                    RefEnv(created, rank, wave, refs, t, rank[name]), t, rank[name]);
  }

  lemma {:induction false} EvaluateInlines(created: Created, rank: map<string, nat>, wave: Wave, keep: set<string>,
                                           e: Expr, env: Env, t: int, bound: nat)
    requires Ranked(created, rank) && Below(created, rank, Refs(e), bound)
    requires Consistent(created, rank, wave, keep, t) && Within(created, Refs(e), keep)
    requires ReadsAs(created, rank, wave, env, Refs(e), t, bound)
    ensures Evaluate(e, env) == Evaluate(Inline(created, rank, e, bound), LeafEnv(wave, t))
    decreases bound, e, 1
  {
    match e
    case Literal(_) =>
    case SignalRef(p) =>
      if p in created {
        CreatedReadsAsDenoted(created, rank, wave, keep, p, t, bound);
        DenoteInlines(created, rank, wave, keep, p, t);
      }
    case Concat(operands) => EvaluateAllInlines(created, rank, wave, keep, operands, env, t, bound);
    case Slice(operand, _, _) => EvaluateInlines(created, rank, wave, keep, operand, env, t, bound);
    case Reverse(operand) => EvaluateInlines(created, rank, wave, keep, operand, env, t, bound);
    case Unary(_, operand) => EvaluateInlines(created, rank, wave, keep, operand, env, t, bound);
    case Binary(_, left, right) =>
      EvaluateInlines(created, rank, wave, keep, left, env, t, bound);
      EvaluateInlines(created, rank, wave, keep, right, env, t, bound);
    case Ternary(cond, onTrue, onFalse) =>
      EvaluateInlines(created, rank, wave, keep, cond, env, t, bound);
      EvaluateInlines(created, rank, wave, keep, onTrue, env, t, bound);
      EvaluateInlines(created, rank, wave, keep, onFalse, env, t, bound);
  }

  lemma {:induction false} EvaluateAllInlines(created: Created, rank: map<string, nat>, wave: Wave, keep: set<string>,
                                              es: seq<Expr>, env: Env, t: int, bound: nat)
    requires Ranked(created, rank) && Below(created, rank, RefsAll(es), bound)
    requires Consistent(created, rank, wave, keep, t) && Within(created, RefsAll(es), keep)
    requires ReadsAs(created, rank, wave, env, RefsAll(es), t, bound)
    ensures EvaluateAll(es, env) == EvaluateAll(InlineAll(created, rank, es, bound), LeafEnv(wave, t))
    decreases bound, es, 0
  {
    if es != [] {
      EvaluateInlines(created, rank, wave, keep, es[0], env, t, bound);
      EvaluateAllInlines(created, rank, wave, keep, es[1..], env, t, bound);
      assert InlineAll(created, rank, es, bound)[1..] == InlineAll(created, rank, es[1..], bound);
    }
  }

  lemma {:induction false} CreatedReadsAsDenoted(created: Created, rank: map<string, nat>, wave: Wave,
                                                 keep: set<string>,
                                                 p: string, t: int, bound: nat)
    requires Ranked(created, rank) && Consistent(created, rank, wave, keep, t)
    requires p in keep && p in rank && rank[p] < bound
    ensures RefValue(created, rank, wave, p, t, bound) == Denote(created, rank, wave, p, t)
  {
    HintedRoundTrip(Denote(created, rank, wave, p, t));
    DenoteUnsigned(created, rank, wave, p, t);
  }

  lemma {:induction false} RefUnsigned(created: Created, rank: map<string, nat>, wave: Wave, ref: string, t: int,
                                       bound: nat)
    requires Ranked(created, rank) && (ref in created ==> ref in rank && rank[ref] < bound)
    ensures !RefValue(created, rank, wave, ref, t, bound).signed
  {
    var width := RefWidth(created, rank, wave, ref);
    var hint := if width.Some? then width.value else 1;
    if ref in created {
      HintedUnsigned(ToRaw(Denote(created, rank, wave, ref, t)), hint);
    } else if ref in wave {
      ValueUnsigned(wave[ref].history, hint, t);
    }
  }

  lemma {:induction false} HintedUnsigned(r: Raw, hint: Width)
    ensures !Hinted(r, hint).signed
  {}

  lemma {:induction false} ValueUnsigned(h: History, hint: Width, t: int)
    ensures !ValueAt(h, hint, t).signed
  {
    if UpTo(h, t) > 0 {
      HintedUnsigned(h[UpTo(h, t) - 1].v, hint);
    }
  }

  lemma {:induction false} DenoteUnsigned(created: Created, rank: map<string, nat>, wave: Wave, p: string, t: int)
    requires Ranked(created, rank) && p in created && Unsigned(created[p].ast)
    ensures !Denote(created, rank, wave, p, t).signed
  {
    var env := RefEnv(created, rank, wave, Dependencies(created[p]), t, rank[p]);
    forall q | q in env
      ensures !env[q].signed
    {
      RefUnsigned(created, rank, wave, q, t, rank[p]);
    }
    EvaluateUnsigned(created[p].ast, env);
  }

  // ---------------------------------------------------------------------------
  // What a computation depends on
  // ---------------------------------------------------------------------------

  /** A set of signals defined alike in both stores and closed under dependencies. */
  ghost predicate SharedClosed(a: Created, b: Created, keep: set<string>) {
    forall n :: n in keep ==>
      && n in a && n in b && a[n] == b[n]
      && forall d :: d in Refs(a[n].ast) ==> (d in a <==> d in b) && (d in a ==> d in keep)
  }

  /** Signals outside a closed shared set do not matter, and neither does the choice of ranks. */
  lemma {:induction false} FreshFrame(a: Created, r: map<string, nat>, b: Created, q: map<string, nat>, wave: Wave,
                                      keep: set<string>, name: string, start: int, end: int)
    requires Ranked(a, r) && Ranked(b, q) && SharedClosed(a, b, keep) && name in keep
    ensures Fresh(a, r, wave, name, start, end) == Fresh(b, q, wave, name, start, end)
    decreases r[name], 1, 0
  {
    var refs := Dependencies(a[name]);
    OperandsFrame(a, r, b, q, wave, keep, refs, start, end, r[name], q[name]);
    WidthsFrame(a, r, b, q, wave, keep, refs, r[name], q[name]);
  }

  lemma {:induction false} OperandsFrame(a: Created, r: map<string, nat>, b: Created, q: map<string, nat>, wave: Wave,
                                         keep: set<string>, refs: seq<string>, start: int, end: int, m: nat, n: nat)
    requires Ranked(a, r) && Ranked(b, q) && SharedClosed(a, b, keep)
    requires forall d :: d in refs ==> (d in a <==> d in b) && (d in a ==> d in keep)
    requires AllBelow(a, r, refs, m) && AllBelow(b, q, refs, n)
    ensures Operands(a, r, wave, refs, start, end, m) == Operands(b, q, wave, refs, start, end, n)
    decreases m, 0, |refs|
  {
    if refs != [] {
      var k := |refs| - 1;
      assert refs[k] in refs && forall d :: d in refs[..k] ==> d in refs;
      OperandsFrame(a, r, b, q, wave, keep, refs[..k], start, end, m, n);
      if refs[k] in a {
        FreshFrame(a, r, b, q, wave, keep, refs[k], start, end);
      }
    }
  }

  lemma {:induction false} WidthsFrame(a: Created, r: map<string, nat>, b: Created, q: map<string, nat>, wave: Wave,
                                       keep: set<string>, refs: seq<string>, m: nat, n: nat)
    requires Ranked(a, r) && Ranked(b, q) && SharedClosed(a, b, keep)
    requires forall d :: d in refs ==> (d in a <==> d in b) && (d in a ==> d in keep)
    requires AllBelow(a, r, refs, m) && AllBelow(b, q, refs, n)
    ensures Widths(a, r, wave, refs, m) == Widths(b, q, wave, refs, n)
    decreases m, 0, |refs|
  {
    if refs != [] {
      var k := |refs| - 1;
      assert refs[k] in refs && forall d :: d in refs[..k] ==> d in refs;
      WidthsFrame(a, r, b, q, wave, keep, refs[..k], m, n);
      if refs[k] in a {
        RefWidthFrame(a, r, b, q, wave, keep, refs[k]);
      }
    }
  }

  lemma {:induction false} RefWidthFrame(a: Created, r: map<string, nat>, b: Created, q: map<string, nat>, wave: Wave,
                                         keep: set<string>, name: string)
    requires Ranked(a, r) && Ranked(b, q) && SharedClosed(a, b, keep) && name in keep
    ensures RefWidth(a, r, wave, name) == RefWidth(b, q, wave, name)
    decreases r[name], 1, 0
  {
    WidthsFrame(a, r, b, q, wave, keep, Dependencies(a[name]), r[name], q[name]);
  }
}
