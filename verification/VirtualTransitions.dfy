/**
 Transitions of a virtual signal: the event-driven engine, and the dense sampling it refines.
 */
module VirtualTransitions {
  import opened Sorting
  import opened LogicValues
  import opened Expressions

  /** A waveform value as text: one character, or a bit string. */
  datatype Raw = Scalar(bit: Bit) | Vector(bits: Bits)

  datatype Event = Event(t: int, v: Raw)

  type History = seq<Event>

  type Width = w: nat | w > 0 witness 1

  function ToRaw(v: LogicValue): Raw {
    if |v.bits| == 1 then Scalar(v.bits[0]) else Vector(v.bits)
  }

  function FromRaw(r: Raw): LogicValue {
    match r
    case Scalar(bit) => OneBit(bit)
    case Vector(bits) => LogicValue(bits, false)
  }

  /** A raw value at a known width; a lone x or z fills it, other values are resized. */
  function Hinted(r: Raw, hint: Width): (v: LogicValue)
  {
    var v := FromRaw(r);
    if |v.bits| == hint then v
    else if r == Scalar(BX) then Unknown(hint)
    else if r == Scalar(BZ) then LogicValue(Repeat(BZ, hint), false)
    else WithWidth(v, hint)
  }

  /** Printing a value and reading it back at its own width keeps its bits. */
  lemma {:induction false} HintedRoundTrip(v: LogicValue)
    ensures Hinted(ToRaw(v), |v.bits|) == LogicValue(v.bits, false)
  {
    if |v.bits| == 1 {
      assert v.bits == [v.bits[0]];
    }
  }

  predicate Sorted(h: History) {
    forall i, j :: 0 <= i < j < |h| ==> h[i].t <= h[j].t
  }

  /** How many leading events are at or before `t`; the insertion point to the right of `t`. */
  function UpTo(h: History, t: int): (k: nat)
    ensures k <= |h|
  {
    if h == [] || h[0].t > t then 0 else 1 + UpTo(h[1..], t)
  }

  lemma {:induction false} UpToSplits(h: History, t: int)
    requires Sorted(h)
    ensures forall i :: 0 <= i < |h| ==> (i < UpTo(h, t) <==> h[i].t <= t)
  {
    if h != [] && h[0].t <= t {
      UpToSplits(h[1..], t);
      forall i | 0 < i < |h|
        ensures i < UpTo(h, t) <==> h[i].t <= t
      {
        assert h[i] == h[1..][i - 1];
      }
    }
  }

  /** The value of the last event at or before `t`. */
  function ValueAt(h: History, hint: Width, t: int): LogicValue {
    if UpTo(h, t) == 0 then Unknown(hint) else Hinted(h[UpTo(h, t) - 1].v, hint)
  }

  /** Between events nothing changes. */
  lemma {:induction false} ValueBetween(h: History, hint: Width, a: int, b: int)
    requires a <= b && forall i :: 0 <= i < |h| ==> !(a < h[i].t <= b)
    ensures UpTo(h, a) == UpTo(h, b) && ValueAt(h, hint, a) == ValueAt(h, hint, b)
  {
    if h != [] {
      ValueBetween(h[1..], hint, a, b);
    }
  }

  datatype Operand = Operand(path: string, history: History)

  function HintOf(widths: map<string, Width>, path: string): Width {
    if path in widths then widths[path] else 1
  }

  /** The operand values at time `t`. */
  function EnvAt(ops: seq<Operand>, widths: map<string, Width>, t: int): Env {
    if ops == [] then map[]
    else
      var last := ops[|ops| - 1];
      EnvAt(ops[..|ops| - 1], widths, t)[last.path := ValueAt(last.history, HintOf(widths, last.path), t)]
  }

  /** The printed value of the expression at every time. */
  function Sample(ast: Expr, ops: seq<Operand>, widths: map<string, Width>): int -> Raw {
    (t: int) => ToRaw(Evaluate(ast, EnvAt(ops, widths, t)))
  }

  // ---------------------------------------------------------------------------
  // Dense sampling
  // ---------------------------------------------------------------------------

  /** Sample at every time from `s` to `e` and keep the first value and every change. */
  function Changes(f: int -> Raw, s: int, e: int): (out: History)
    ensures out != [] && out[0].t == s
    ensures out[0].v == f(s)
    decreases e - s
  {
    if e <= s then [Event(s, f(s))]
    else Changes(f, s, e - 1) + (if f(e) != f(e - 1) then [Event(e, f(e))] else [])
  }

  lemma {:induction false} ChangesLast(f: int -> Raw, s: int, e: int)
    requires s <= e
    ensures var out := Changes(f, s, e); out[|out| - 1].v == f(e) && out[|out| - 1].t <= e
    decreases e - s
  {
    if s < e {
      ChangesLast(f, s, e - 1);
    }
  }

  /** Times strictly increase inside the window, and neighbouring values differ. */
  ghost predicate Stepwise(h: History, s: int, e: int) {
    && (forall i :: 0 <= i < |h| ==> s <= h[i].t <= e)
    && (forall i, j :: 0 <= i < j < |h| ==> h[i].t < h[j].t)
    && (forall i, j :: 0 <= i && j == i + 1 && j < |h| ==> h[i].v != h[j].v)
  }

  lemma {:induction false} ChangesShape(f: int -> Raw, s: int, e: int)
    requires s <= e
    ensures Stepwise(Changes(f, s, e), s, e)
    decreases e - s
  {
    if s < e {
      ChangesShape(f, s, e - 1);
      ChangesLast(f, s, e - 1);
    }
  }

  /** At every time of the window the last yielded value is the sampled one. */
  lemma {:induction false} ChangesValue(f: int -> Raw, s: int, e: int, t: int)
    requires s <= t <= e
    ensures var out := Changes(f, s, e); UpTo(out, t) > 0 && out[UpTo(out, t) - 1].v == f(t)
    decreases e - s
  {
    if t == e {
      var out := Changes(f, s, e);
      ChangesShape(f, s, e);
      UpToSplits(out, t);
      ChangesLast(f, s, e);
      assert out[|out| - 1].t <= t;
    } else {
      var before := Changes(f, s, e - 1);
      ChangesValue(f, s, e - 1, t);
      UpToLater(before, if f(e) != f(e - 1) then [Event(e, f(e))] else [], t);
    }
  }

  lemma {:induction false} UpToLater(h: History, later: History, t: int)
    requires forall i :: 0 <= i < |later| ==> later[i].t > t
    ensures UpTo(h + later, t) == UpTo(h, t)
  {
    if h == [] {
      assert h + later == later;
    } else {
      assert (h + later)[1..] == h[1..] + later;
      UpToLater(h[1..], later, t);
    }
  }

  /** The changes depend on the samples of the window only. */
  lemma {:induction false} ChangesAgree(f: int -> Raw, g: int -> Raw, s: int, e: int)
    requires f(s) == g(s) && forall t :: s <= t <= e ==> f(t) == g(t)
    ensures Changes(f, s, e) == Changes(g, s, e)
    decreases e - s
  {
    if s < e {
      ChangesAgree(f, g, s, e - 1);
    }
  }

  lemma {:induction false} ChangesConstant(f: int -> Raw, s: int, c: int, e: int)
    requires s <= c <= e && forall t :: c <= t <= e ==> f(t) == f(c)
    ensures Changes(f, s, e) == Changes(f, s, c)
    decreases e - c
  {
    if c < e {
      ChangesConstant(f, s, c, e - 1);
    }
  }

  // ---------------------------------------------------------------------------
  // The engine
  // ---------------------------------------------------------------------------

  ghost predicate AllSorted(ops: seq<Operand>) {
    forall i :: 0 <= i < |ops| ==> Sorted(ops[i].history)
  }

  /** `u` is the time of some operand event. */
  ghost predicate EventTime(ops: seq<Operand>, u: int) {
    exists i, j :: 0 <= i < |ops| && 0 <= j < |ops[i].history| && ops[i].history[j].t == u
  }

  lemma {:induction false} EnvBetween(ops: seq<Operand>, widths: map<string, Width>, a: int, b: int)
    requires AllSorted(ops) && a <= b && forall u :: a < u <= b ==> !EventTime(ops, u)
    ensures EnvAt(ops, widths, a) == EnvAt(ops, widths, b)
  {
    if ops != [] {
      var front, last := ops[..|ops| - 1], ops[|ops| - 1];
      forall u | EventTime(front, u)
        ensures EventTime(ops, u)
      {
        var i, j :| 0 <= i < |front| && 0 <= j < |front[i].history| && front[i].history[j].t == u;
        assert ops[i].history[j].t == u;
      }
      EnvBetween(front, widths, a, b);
      forall j | 0 <= j < |last.history|
        ensures !(a < last.history[j].t <= b)
      {
        assert EventTime(ops, ops[|ops| - 1].history[j].t);
      }
      ValueBetween(last.history, HintOf(widths, last.path), a, b);
    }
  }

  predicate TimeLess(a: int, b: int) {
    a < b
  }

  ghost predicate Ascending(times: seq<int>) {
    forall i, j :: 0 <= i < j < |times| ==> times[i] <= times[j]
  }

  /** The pending event times in the window, least first. */
  method CollectEvents(ops: seq<Operand>, start: int, end: int) returns (heap: seq<int>)
    ensures Ascending(heap)
    ensures forall u :: u in heap <==> start <= u <= end && EventTime(ops, u)
  {
    heap := [];
    for i := 0 to |ops|
      invariant Ascending(heap)
      invariant forall u :: u in heap <==> start <= u <= end && EventTime(ops[..i], u)
    {
      var history := ops[i].history;
      ghost var before := heap;
      for j := 0 to |history|
        invariant Ascending(heap)
        invariant forall u :: u in heap <==>
                    u in before || (start <= u <= end && exists k :: 0 <= k < j && history[k].t == u)
      {
        if start <= history[j].t <= end {
          heap := HeapPush(heap, history[j].t);
        }
      }
      forall u
        ensures EventTime(ops[..i + 1], u) <==>
                  EventTime(ops[..i], u) || exists k :: 0 <= k < |history| && history[k].t == u
      {
        EventTimeStep(ops, i, u);
      }
    }
    assert ops[..|ops|] == ops;
  }

  lemma {:induction false} EventTimeStep(ops: seq<Operand>, i: nat, u: int)
    requires i < |ops|
    ensures EventTime(ops[..i + 1], u) <==>
            EventTime(ops[..i], u) || exists k :: 0 <= k < |ops[i].history| && ops[i].history[k].t == u
  {
    if EventTime(ops[..i + 1], u) {
      var p, q :| 0 <= p < i + 1 && 0 <= q < |ops[..i + 1][p].history| && ops[..i + 1][p].history[q].t == u;
      if p < i {
        assert ops[..i][p].history[q].t == u;
      } else {
        assert ops[i].history[q].t == u;
      }
    }
    if EventTime(ops[..i], u) {
      var p, q :| 0 <= p < i && 0 <= q < |ops[..i][p].history| && ops[..i][p].history[q].t == u;
      assert ops[..i + 1][p].history[q].t == u;
    }
    if k :| 0 <= k < |ops[i].history| && ops[i].history[k].t == u {
      assert ops[..i + 1][i].history[k].t == u;
    }
  }

  method HeapPush(heap: seq<int>, t: int) returns (out: seq<int>)
    requires Ascending(heap)
    ensures Ascending(out) && forall u :: u in out <==> u in heap || u == t
  {
    out := Insert(TimeLess, t, heap);
    InsertMultiset(TimeLess, t, heap);
    InsertSorted(TimeLess, t, heap);
    forall u
      ensures u in out <==> u in heap || u == t
    {
      assert u in out <==> u in multiset(out);
      assert u in heap <==> u in multiset(heap);
    }
  }

  /**
   The value at the start and every change, evaluating only at event times. The result is
   exactly what sampling at every time of the window would give.
   */
  method IterVirtualTransitions(ast: Expr, ops: seq<Operand>, start: int, end: int, widths: map<string, Width>)
    returns (out: History)
    requires AllSorted(ops)
    ensures out == Changes(Sample(ast, ops, widths), start, end)
  {
    ghost var f := Sample(ast, ops, widths);
    var heap := CollectEvents(ops, start, end);
    var previous := ToRaw(Evaluate(ast, EnvAt(ops, widths, start)));
    out := [Event(start, previous)];
    ghost var c := start;
    while heap != []
      invariant Ascending(heap)
      invariant forall u :: u in heap ==> c <= u <= end
      invariant forall u :: c < u <= end && EventTime(ops, u) ==> u in heap
      invariant start <= c && (c <= end || c == start)
      invariant out == Changes(f, start, c) && previous == f(c)
      decreases |heap|
    {
      var current := heap[0];
      assert current in heap;
      heap := Drain(heap);
      StillUntil(ast, ops, widths, c, current);
      var result := ToRaw(Evaluate(ast, EnvAt(ops, widths, current)));
      if c < current {
        ChangesConstant(f, start, c, current - 1);
      }
      if result != previous {
        out := out + [Event(current, result)];
        previous := result;
      }
      c := current;
    }
    if c < end {
      StillUntil(ast, ops, widths, c, end + 1);
      ChangesConstant(f, start, c, end);
    }
  }

  /** Every event at the least pending time is taken together. */
  method Drain(heap: seq<int>) returns (rest: seq<int>)
    requires heap != [] && Ascending(heap)
    ensures Ascending(rest) && |rest| < |heap|
    ensures forall u :: u in rest <==> u in heap && u > heap[0]
  {
    var i := 1;
    while i < |heap| && heap[i] == heap[0]
      invariant 1 <= i <= |heap| && forall k :: 0 <= k < i ==> heap[k] == heap[0]
    {
      i := i + 1;
    }
    rest := heap[i..];
  }

  /** Without an event in between, the sample keeps its value until just before `d`. */
  lemma {:induction false} StillUntil(ast: Expr, ops: seq<Operand>, widths: map<string, Width>, c: int, d: int)
    requires AllSorted(ops) && forall u :: c < u < d ==> !EventTime(ops, u)
    ensures forall t :: c <= t < d ==> Sample(ast, ops, widths)(t) == Sample(ast, ops, widths)(c)
  {
    forall t | c <= t < d
      ensures Sample(ast, ops, widths)(t) == Sample(ast, ops, widths)(c)
    {
      EnvBetween(ops, widths, c, t);
    }
  }
}
