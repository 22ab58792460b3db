/**
 How a raw waveform text is read at the width of its signal, bit by bit from the low end, and
 what an alias of a real signal therefore shows.
 */
module RawReading {
  import opened Wrappers
  import opened LogicValues
  import opened OperatorLaws
  import opened OperatorBits
  import opened Expressions
  import opened VirtualTransitions
  import opened VirtualSignals

  /** The characters of the text, most significant first. */
  function Text(r: Raw): (bits: seq<Bit>)
    ensures |bits| > 0
  {
    match r
    case Scalar(bit) => [bit]
    case Vector(bits) => bits
  }

  /** A lone x or z stands for every bit. */
  predicate Fills(r: Raw) {
    r == Scalar(BX) || r == Scalar(BZ)
  }

  /** The bits are those of the text with the low ends aligned, and 0 above the text. */
  ghost predicate AlignedLow(bits: seq<Bit>, text: seq<Bit>) {
    forall i: nat :: i < |bits| ==> FromLow(bits, i) == FromLow(text, i)
  }

  /** A raw value read at a known width. */
  ghost predicate ReadAs(bits: seq<Bit>, r: Raw, width: Width) {
    && |bits| == width
    && if Fills(r) then forall i :: 0 <= i < width ==> bits[i] == Text(r)[0] else AlignedLow(bits, Text(r))
  }

  lemma {:induction false} HintedReads(r: Raw, hint: Width)
    ensures ReadAs(Hinted(r, hint).bits, r, hint)
  {
    assert FromRaw(r).bits == Text(r) && !FromRaw(r).signed;
    if !Fills(r) {
      WidenAligns(FromRaw(r), hint);
    }
  }

  lemma {:induction false} WidenAligns(v: LogicValue, width: Width)
    requires !v.signed
    ensures |WithWidth(v, width).bits| == width && AlignedLow(WithWidth(v, width).bits, v.bits)
    ensures |v.bits| == width ==> WithWidth(v, width) == v
  {}

  lemma {:induction false} BitFromLow(bits: seq<Bit>, text: seq<Bit>, j: nat)
    requires AlignedLow(bits, text) && j < |bits|
    ensures bits[j] == FromLow(text, |bits| - 1 - j)
  {
    assert FromLow(bits, |bits| - 1 - j) == FromLow(text, |bits| - 1 - j);
  }

  /** The low bits of a number. */
  lemma {:induction false} LowBits(bits: seq<Bit>, width: nat)
    requires IsDefinite(bits) && width <= |bits|
    ensures FromNat(ToUint(bits), width) == bits[|bits| - width..]
  {
    if width > 0 {
      var front, last := bits[..|bits| - 1], bits[|bits| - 1];
      LowBits(front, width - 1);
      assert ToUint(bits) / 2 == ToUint(front) && last.Definite();
      assert bits[|bits| - width..] == front[|front| - (width - 1)..] + [last];
    }
  }

  /** Aligned at the low end, a definite text keeps its number modulo the width. */
  lemma {:induction false} AlignedNumber(bits: seq<Bit>, text: seq<Bit>)
    requires IsDefinite(text) && AlignedLow(bits, text)
    ensures ToUint(bits) == ToUint(text) % Pow2(|bits|)
    ensures |text| <= |bits| ==> ToUint(bits) == ToUint(text)
  {
    var w, n := |bits|, |text|;
    if n <= w {
      forall j | 0 <= j < w
        ensures bits[j] == Padded(B0, text, w)[j]
      {
        BitFromLow(bits, text, j);
      }
      assert bits == Padded(B0, text, w);
      ZerosAbove(text, w);
      UintBound(bits);
      Small(ToUint(text), Pow2(w));
    } else {
      forall j | 0 <= j < w
        ensures bits[j] == text[n - w..][j]
      {
        BitFromLow(bits, text, j);
      }
      assert bits == text[n - w..];
      LowBits(text, w);
      UintOfNat(ToUint(text), w);
    }
  }

  /** `k` is the last event of the history at or before `t`. */
  ghost predicate LastEvent(h: History, k: int, t: int) {
    0 <= k < |h| && h[k].t <= t && forall j :: k < j < |h| ==> h[j].t > t
  }

  lemma {:induction false} LastIsUpTo(h: History, k: int, t: int)
    requires Sorted(h) && LastEvent(h, k, t)
    ensures UpTo(h, t) == k + 1
  {
    UpToSplits(h, t);
    var n := UpTo(h, t);
    assert k < n;
    assert k + 1 < |h| ==> h[k + 1].t > t;
  }

  /** What the list of a created signal shows at a time: the text of its last event. */
  ghost function Shown(h: History, t: int): seq<Bit>
    requires UpTo(h, t) > 0
  {
    Text(h[UpTo(h, t) - 1].v)
  }

  /** What an alias of a real signal of width `w` shows at a time, from the history of that signal. */
  ghost predicate ShowsLast(bits: seq<Bit>, h: History, w: Width, t: int) {
    && |bits| == w
    && (forall k :: LastEvent(h, k, t) ==> ReadAs(bits, h[k].v, w) && ReadNumber(bits, h[k].v, w))
    && ((forall k :: 0 <= k < |h| ==> h[k].t > t) ==> bits == Repeat(BX, w))
  }

  /** The number of a definite text, modulo the width. */
  ghost predicate ReadNumber(bits: seq<Bit>, r: Raw, w: Width) {
    IsDefinite(Text(r)) ==>
      && ToUint(bits) == ToUint(Text(r)) % Pow2(w)
      && (|Text(r)| <= w ==> ToUint(bits) == ToUint(Text(r)))
  }

  /**
   At every time of the window the transitions of an alias of a real signal show the last event
   of that signal: its bits aligned at the low end, its number if it is definite, x before any.
   */
  lemma {:induction false} AliasShows(created: Created, rank: map<string, nat>, wave: Wave, name: string, p: string,
                                      start: int, end: int, t: int)
    requires Ranked(created, rank) && WaveSorted(wave) && 0 <= start <= t <= end
    requires name in created && created[name].ast == SignalRef(p) && p !in created && p in wave
    ensures var list := Fresh(created, rank, wave, name, start, end);
            UpTo(list, t) > 0 && ShowsLast(Shown(list, t), wave[p].history, wave[p].width, t)
  {
    FreshIsMeaning(created, rank, wave, name, start, end);
    ChangesValue(Meaning(created, rank, wave, name), start, end, t);
    AliasValue(created, rank, wave, name, p, t);
    TextOf(Denote(created, rank, wave, name, t));
    ValueShows(wave[p].history, wave[p].width, t);
  }

  lemma {:induction false} AliasValue(created: Created, rank: map<string, nat>, wave: Wave, name: string, p: string,
                                      t: int)
    requires Ranked(created, rank) && name in created && created[name].ast == SignalRef(p)
    requires p !in created && p in wave
    ensures Denote(created, rank, wave, name, t) == ValueAt(wave[p].history, wave[p].width, t)
  {
    AliasMeans(created, rank, wave, name, p, t);
  }

  /** Printing a value keeps its bits. */
  lemma {:induction false} TextOf(v: LogicValue)
    ensures Text(ToRaw(v)) == v.bits
  {}

  /** The value of a history at a time, bit by bit. */
  lemma {:induction false} ValueShows(h: History, w: Width, t: int)
    requires Sorted(h)
    ensures ShowsLast(ValueAt(h, w, t).bits, h, w, t)
  {
    var bits := ValueAt(h, w, t).bits;
    UpToSplits(h, t);
    forall k | LastEvent(h, k, t)
      ensures ReadAs(bits, h[k].v, w) && ReadNumber(bits, h[k].v, w)
    {
      LastIsUpTo(h, k, t);
      HintedReads(h[k].v, w);
      HintedNumber(h[k].v, w);
    }
    if UpTo(h, t) > 0 {
      assert LastEvent(h, UpTo(h, t) - 1, t);
      HintedReads(h[UpTo(h, t) - 1].v, w);
      assert h[UpTo(h, t) - 1].t <= t;
    }
  }

  /** What the engine evaluates an expression over: each operand shows the last event of its history. */
  lemma {:induction false} OperandShows(ops: seq<Operand>, widths: map<string, Width>, t: int, i: nat)
    requires AllSorted(ops) && DistinctPaths(ops) && i < |ops|
    ensures var path := ops[i].path;
            && path in EnvAt(ops, widths, t)
            && ShowsLast(EnvAt(ops, widths, t)[path].bits, ops[i].history, HintOf(widths, path), t)
  {
    var n := |ops| - 1;
    if i < n {
      OperandShows(ops[..n], widths, t, i);
      assert ops[i].path != ops[n].path;
    } else {
      ValueShows(ops[i].history, HintOf(widths, ops[i].path), t);
    }
  }

  lemma {:induction false} HintedNumber(r: Raw, hint: Width)
    ensures ReadNumber(Hinted(r, hint).bits, r, hint)
  {
    if IsDefinite(Text(r)) {
      HintedReads(r, hint);
      assert Text(r)[0].Definite();
      AlignedNumber(Hinted(r, hint).bits, Text(r));
    }
  }
}
