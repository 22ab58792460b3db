/**
 Cutting a flattened bit interval into rectangular native selections, and reading each
 selection back through the owner's coverage.
 */
module BoxDecomposition {
  import opened Wrappers
  import opened Int32
  import opened Coverage
  import opened Coordinates
  import opened Division
  import opened OwnerSelection

  /** A native selection together with the flattened interval it stands for. */
  datatype Box = Box(sel: seq<Select>, lo: int, hi: int)

  /** Positions `a` to `b` of `axis`, each of `s` bits, in front of `tail`. */
  function Attach(axis: Axis, a: int, b: int, s: int, tail: Box): Box {
    Box([(axis.Index(b), axis.Index(a))] + tail.sel, a * s + tail.lo, b * s + tail.hi)
  }

  function With(axis: Axis, a: int, b: int, s: int, tails: seq<Box>): (bs: seq<Box>)
    ensures |bs| == |tails|
  {
    seq(|tails|, i requires 0 <= i < |tails| => Attach(axis, a, b, s, tails[i]))
  }

  /** The boxes of the flattened interval [low, high]. */
  function Boxes(axes: seq<Axis>, low: int, high: int): seq<Box>
    decreases |axes|, 1
  {
    if axes == [] then [Box([], 0, 0)]
    else
      var s := Size(axes[1..]);
      Rows(axes, low / s, low % s, high / s, high % s)
  }

  /**
   Row `first` from position `from` to row `last` at position `to`: a ragged first row, the
   middle rows, a ragged last row.
   */
  function Rows(axes: seq<Axis>, first: int, from: int, last: int, to: int): seq<Box>
    requires axes != []
    decreases |axes|, 0
  {
    var axis, rest, s := axes[0], axes[1..], Size(axes[1..]);
    if from == 0 && to == s - 1 then With(axis, first, last, s, Boxes(rest, 0, s - 1))
    else if first == last then With(axis, first, last, s, Boxes(rest, from, to))
    else
      With(axis, first, first, s, Boxes(rest, from, s - 1))
      + Middle(axes, first, last)
      + With(axis, last, last, s, Boxes(rest, 0, to))
  }

  /** The whole rows strictly between `first` and `last`, kept as a range of rows. */
  function Middle(axes: seq<Axis>, first: int, last: int): seq<Box>
    requires axes != []
    decreases |axes| - 1, 2
  {
    var s := Size(axes[1..]);
    if last > first + 1 then With(axes[0], first + 1, last - 1, s, Boxes(axes[1..], 0, s - 1)) else []
  }

  /** Consecutive ascending intervals that concatenate to [low, high]. */
  ghost predicate Tiles(bs: seq<Box>, low: int, high: int) {
    if bs == [] then low == high + 1
    else bs[0].lo == low <= bs[0].hi && Tiles(bs[1..], bs[0].hi + 1, high)
  }

  /** A full in-bounds selection of exactly the bits of its interval, kept as one piece. */
  ghost predicate Exact(axes: seq<Axis>, box: Box) {
    && |box.sel| == |axes|
    && InBounds(axes, box.sel)
    && PieceCount(axes, box.sel) == 1
    && forall x :: Selects(axes, box.sel, x) <==> box.lo <= x <= box.hi
  }

  ghost predicate AllExact(axes: seq<Axis>, bs: seq<Box>) {
    forall box :: box in bs ==> Exact(axes, box)
  }

  lemma {:induction false} TilesConcat(bs: seq<Box>, cs: seq<Box>, low: int, mid: int, high: int)
    requires Tiles(bs, low, mid) && Tiles(cs, mid + 1, high)
    ensures Tiles(bs + cs, low, high)
  {
    if bs == [] {
      assert bs + cs == cs;
    } else {
      TilesConcat(bs[1..], cs, bs[0].hi + 1, mid, high);
      assert (bs + cs)[1..] == bs[1..] + cs;
    }
  }

  lemma {:induction false} WithTiles(axis: Axis, a: int, s: int, tails: seq<Box>, low: int, high: int)
    requires Tiles(tails, low, high)
    ensures Tiles(With(axis, a, a, s, tails), a * s + low, a * s + high)
  {
    if tails != [] {
      WithTiles(axis, a, s, tails[1..], tails[0].hi + 1, high);
      assert With(axis, a, a, s, tails)[1..] == With(axis, a, a, s, tails[1..]);
    }
  }

  lemma {:induction false} AttachBounds(axis: Axis, a: int, b: int)
    requires 0 <= a <= b < axis.Width()
    ensures Low(axis, (axis.Index(b), axis.Index(a))) == a && High(axis, (axis.Index(b), axis.Index(a))) == b
  {
    axis.OffsetIndex(a);
    axis.OffsetIndex(b);
  }

  lemma {:induction false} AttachInBounds(axes: seq<Axis>, a: int, b: int, tail: Box)
    requires axes != [] && 0 <= a <= b < axes[0].Width()
    requires |tail.sel| == |axes| - 1 && InBounds(axes[1..], tail.sel)
    ensures InBounds(axes, Attach(axes[0], a, b, Size(axes[1..]), tail).sel)
  {
    var sel := [(axes[0].Index(b), axes[0].Index(a))] + tail.sel;
    AttachBounds(axes[0], a, b);
    forall i | 0 < i < |sel|
      ensures 0 <= Low(axes[i], sel[i]) && High(axes[i], sel[i]) < axes[i].Width()
    {
      assert axes[i] == axes[1..][i - 1] && sel[i] == tail.sel[i - 1];
    }
  }

  /** Fixing the outer axis at `a` moves an interval by whole rows. */
  lemma {:induction false} AttachRow(axes: seq<Axis>, a: int, tail: Box)
    requires axes != [] && 0 <= a < axes[0].Width() && Exact(axes[1..], tail)
    ensures Exact(axes, Attach(axes[0], a, a, Size(axes[1..]), tail))
  {
    var s := Size(axes[1..]);
    var sel := [(axes[0].Index(a), axes[0].Index(a))] + tail.sel;
    AttachBounds(axes[0], a, a);
    AttachInBounds(axes, a, a, tail);
    assert sel[1..] == tail.sel;
    forall x
      ensures Selects(axes, sel, x) <==> a * s + tail.lo <= x <= a * s + tail.hi
    {
      SelectsSplit(axes, sel, x);
      assert SelectsAt(axes, sel, x, a) <==> tail.lo <= x - a * s <= tail.hi;
      assert forall o :: SelectsAt(axes, sel, x, o) ==> o == a;
    }
  }

  /** Whole rows `a` to `b` are one interval. */
  lemma {:induction false} AttachRows(axes: seq<Axis>, a: int, b: int, tail: Box)
    requires axes != [] && 0 <= a <= b < axes[0].Width()
    requires |tail.sel| == |axes| - 1 && Whole(axes[1..], tail.sel) && tail.lo == 0 && tail.hi == Size(axes[1..]) - 1
    ensures Exact(axes, Attach(axes[0], a, b, Size(axes[1..]), tail))
  {
    var s := Size(axes[1..]);
    var sel := [(axes[0].Index(b), axes[0].Index(a))] + tail.sel;
    AttachBounds(axes[0], a, b);
    assert sel[1..] == tail.sel;
    forall i | 0 <= i < |tail.sel|
      ensures 0 <= Low(axes[1..][i], tail.sel[i]) && High(axes[1..][i], tail.sel[i]) < axes[1..][i].Width()
    {
      WholeAxisBounds(axes[1..][i], tail.sel[i]);
    }
    AttachInBounds(axes, a, b, tail);
    assert (b + 1) * s - 1 == b * s + (s - 1);
    forall x { SelectsInterval(axes, sel, x); }
  }

  /** The box of every element. */
  function WholeBox(axes: seq<Axis>): Box {
    if axes == [] then Box([], 0, 0)
    else Attach(axes[0], 0, axes[0].Width() - 1, Size(axes[1..]), WholeBox(axes[1..]))
  }

  lemma {:induction false} WholeBoxWhole(axes: seq<Axis>)
    ensures var box := WholeBox(axes);
            |box.sel| == |axes| && Whole(axes, box.sel) && box.lo == 0 && box.hi == Size(axes) - 1
  {
    if axes != [] {
      var s, w, tail := Size(axes[1..]), axes[0].Width(), WholeBox(axes[1..]);
      WholeBoxWhole(axes[1..]);
      AttachBounds(axes[0], 0, w - 1);
      WholeAxisBounds(axes[0], WholeBox(axes).sel[0]);
      assert (w - 1) * s + (s - 1) == w * s - 1;
      forall i | 0 < i < |axes|
        ensures WholeAxis(axes[i], WholeBox(axes).sel[i])
      {
        assert axes[i] == axes[1..][i - 1] && WholeBox(axes).sel[i] == tail.sel[i - 1];
      }
    }
  }

  lemma {:induction false} BoxesWhole(axes: seq<Axis>)
    ensures Boxes(axes, 0, Size(axes) - 1) == [WholeBox(axes)]
  {
    if axes != [] {
      BoxesWhole(axes[1..]);
      LastPosition(axes[0].Width(), Size(axes[1..]));
      assert Boxes(axes, 0, Size(axes) - 1) == Rows(axes, 0, 0, axes[0].Width() - 1, Size(axes[1..]) - 1);
    }
  }

  lemma {:induction false} LastPosition(w: int, s: int)
    requires w >= 1 && s >= 1
    ensures 0 / s == 0 && 0 % s == 0 && (w * s - 1) / s == w - 1 && (w * s - 1) % s == s - 1
  {
    QuotientOf(0, s, 0);
    QuotientOf(w - 1, s, s - 1);
    assert (w - 1) * s + (s - 1) == w * s - 1;
  }

  /** The rows and in-row positions of the ends of an interval over `w` rows of `s` bits. */
  lemma {:induction false} RowEnds(low: int, high: int, s: int, w: int)
    requires s >= 1 && w >= 1 && 0 <= low <= high < w * s
    ensures 0 <= low / s <= high / s < w
    ensures 0 <= low % s < s && 0 <= high % s < s
    ensures low / s == high / s ==> low % s <= high % s
    ensures low == low / s * s + low % s && high == high / s * s + high % s
    ensures low == 0 ==> low % s == 0
    ensures high == w * s - 1 ==> high % s == s - 1
  {
    QuotientBounds(low, s, 0, w - 1);
    QuotientBounds(high, s, 0, w - 1);
    RowOrder(low / s, low % s, high / s, high % s, s);
    if high == w * s - 1 {
      assert (w - 1) * s + (s - 1) == w * s - 1;
      QuotientOf(w - 1, s, s - 1);
    }
  }

  lemma {:induction false} RowOrder(first: int, from: int, last: int, to: int, s: int)
    requires 0 <= from < s && 0 <= to < s && first * s + from <= last * s + to
    ensures first <= last && (first == last ==> from <= to)
  {
    Multiple(first - last, s);
    assert (first - last) * s == first * s - last * s;
  }

  /** The boxes of [low, high] are consecutive ascending intervals from `low` to `high`. */
  lemma {:induction false} BoxesTile(axes: seq<Axis>, low: int, high: int)
    requires 0 <= low <= high < Size(axes)
    ensures Tiles(Boxes(axes, low, high), low, high)
    decreases |axes|, 1
  {
    if axes == [] {
      assert Boxes(axes, low, high)[1..] == [] && Tiles([], 1, 0);
    } else {
      var s := Size(axes[1..]);
      RowEnds(low, high, s, axes[0].Width());
      RowsTile(axes, low / s, low % s, high / s, high % s);
    }
  }

  lemma {:induction false} RowsTile(axes: seq<Axis>, first: int, from: int, last: int, to: int)
    requires axes != [] && first <= last
    requires 0 <= from < Size(axes[1..]) && 0 <= to < Size(axes[1..]) && (first == last ==> from <= to)
    ensures var s := Size(axes[1..]); Tiles(Rows(axes, first, from, last, to), first * s + from, last * s + to)
    decreases |axes|, 0
  {
    var axis, rest, s := axes[0], axes[1..], Size(axes[1..]);
    if from == 0 && to == s - 1 {
      WholeRowsTile(axes, first, last);
    } else if first == last {
      OneRowTiles(axes, first, from, to);
    } else {
      OneRowTiles(axes, first, from, s - 1);
      OneRowTiles(axes, last, 0, to);
      MiddleTiles(axes, first, last);
      JoinTiles(With(axis, first, first, s, Boxes(rest, from, s - 1)), Middle(axes, first, last),
                With(axis, last, last, s, Boxes(rest, 0, to)),
                first * s + from, first * s + (s - 1), last * s - 1, last * s + to);
    }
  }

  lemma {:induction false} OneRowTiles(axes: seq<Axis>, row: int, from: int, to: int)
    requires axes != [] && 0 <= from <= to < Size(axes[1..])
    ensures var s := Size(axes[1..]);
            Tiles(With(axes[0], row, row, s, Boxes(axes[1..], from, to)), row * s + from, row * s + to)
    decreases |axes| - 1, 2
  {
    BoxesTile(axes[1..], from, to);
    WithTiles(axes[0], row, Size(axes[1..]), Boxes(axes[1..], from, to), from, to);
  }

  lemma {:induction false} MiddleTiles(axes: seq<Axis>, first: int, last: int)
    requires axes != [] && first < last
    ensures var s := Size(axes[1..]); Tiles(Middle(axes, first, last), first * s + (s - 1) + 1, last * s - 1)
  {
    var s := Size(axes[1..]);
    assert (first + 1) * s == first * s + s && (last - 1) * s == last * s - s;
    if last > first + 1 {
      WholeRowsTile(axes, first + 1, last - 1);
    }
  }

  lemma {:induction false} WholeRowsTile(axes: seq<Axis>, a: int, b: int)
    requires axes != [] && a <= b
    ensures var s := Size(axes[1..]);
            Tiles(With(axes[0], a, b, s, Boxes(axes[1..], 0, s - 1)), a * s, b * s + (s - 1))
  {
    var s, tail := Size(axes[1..]), WholeBox(axes[1..]);
    BoxesWhole(axes[1..]);
    WholeBoxWhole(axes[1..]);
    Multiple(b - a, s);
    assert (b - a) * s == b * s - a * s;
    SingleTile(Attach(axes[0], a, b, s, tail));
    assert With(axes[0], a, b, s, [tail]) == [Attach(axes[0], a, b, s, tail)];
  }

  lemma {:induction false} SingleTile(box: Box)
    requires box.lo <= box.hi
    ensures Tiles([box], box.lo, box.hi)
  {
    assert [box][1..] == [] && Tiles([], box.hi + 1, box.hi);
  }

  lemma {:induction false} JoinTiles(head: seq<Box>, middle: seq<Box>, tail: seq<Box>, low: int, m: int, n: int,
                                     high: int)
    requires Tiles(head, low, m) && Tiles(middle, m + 1, n) && Tiles(tail, n + 1, high)
    ensures Tiles(head + middle + tail, low, high)
  {
    TilesConcat(head, middle, low, m, n);
    TilesConcat(head + middle, tail, low, n, high);
  }

  /** Every box selects exactly its interval. */
  lemma {:induction false} BoxesExact(axes: seq<Axis>, low: int, high: int)
    requires 0 <= low <= high < Size(axes)
    ensures AllExact(axes, Boxes(axes, low, high))
    decreases |axes|, 1
  {
    if axes == [] {
      assert InBox([], [], []) && Ordinal([], []) == 0;
      assert Exact(axes, Box([], 0, 0));
    } else {
      var s := Size(axes[1..]);
      RowEnds(low, high, s, axes[0].Width());
      RowsExact(axes, low / s, low % s, high / s, high % s);
    }
  }

  lemma {:induction false} RowsExact(axes: seq<Axis>, first: int, from: int, last: int, to: int)
    requires axes != [] && 0 <= first <= last < axes[0].Width()
    requires 0 <= from < Size(axes[1..]) && 0 <= to < Size(axes[1..]) && (first == last ==> from <= to)
    ensures AllExact(axes, Rows(axes, first, from, last, to))
    decreases |axes|, 0
  {
    var rest, s := axes[1..], Size(axes[1..]);
    if from == 0 && to == s - 1 {
      WholeRowsExact(axes, first, last);
    } else if first == last {
      BoxesExact(rest, from, to);
      WithExact(axes, first, Boxes(rest, from, to));
    } else {
      BoxesExact(rest, from, s - 1);
      BoxesExact(rest, 0, to);
      SeveralRowsExact(axes, first, from, last, to);
    }
  }

  /** A first row, whole rows in the middle, and a last row. */
  lemma {:induction false} SeveralRowsExact(axes: seq<Axis>, first: int, from: int, last: int, to: int)
    requires axes != [] && 0 <= first < last < axes[0].Width()
    requires 0 <= from < Size(axes[1..]) && 0 <= to < Size(axes[1..]) && !(from == 0 && to == Size(axes[1..]) - 1)
    requires AllExact(axes[1..], Boxes(axes[1..], from, Size(axes[1..]) - 1)) &&
             AllExact(axes[1..], Boxes(axes[1..], 0, to))
    ensures AllExact(axes, Rows(axes, first, from, last, to))
  {
    var rest, s := axes[1..], Size(axes[1..]);
    WithExact(axes, first, Boxes(rest, from, s - 1));
    WithExact(axes, last, Boxes(rest, 0, to));
    if last > first + 1 {
      WholeRowsExact(axes, first + 1, last - 1);
    }
  }

  lemma {:induction false} WithExact(axes: seq<Axis>, a: int, tails: seq<Box>)
    requires axes != [] && 0 <= a < axes[0].Width() && AllExact(axes[1..], tails)
    ensures AllExact(axes, With(axes[0], a, a, Size(axes[1..]), tails))
  {
    forall i | 0 <= i < |tails|
      ensures Exact(axes, Attach(axes[0], a, a, Size(axes[1..]), tails[i]))
    {
      AttachRow(axes, a, tails[i]);
    }
  }

  lemma {:induction false} WholeRowsExact(axes: seq<Axis>, a: int, b: int)
    requires axes != [] && 0 <= a <= b < axes[0].Width()
    ensures var s := Size(axes[1..]); AllExact(axes, With(axes[0], a, b, s, Boxes(axes[1..], 0, s - 1)))
  {
    BoxesWhole(axes[1..]);
    WholeBoxWhole(axes[1..]);
    AttachRows(axes, a, b, WholeBox(axes[1..]));
  }

  /** An interval that touches either end of the owner needs at most two boxes per further axis. */
  lemma {:induction false} OneSidedCount(axes: seq<Axis>, low: int, high: int)
    requires axes != [] && 0 <= low <= high < Size(axes)
    requires low == 0 || high == Size(axes) - 1
    ensures |Boxes(axes, low, high)| <= 2 * |axes| - 1
    decreases |axes|, 1
  {
    var s := Size(axes[1..]);
    RowEnds(low, high, s, axes[0].Width());
    RowsOneSided(axes, low / s, low % s, high / s, high % s);
  }

  lemma {:induction false} RowsOneSided(axes: seq<Axis>, first: int, from: int, last: int, to: int)
    requires axes != [] && first <= last
    requires 0 <= from < Size(axes[1..]) && 0 <= to < Size(axes[1..]) && (first == last ==> from <= to)
    requires from == 0 || to == Size(axes[1..]) - 1
    ensures |Rows(axes, first, from, last, to)| <= 2 * |axes| - 1
    decreases |axes|, 0
  {
    var rest, s := axes[1..], Size(axes[1..]);
    BoxesWhole(rest);
    if rest != [] {
      if first == last {
        OneSidedCount(rest, from, to);
      } else if from == 0 {
        OneSidedCount(rest, 0, to);
      } else {
        OneSidedCount(rest, from, s - 1);
      }
    }
  }

  /** The number of boxes depends on the number of axes only, never on their sizes. */
  lemma {:induction false} BoxesCount(axes: seq<Axis>, low: int, high: int)
    requires 0 <= low <= high < Size(axes)
    ensures 1 <= |Boxes(axes, low, high)| <= if |axes| <= 1 then 1 else 4 * |axes| - 5
    decreases |axes|, 1
  {
    if axes != [] {
      var s := Size(axes[1..]);
      RowEnds(low, high, s, axes[0].Width());
      RowsCount(axes, low / s, low % s, high / s, high % s);
    }
  }

  lemma {:induction false} RowsCount(axes: seq<Axis>, first: int, from: int, last: int, to: int)
    requires axes != [] && first <= last
    requires 0 <= from < Size(axes[1..]) && 0 <= to < Size(axes[1..]) && (first == last ==> from <= to)
    ensures 1 <= |Rows(axes, first, from, last, to)| <= if |axes| <= 1 then 1 else 4 * |axes| - 5
    decreases |axes|, 0
  {
    var rest, s := axes[1..], Size(axes[1..]);
    BoxesWhole(rest);
    if rest == [] {
    } else if first == last {
      BoxesCount(rest, from, to);
    } else {
      OneSidedCount(rest, from, s - 1);
      OneSidedCount(rest, 0, to);
      BoxesCount(rest, 0, to);
    }
  }

  /** The interval [1, 14] of a 4 by 4 owner needs all three boxes, so the bound is reached. */
  lemma {:induction false} BoxesCountTight()
    ensures var axis := Axis(3, 0, true, true); |Boxes([axis, axis], 1, 14)| == 4 * 2 - 5
  {
    var axis := Axis(3, 0, true, true);
    assert [axis][1..] == [] && [axis, axis][1..] == [axis];
    assert Size([axis]) == 4;
    assert Size([axis, axis][1..]) == 4;
    assert Boxes([axis, axis], 1, 14) == Rows([axis, axis], 0, 1, 3, 2);
    BoxesCount([axis], 1, 3);
    BoxesCount([axis], 0, 3);
    BoxesCount([axis], 0, 2);
  }

  /**
   Reading a box back through the owner: the box is selectable, and the only canonical
   coverage of its bits is its own interval.
   */
  lemma {:induction false} ReadBack(owner: Owner, box: Box, coverage: seq<Range>)
    requires owner.verified && owner.memberOffset.None? && Size(owner.axes) <= INT32_MAX
    requires forall a :: a in owner.axes ==> owner.Addressable(a)
    requires Exact(owner.axes, box) && box.lo <= box.hi
    ensures Selectable(owner, box.sel)
    ensures Canonical(coverage) &&
            (forall x :: Covers(coverage, x) <==> Selects(owner.axes, box.sel, x - owner.Shift())) ==>
              coverage == [Range(box.lo, box.hi)]
  {
    if Canonical(coverage) && forall x :: Covers(coverage, x) <==> Selects(owner.axes, box.sel, x - owner.Shift()) {
      forall x
        ensures Covers(coverage, x) <==> box.lo <= x <= box.hi
      {
        assert x - owner.Shift() == x;
      }
      SingleRange(coverage, box.lo, box.hi);
    }
  }

  function Sels(bs: seq<Box>): (ss: seq<seq<Select>>)
    ensures |ss| == |bs|
  {
    seq(|bs|, i requires 0 <= i < |bs| => bs[i].sel)
  }

  function Prefixed(prefix: seq<Select>, ss: seq<seq<Select>>): (out: seq<seq<Select>>)
    ensures |out| == |ss|
  {
    seq(|ss|, i requires 0 <= i < |ss| => prefix + ss[i])
  }

  lemma {:induction false} PrefixedWith(prefix: seq<Select>, axis: Axis, a: int, b: int, s: int, tails: seq<Box>)
    ensures Prefixed(prefix + [(axis.Index(b), axis.Index(a))], Sels(tails)) ==
            Prefixed(prefix, Sels(With(axis, a, b, s, tails)))
  {
    var front, bs := [(axis.Index(b), axis.Index(a))], With(axis, a, b, s, tails);
    forall i | 0 <= i < |tails|
      ensures (prefix + front) + tails[i].sel == prefix + bs[i].sel
    {
      assert bs[i].sel == front + tails[i].sel;
    }
  }

  lemma {:induction false} PrefixedConcat(prefix: seq<Select>, bs: seq<Box>, cs: seq<Box>)
    ensures Prefixed(prefix, Sels(bs + cs)) == Prefixed(prefix, Sels(bs)) + Prefixed(prefix, Sels(cs))
  {}

  lemma {:induction false} PrefixedThree(prefix: seq<Select>, head: seq<Box>, middle: seq<Box>, tail: seq<Box>,
                                         before: seq<seq<Select>>)
    ensures before + Prefixed(prefix, Sels(head)) + Prefixed(prefix, Sels(middle)) + Prefixed(prefix, Sels(tail))
         == before + Prefixed(prefix, Sels(head + middle + tail))
  {
    PrefixedConcat(prefix, head, middle);
    PrefixedConcat(prefix, head + middle, tail);
  }

  /** The recursion that emits native selections, with the selection prefix and output it updates. */
  class Emitter {
    const axes: seq<Axis>
    const strides: seq<int>
    var prefix: seq<Select>
    var output: seq<seq<Select>>
    var failed: bool

    ghost predicate Valid() {
      |strides| == |axes| && forall a :: 0 <= a < |axes| ==> strides[a] == Size(axes[a + 1..])
    }

    constructor (axes: seq<Axis>, strides: seq<int>)
      requires |strides| == |axes| && forall a :: 0 <= a < |axes| ==> strides[a] == Size(axes[a + 1..])
      ensures Valid() && this.axes == axes && this.strides == strides
      ensures prefix == [] && output == [] && !failed
    {
      this.axes, this.strides := axes, strides;
      prefix, output, failed := [], [], false;
    }

    /** `all` has been emitted up to the piece cap; past the cap the emission has failed. */
    ghost predicate Emitted(all: seq<seq<Select>>)
      reads this
    {
      failed == (|all| > MAX_PIECES) && (!failed ==> output == all)
    }

    /** Appends the boxes of [low, high] on the axes from `axis` on, behind the current prefix. */
    method Emit(axis: nat, low: int, high: int, ghost before: seq<seq<Select>>)
      requires Valid() && axis <= |axes| && Emitted(before)
      modifies this`prefix, this`output, this`failed
      ensures prefix == old(prefix)
      ensures Emitted(before + Prefixed(prefix, Sels(Boxes(axes[axis..], low, high))))
      decreases |axes| - axis, 1
    {
      if failed { return; }
      if axis == |axes| {
        assert axes[axis..] == [] && prefix + [] == prefix;
        assert Prefixed(prefix, Sels(Boxes([], low, high))) == [prefix];
        Append(before);
        return;
      }
      var stride := strides[axis];
      assert axes[axis..][1..] == axes[axis + 1..];
      var first, last := low / stride, high / stride;
      ghost var ps, rest := prefix, axes[axis + 1..];
      if low % stride == 0 && high % stride == stride - 1 {
        Piece(axis, first, last, 0, stride - 1, before);
      } else if first == last {
        Piece(axis, first, last, low % stride, high % stride, before);
      } else {
        ghost var head := With(axes[axis], first, first, stride, Boxes(rest, low % stride, stride - 1));
        ghost var middle := Middle(axes[axis..], first, last);
        ghost var tail := With(axes[axis], last, last, stride, Boxes(rest, 0, high % stride));
        PrefixedThree(ps, head, middle, tail, before);
        Piece(axis, first, first, low % stride, stride - 1, before);
        if last > first + 1 {
          Piece(axis, first + 1, last - 1, 0, stride - 1, before + Prefixed(ps, Sels(head)));
        } else {
          assert before + Prefixed(ps, Sels(head)) + Prefixed(ps, Sels(middle)) == before + Prefixed(ps, Sels(head));
        }
        Piece(axis, last, last, 0, high % stride, before + Prefixed(ps, Sels(head)) + Prefixed(ps, Sels(middle)));
      }
    }

    /** A full selection, unless the cap is reached. */
    method Append(ghost before: seq<seq<Select>>)
      requires Emitted(before) && !failed
      modifies this`output, this`failed
      ensures Emitted(before + [prefix])
    {
      if |output| >= MAX_PIECES {
        failed := true;
        return;
      }
      output := output + [prefix];
    }

    /** One selection of positions `a` to `b`, followed by everything inside it. */
    method Piece(axis: nat, a: int, b: int, low: int, high: int, ghost before: seq<seq<Select>>)
      requires Valid() && axis < |axes| && Emitted(before)
      modifies this`prefix, this`output, this`failed
      ensures prefix == old(prefix)
      ensures Emitted(before +
                      Prefixed(prefix, Sels(With(axes[axis], a, b, strides[axis], Boxes(axes[axis + 1..], low, high)))))
      decreases |axes| - axis, 0
    {
      PrefixedWith(prefix, axes[axis], a, b, strides[axis], Boxes(axes[axis + 1..], low, high));
      prefix := prefix + [(axes[axis].Index(b), axes[axis].Index(a))];
      Emit(axis + 1, low, high, before);
      prefix := prefix[..|prefix| - 1];
    }
  }

  /** The boxes of every interval of a coverage, in order. */
  function CoverageBoxes(axes: seq<Axis>, intervals: seq<Range>): seq<Box> {
    if intervals == [] then []
    else CoverageBoxes(axes, intervals[..|intervals| - 1])
         + Boxes(axes, intervals[|intervals| - 1].lo, intervals[|intervals| - 1].hi)
  }

  /** Intervals inside an owner of fixed, countable axes, with few enough boxes. */
  ghost predicate Decomposable(axes: seq<Axis>, intervals: seq<Range>) {
    && (forall a :: a in axes ==> a.isFixed)
    && Size(axes) <= INT32_MAX
    && (forall r :: r in intervals ==> 0 <= r.lo && r.hi < Size(axes))
    && |CoverageBoxes(axes, intervals)| <= MAX_PIECES
  }

  /** The native selections of a coverage, or nothing when it cannot be written that way. */
  method Decompose(axes: seq<Axis>, intervals: seq<Range>) returns (result: Option<seq<seq<Select>>>)
    ensures result.Some? <==> Decomposable(axes, intervals)
    ensures result.Some? ==> result.value == Sels(CoverageBoxes(axes, intervals))
  {
    var owner := Owner(axes, true, true, None);
    var strides := AxisStrides(owner);
    assert forall a :: a in axes ==> (owner.Addressable(a) <==> a.isFixed);
    if strides.None? { return None; }
    var emitter := new Emitter(axes, strides.value.0);
    assert axes[0..] == axes && Prefixed([], Sels(CoverageBoxes(axes, []))) == [];
    for i := 0 to |intervals|
      invariant emitter.Valid() && emitter.axes == axes && emitter.prefix == []
      invariant forall j :: 0 <= j < i ==> 0 <= intervals[j].lo && intervals[j].hi < Size(axes)
      invariant emitter.Emitted(Prefixed([], Sels(CoverageBoxes(axes, intervals[..i]))))
    {
      if intervals[i].lo < 0 || intervals[i].hi >= strides.value.1 {
        assert intervals[i] in intervals;
        return None;
      }
      assert intervals[..i + 1][..i] == intervals[..i];
      PrefixedConcat([], CoverageBoxes(axes, intervals[..i]), Boxes(axes, intervals[i].lo, intervals[i].hi));
      emitter.Emit(0, intervals[i].lo, intervals[i].hi, Prefixed([], Sels(CoverageBoxes(axes, intervals[..i]))));
    }
    assert intervals[..|intervals|] == intervals;
    if emitter.failed { return None; }
    assert forall sel: seq<Select> {:trigger [] + sel} :: [] + sel == sel;
    assert Prefixed([], Sels(CoverageBoxes(axes, intervals))) == Sels(CoverageBoxes(axes, intervals));
    result := Some(emitter.output);
  }

  /** The emitted selections together select exactly the bits of the coverage. */
  lemma {:induction false} DecomposeConserves(axes: seq<Axis>, intervals: seq<Range>, x: int)
    requires Decomposable(axes, intervals) && Ordered(intervals)
    ensures Covers(intervals, x) <==>
            exists box :: box in CoverageBoxes(axes, intervals) && Exact(axes, box) && Selects(axes, box.sel, x)
    ensures AllExact(axes, CoverageBoxes(axes, intervals))
    decreases |intervals|
  {
    if intervals != [] {
      var n := |intervals| - 1;
      var front, r := intervals[..n], intervals[n];
      assert intervals == front + [r];
      DecomposeConserves(axes, front, x);
      BoxesTile(axes, r.lo, r.hi);
      BoxesExact(axes, r.lo, r.hi);
      TilesCover(axes, Boxes(axes, r.lo, r.hi), r.lo, r.hi, x);
      AppendCovers(front, [r], x);
      assert Covers([r], x) <==> r.lo <= x <= r.hi by { assert r in [r]; }
    }
  }

  lemma {:induction false} TilesCover(axes: seq<Axis>, bs: seq<Box>, low: int, high: int, x: int)
    requires Tiles(bs, low, high) && AllExact(axes, bs)
    ensures low <= x <= high <==> exists box :: box in bs && Exact(axes, box) && Selects(axes, box.sel, x)
    ensures low <= high + 1
  {
    if bs != [] {
      assert bs == [bs[0]] + bs[1..];
      TilesCover(axes, bs[1..], bs[0].hi + 1, high, x);
      assert Exact(axes, bs[0]);
    }
  }
}
