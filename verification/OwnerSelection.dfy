/**
 The coverage of a selection on a declared owner, and the index tuple of a flattened bit.
 */
module OwnerSelection {
  import opened Wrappers
  import opened Int32
  import opened Coverage
  import opened Coordinates
  import opened Division

  const MAX_PIECES: nat := 256

  /**
   Coordinate record of a signal. `memberOffset` is the bit offset of a struct member
   inside its parent, absent for a root signal.
   */
  datatype Owner = Owner(axes: seq<Axis>, verified: bool, portMapped: bool, memberOffset: Option<nat>) {
    function Shift(): nat {
      if memberOffset.Some? then memberOffset.value else 0
    }

    predicate Addressable(axis: Axis) {
      axis.isFixed && (axis.isPacked || portMapped)
    }
  }

  /** How many intervals a selection splits into before merging. */
  function PieceCount(axes: seq<Axis>, sel: seq<Select>): (n: nat)
    requires |sel| <= |axes|
    ensures n >= 1
  {
    if sel == [] || Whole(axes[1..], sel[1..]) then 1
    else
      Multiple(High(axes[0], sel[0]) - Low(axes[0], sel[0]) + 1, PieceCount(axes[1..], sel[1..]));
      (High(axes[0], sel[0]) - Low(axes[0], sel[0]) + 1) * PieceCount(axes[1..], sel[1..])
  }

  /** Exactly the selections that have a coverage. */
  ghost predicate Selectable(owner: Owner, sel: seq<Select>) {
    && owner.verified
    && |sel| <= |owner.axes|
    && (forall a :: a in owner.axes ==> owner.Addressable(a))
    && Size(owner.axes) <= INT32_MAX
    && InBounds(owner.axes, sel)
    && PieceCount(owner.axes, sel) <= MAX_PIECES
    && (owner.memberOffset.Some? ==>
          forall x :: Selects(owner.axes, sel, x) ==> x + owner.Shift() <= INT32_MAX)
  }

  lemma {:induction false} SizeSuffix(axes: seq<Axis>, k: nat)
    requires k <= |axes|
    ensures Size(axes[k..]) <= Size(axes)
  {
    if k == 0 {
      assert axes[k..] == axes;
    } else {
      SizeSuffix(axes[1..], k - 1);
      assert axes[1..][k - 1..] == axes[k..];
      assert (axes[0].Width() - 1) * Size(axes[1..]) >= 0;
    }
  }

  function Move(q: Range, d: int): Range {
    Range(q.lo + d, q.hi + d)
  }

  /** `r` is a range of `ranges` moved by a multiple of `stride` in [low, high]. */
  ghost predicate Shifted(ranges: seq<Range>, low: int, high: int, stride: int, r: Range) {
    exists q, o :: q in ranges && low <= o <= high && r == Move(q, o * stride)
  }

  /** Every range of `ranges` moved by each multiple of `stride` in [low, high]. */
  method Spread(ranges: seq<Range>, low: int, high: int, stride: int) returns (next: seq<Range>)
    requires low <= high
    ensures |next| == |ranges| * (high - low + 1)
    ensures forall r :: r in next <==> Shifted(ranges, low, high, stride, r)
  {
    next := [];
    for k := 0 to |ranges|
      invariant |next| == k * (high - low + 1)
      invariant forall r :: r in next <==> Shifted(ranges[..k], low, high, stride, r)
    {
      var moved := SpreadOne(ranges[k], low, high, stride);
      assert ranges[..k + 1] == ranges[..k] + [ranges[k]];
      assert forall p :: p in ranges[..k + 1] <==> p in ranges[..k] || p == ranges[k];
      next := next + moved;
      assert (k + 1) * (high - low + 1) == k * (high - low + 1) + (high - low + 1);
    }
    assert ranges[..|ranges|] == ranges;
  }

  method SpreadOne(q: Range, low: int, high: int, stride: int) returns (next: seq<Range>)
    requires low <= high
    ensures |next| == high - low + 1
    ensures forall r :: r in next <==> exists o :: low <= o <= high && r == Move(q, o * stride)
  {
    next := [];
    for i := low to high + 1
      invariant |next| == i - low
      invariant forall r :: r in next <==> exists o :: low <= o < i && r == Move(q, o * stride)
    {
      next := next + [Move(q, i * stride)];
    }
  }

  /** The bits still to be placed when the axes before `k` are fixed by a point of `ranges`. */
  ghost predicate Placed(axes: seq<Axis>, sel: seq<Select>, k: nat, ranges: seq<Range>, x: int)
    requires k <= |sel| <= |axes|
  {
    exists r :: r in ranges && Selects(axes[k..], sel[k..], x - r.lo)
  }

  ghost predicate Points(ranges: seq<Range>) {
    forall r :: r in ranges ==> r.lo == r.hi
  }

  /** `ranges` fixes the first `k` axes and loses or invents no selected bit. */
  ghost predicate Prefixes(axes: seq<Axis>, sel: seq<Select>, k: nat, ranges: seq<Range>)
    requires k <= |sel| <= |axes|
  {
    Points(ranges) && forall x :: Selects(axes, sel, x) <==> Placed(axes, sel, k, ranges, x)
  }

  lemma {:induction false} PrefixesStart(axes: seq<Axis>, sel: seq<Select>)
    requires |sel| <= |axes|
    ensures Prefixes(axes, sel, 0, [Range(0, 0)])
  {
    var ranges := [Range(0, 0)];
    assert axes[0..] == axes && sel[0..] == sel;
    forall x
      ensures Selects(axes, sel, x) <==> Placed(axes, sel, 0, ranges, x)
    {
      assert ranges[0] in ranges && x - ranges[0].lo == x;
    }
  }

  /** Fixing one more axis spreads every point over that axis. */
  lemma {:induction false} PrefixesStep(axes: seq<Axis>, sel: seq<Select>, k: nat, ranges: seq<Range>, next: seq<Range>)
    requires k < |sel| <= |axes| && Prefixes(axes, sel, k, ranges)
    requires 0 <= Low(axes[k], sel[k]) && High(axes[k], sel[k]) < axes[k].Width()
    requires forall r :: r in next <==>
                         Shifted(ranges, Low(axes[k], sel[k]), High(axes[k], sel[k]), Size(axes[k + 1..]), r)
    ensures Prefixes(axes, sel, k + 1, next)
  {
    forall x
      ensures Placed(axes, sel, k, ranges, x) <==> Placed(axes, sel, k + 1, next, x)
    {
      if Placed(axes, sel, k, ranges, x) { PlacedForward(axes, sel, k, ranges, next, x); }
      if Placed(axes, sel, k + 1, next, x) { PlacedBack(axes, sel, k, ranges, next, x); }
    }
  }

  lemma {:induction false} PlacedForward(axes: seq<Axis>, sel: seq<Select>, k: nat, ranges: seq<Range>,
                                         next: seq<Range>, x: int)
    requires k < |sel| <= |axes| && Placed(axes, sel, k, ranges, x)
    requires forall r :: Shifted(ranges, Low(axes[k], sel[k]), High(axes[k], sel[k]), Size(axes[k + 1..]), r) ==>
               r in next
    ensures Placed(axes, sel, k + 1, next, x)
  {
    var r :| r in ranges && Selects(axes[k..], sel[k..], x - r.lo);
    var offs :| InBox(axes[k..], sel[k..], offs) && Ordinal(axes[k..], offs) == x - r.lo;
    assert axes[k..][1..] == axes[k + 1..] && sel[k..][1..] == sel[k + 1..];
    assert InBox(axes[k + 1..], sel[k + 1..], offs[1..]);
    assert Low(axes[k], sel[k]) <= offs[0] <= High(axes[k], sel[k]);
    var q := Move(r, offs[0] * Size(axes[k + 1..]));
    assert q in next;
    assert Ordinal(axes[k + 1..], offs[1..]) == x - q.lo;
  }

  lemma {:induction false} PlacedBack(axes: seq<Axis>, sel: seq<Select>, k: nat, ranges: seq<Range>, next: seq<Range>,
                                      x: int)
    requires k < |sel| <= |axes| && Placed(axes, sel, k + 1, next, x)
    requires 0 <= Low(axes[k], sel[k]) && High(axes[k], sel[k]) < axes[k].Width()
    requires forall r :: r in next ==>
                         Shifted(ranges, Low(axes[k], sel[k]), High(axes[k], sel[k]), Size(axes[k + 1..]), r)
    ensures Placed(axes, sel, k, ranges, x)
  {
    var s := Size(axes[k + 1..]);
    var q :| q in next && Selects(axes[k + 1..], sel[k + 1..], x - q.lo);
    var r, o :| r in ranges && Low(axes[k], sel[k]) <= o <= High(axes[k], sel[k]) && q == Move(r, o * s);
    var offs :| InBox(axes[k + 1..], sel[k + 1..], offs) && Ordinal(axes[k + 1..], offs) == x - q.lo;
    assert axes[k..][1..] == axes[k + 1..] && sel[k..][1..] == sel[k + 1..];
    Prepend(axes[k..], sel[k..], o, offs);
    assert Ordinal(axes[k..], [o] + offs) == x - r.lo;
  }

  lemma {:induction false} Prepend(axes: seq<Axis>, sel: seq<Select>, o: int, offs: seq<int>)
    requires 0 < |sel| <= |axes| && InBox(axes[1..], sel[1..], offs)
    requires 0 <= o < axes[0].Width() && Low(axes[0], sel[0]) <= o <= High(axes[0], sel[0])
    ensures InBox(axes, sel, [o] + offs)
    ensures Ordinal(axes, [o] + offs) == o * Size(axes[1..]) + Ordinal(axes[1..], offs)
  {
    var all := [o] + offs;
    assert all[1..] == offs;
    forall a | 0 < a < |axes|
      ensures 0 <= all[a] < axes[a].Width()
      ensures a < |sel| ==> Low(axes[a], sel[a]) <= all[a] <= High(axes[a], sel[a])
    {
      assert axes[a] == axes[1..][a - 1];
      assert a < |sel| ==> sel[a] == sel[1..][a - 1];
    }
  }

  /** Points widened to the interval that the remaining axes select cover the selection. */
  lemma {:induction false} PrefixesEnd(axes: seq<Axis>, sel: seq<Select>, k: nat, ranges: seq<Range>, out: seq<Range>,
                                       low: int, high: int)
    requires k <= |sel| <= |axes| && Prefixes(axes, sel, k, ranges) && low <= high
    requires forall y :: Selects(axes[k..], sel[k..], y) <==> low <= y <= high
    requires |out| == |ranges|
    requires forall i :: 0 <= i < |ranges| ==> out[i] == Range(ranges[i].lo + low, ranges[i].hi + high)
    ensures Ordered(out) && forall x :: Covers(out, x) <==> Selects(axes, sel, x)
  {
    forall x
      ensures Covers(out, x) <==> Placed(axes, sel, k, ranges, x)
    {
      if Covers(out, x) {
        var q :| q in out && Holds(q, x);
        var i :| 0 <= i < |out| && out[i] == q;
        assert ranges[i] in ranges && Selects(axes[k..], sel[k..], x - ranges[i].lo);
      }
      if Placed(axes, sel, k, ranges, x) {
        var r :| r in ranges && Selects(axes[k..], sel[k..], x - r.lo);
        var i :| 0 <= i < |ranges| && ranges[i] == r;
        assert out[i] in out && Holds(out[i], x);
      }
    }
  }

  method Widen(ranges: seq<Range>, low: int, high: int) returns (out: seq<Range>)
    ensures |out| == |ranges|
    ensures forall i :: 0 <= i < |ranges| ==> out[i] == Range(ranges[i].lo + low, ranges[i].hi + high)
  {
    out := ranges;
    for i := 0 to |ranges|
      invariant |out| == |ranges|
      invariant forall j :: 0 <= j < i ==> out[j] == Range(ranges[j].lo + low, ranges[j].hi + high)
      invariant forall j :: i <= j < |ranges| ==> out[j] == ranges[j]
    {
      out := out[i := Range(out[i].lo + low, out[i].hi + high)];
    }
  }

  /** Row-major strides, or nothing when an axis is not addressable or the owner is too large. */
  method AxisStrides(owner: Owner) returns (result: Option<(seq<int>, int)>)
    ensures result.Some? <==> (forall a :: a in owner.axes ==> owner.Addressable(a)) && Size(owner.axes) <= INT32_MAX
    ensures result.Some? ==>
              && |result.value.0| == |owner.axes| && result.value.1 == Size(owner.axes)
              && forall a :: 0 <= a < |owner.axes| ==> result.value.0[a] == Size(owner.axes[a + 1..])
  {
    var axes, n := owner.axes, |owner.axes|;
    var strides := seq(n, _ => 1);
    var total := 1;
    for axis := n downto 0
      invariant |strides| == n && 1 <= total == Size(axes[axis..]) <= INT32_MAX
      invariant forall a :: axis <= a < n ==> strides[a] == Size(axes[a + 1..]) && owner.Addressable(axes[a])
    {
      var declared := axes[axis];
      if !declared.isFixed || (!declared.isPacked && !owner.portMapped) {
        assert declared in axes;
        return None;
      }
      strides := strides[axis := total];
      var width := declared.Width();
      assert axes[axis..][1..] == axes[axis + 1..];
      QuotientLimit(width, total, INT32_MAX);
      if width > INT32_MAX / total {
        SizeSuffix(axes, axis);
        return None;
      }
      total := total * width;
    }
    assert axes[0..] == axes;
    result := Some((strides, total));
  }

  lemma {:induction false} UnselectedEnd(axes: seq<Axis>, sel: seq<Select>, points: seq<Range>, out: seq<Range>)
    requires |sel| < |axes| && Prefixes(axes, sel, |sel|, points) && InBounds(axes[..|sel|], sel[..|sel|])
    requires |out| == |points|
    requires forall i :: 0 <= i < |points| ==>
               out[i] == Range(points[i].lo + 0, points[i].hi + (Size(axes[|sel|..]) - 1))
    ensures Ordered(out) && forall x :: Covers(out, x) <==> Selects(axes, sel, x)
    ensures InBounds(axes, sel)
  {
    forall y { SelectsWhole(axes[|sel|..], sel[|sel|..], y); }
    PrefixesEnd(axes, sel, |sel|, points, out, 0, Size(axes[|sel|..]) - 1);
    assert forall a :: 0 <= a < |sel| ==> axes[..|sel|][a] == axes[a] && sel[..|sel|][a] == sel[a];
  }

  lemma {:induction false} AllAxesEnd(axes: seq<Axis>, sel: seq<Select>, ranges: seq<Range>)
    requires |sel| == |axes| && Prefixes(axes, sel, |sel|, ranges) && InBounds(axes[..|sel|], sel[..|sel|])
    ensures Ordered(ranges) && forall x :: Covers(ranges, x) <==> Selects(axes, sel, x)
    ensures InBounds(axes, sel)
  {
    forall y { SelectsWhole(axes[|sel|..], sel[|sel|..], y); }
    PrefixesEnd(axes, sel, |sel|, ranges, ranges, 0, 0);
    assert axes[..|sel|] == axes && sel[..|sel|] == sel;
  }

  lemma {:induction false} TrailingEnd(axes: seq<Axis>, sel: seq<Select>, k: nat, points: seq<Range>, out: seq<Range>)
    requires k < |sel| <= |axes| && Prefixes(axes, sel, k, points)
    requires InBounds(axes[k..], sel[k..]) && Whole(axes[k + 1..], sel[k + 1..])
    requires |out| == |points|
    requires var s := Size(axes[k + 1..]);
             forall i :: 0 <= i < |points| ==>
               out[i] == Range(points[i].lo + Low(axes[k], sel[k]) * s,
                               points[i].hi + ((High(axes[k], sel[k]) + 1) * s - 1))
    ensures Ordered(out) && forall x :: Covers(out, x) <==> Selects(axes, sel, x)
  {
    var s := Size(axes[k + 1..]);
    assert axes[k..][1..] == axes[k + 1..] && sel[k..][1..] == sel[k + 1..];
    forall y { SelectsInterval(axes[k..], sel[k..], y); }
    ScaledBounds(Low(axes[k], sel[k]), s, 0, Low(axes[k], sel[k]), High(axes[k], sel[k]));
    PrefixesEnd(axes, sel, k, points, out, Low(axes[k], sel[k]) * s, (High(axes[k], sel[k]) + 1) * s - 1);
  }

  lemma {:induction false} InBoundsStep(axes: seq<Axis>, sel: seq<Select>, k: nat)
    requires k < |sel| <= |axes| && InBounds(axes[..k], sel[..k])
    requires 0 <= Low(axes[k], sel[k]) && High(axes[k], sel[k]) < axes[k].Width()
    ensures InBounds(axes[..k + 1], sel[..k + 1])
  {
    assert axes[..k + 1] == axes[..k] + [axes[k]] && sel[..k + 1] == sel[..k] + [sel[k]];
  }

  lemma {:induction false} PieceCountAt(axes: seq<Axis>, sel: seq<Select>, k: nat)
    requires k < |sel| <= |axes|
    ensures PieceCount(axes[k..], sel[k..]) ==
            if Whole(axes[k + 1..], sel[k + 1..]) then 1
            else (High(axes[k], sel[k]) - Low(axes[k], sel[k]) + 1) * PieceCount(axes[k + 1..], sel[k + 1..])
  {
    assert axes[k..][1..] == axes[k + 1..] && sel[k..][1..] == sel[k + 1..];
  }

  /** The selected axes before `axis` are expanded into the points `ranges`. */
  ghost predicate Expanded(axes: seq<Axis>, sel: seq<Select>, axis: nat, ranges: seq<Range>)
    requires |sel| <= |axes|
  {
    && axis <= |sel| && Prefixes(axes, sel, axis, ranges) && 0 < |ranges| <= MAX_PIECES
    && PieceCount(axes, sel) == |ranges| * PieceCount(axes[axis..], sel[axis..])
    && InBounds(axes[..axis], sel[..axis])
  }

  lemma {:induction false} ExpandedStart(axes: seq<Axis>, sel: seq<Select>)
    requires |sel| <= |axes|
    ensures Expanded(axes, sel, 0, [Range(0, 0)])
  {
    assert axes[0..] == axes && sel[0..] == sel;
    PrefixesStart(axes, sel);
  }

  /** Whether the next axis still fits the piece limit. */
  lemma {:induction false} ExpandedLimit(axes: seq<Axis>, sel: seq<Select>, axis: nat, ranges: seq<Range>, count: int)
    requires |sel| <= |axes| && axis < |sel| && Expanded(axes, sel, axis, ranges) &&
             !Whole(axes[axis + 1..], sel[axis + 1..])
    requires count == High(axes[axis], sel[axis]) - Low(axes[axis], sel[axis]) + 1 >= 1
    ensures PieceCount(axes, sel) == (|ranges| * count) * PieceCount(axes[axis + 1..], sel[axis + 1..])
    ensures if count > MAX_PIECES / |ranges| then PieceCount(axes, sel) > MAX_PIECES
            else 0 < |ranges| * count <= MAX_PIECES
  {
    PieceCountAt(axes, sel, axis);
    QuotientLimit(count, |ranges|, MAX_PIECES);
    PiecesGrow(|ranges|, count, PieceCount(axes[axis + 1..], sel[axis + 1..]));
  }

  lemma {:induction false} ExpandedNext(axes: seq<Axis>, sel: seq<Select>, axis: nat, ranges: seq<Range>,
                                        next: seq<Range>, count: int)
    requires |sel| <= |axes| && axis < |sel| && Expanded(axes, sel, axis, ranges)
    requires 0 <= Low(axes[axis], sel[axis]) && High(axes[axis], sel[axis]) < axes[axis].Width()
    requires PieceCount(axes, sel) == (|ranges| * count) * PieceCount(axes[axis + 1..], sel[axis + 1..])
    requires |next| == |ranges| * count && 0 < |ranges| * count <= MAX_PIECES
    requires forall r :: r in next <==>
                         Shifted(ranges, Low(axes[axis], sel[axis]), High(axes[axis], sel[axis]),
                                 Size(axes[axis + 1..]), r)
    ensures Expanded(axes, sel, axis + 1, next)
  {
    PrefixesStep(axes, sel, axis, ranges, next);
    InBoundsStep(axes, sel, axis);
  }

  /** The last axes are selected whole or not at all: each point widens to an interval. */
  lemma {:induction false} ExpandedTrailing(axes: seq<Axis>, sel: seq<Select>, axis: nat, points: seq<Range>,
                                            out: seq<Range>)
    requires |sel| <= |axes| && axis < |sel| && Expanded(axes, sel, axis, points) &&
             Whole(axes[axis + 1..], sel[axis + 1..])
    requires 0 <= Low(axes[axis], sel[axis]) && High(axes[axis], sel[axis]) < axes[axis].Width()
    requires |out| == |points|
    requires var s := Size(axes[axis + 1..]);
             forall i :: 0 <= i < |points| ==>
               out[i] == Range(points[i].lo + Low(axes[axis], sel[axis]) * s,
                               points[i].hi + ((High(axes[axis], sel[axis]) + 1) * s - 1))
    ensures InBounds(axes, sel) && PieceCount(axes, sel) <= MAX_PIECES
    ensures Ordered(out) && forall x :: Covers(out, x) <==> Selects(axes, sel, x)
  {
    PieceCountAt(axes, sel, axis);
    TrailingInBounds(axes, sel, axis);
    TrailingEnd(axes, sel, axis, points, out);
  }

  /** The selected box as unmerged intervals. */
  ghost predicate IsBox(axes: seq<Axis>, sel: seq<Select>, ranges: seq<Range>)
    requires |sel| <= |axes|
  {
    Ordered(ranges) && forall x :: Covers(ranges, x) <==> Selects(axes, sel, x)
  }

  ghost predicate Fits(axes: seq<Axis>, sel: seq<Select>)
    requires |sel| <= |axes|
  {
    InBounds(axes, sel) && PieceCount(axes, sel) <= MAX_PIECES
  }

  lemma {:induction false} ExpandedAll(axes: seq<Axis>, sel: seq<Select>, ranges: seq<Range>)
    requires |sel| <= |axes| && Expanded(axes, sel, |sel|, ranges)
    ensures PieceCount(axes, sel) <= MAX_PIECES
  {
    assert sel[|sel|..] == [];
  }

  /** No axis is selected any more: the rest is taken whole. */
  method TakeUnselected(axes: seq<Axis>, selected: seq<Select>, ranges: seq<Range>, total: int)
    returns (out: seq<Range>)
    requires |selected| < |axes| && Expanded(axes, selected, |selected|, ranges) && total == Size(axes[|selected|..])
    ensures Fits(axes, selected) && IsBox(axes, selected, out)
  {
    out := Widen(ranges, 0, total - 1);
    ExpandedAll(axes, selected, ranges);
    UnselectedEnd(axes, selected, ranges, out);
  }

  /** This axis is the last that is not whole: one interval for each point. */
  method TakeTrailing(axes: seq<Axis>, selected: seq<Select>, axis: nat, stride: int, ranges: seq<Range>)
    returns (out: seq<Range>)
    requires axis < |selected| <= |axes| && Expanded(axes, selected, axis, ranges) && stride == Size(axes[axis + 1..])
    requires 0 <= Low(axes[axis], selected[axis]) && High(axes[axis], selected[axis]) < axes[axis].Width()
    requires Whole(axes[axis + 1..], selected[axis + 1..])
    ensures Fits(axes, selected) && IsBox(axes, selected, out)
  {
    var low, high := Low(axes[axis], selected[axis]), High(axes[axis], selected[axis]);
    out := Widen(ranges, low * stride, (high + 1) * stride - 1);
    ExpandedTrailing(axes, selected, axis, ranges, out);
  }

  /** One point for each index of this axis, unless there are too many. */
  method ExpandAxis(axes: seq<Axis>, selected: seq<Select>, axis: nat, stride: int, ranges: seq<Range>)
    returns (result: Option<seq<Range>>)
    requires axis < |selected| <= |axes| && Expanded(axes, selected, axis, ranges) && stride == Size(axes[axis + 1..])
    requires 0 <= Low(axes[axis], selected[axis]) && High(axes[axis], selected[axis]) < axes[axis].Width()
    requires !Whole(axes[axis + 1..], selected[axis + 1..])
    ensures if result.Some? then Expanded(axes, selected, axis + 1, result.value)
            else PieceCount(axes, selected) > MAX_PIECES
  {
    var low, high := Low(axes[axis], selected[axis]), High(axes[axis], selected[axis]);
    var count := high - low + 1;
    ExpandedLimit(axes, selected, axis, ranges, count);
    if count > MAX_PIECES / |ranges| { return None; }
    var next := Spread(ranges, low, high, stride);
    ExpandedNext(axes, selected, axis, ranges, next, count);
    result := Some(next);
  }

  /** The unmerged intervals of the selected box. */
  method BoxRanges(axes: seq<Axis>, strides: seq<int>, size: int, selected: seq<Select>)
    returns (result: Option<seq<Range>>)
    requires |selected| <= |axes| == |strides| && size == Size(axes)
    requires forall a :: 0 <= a < |axes| ==> strides[a] == Size(axes[a + 1..])
    ensures result.Some? <==> Fits(axes, selected)
    ensures result.Some? ==> IsBox(axes, selected, result.value)
  {
    var ranges := [Range(0, 0)];
    var total := size;
    var axis := 0;
    assert axes[0..] == axes;
    ExpandedStart(axes, selected);
    while axis < |axes|
      invariant 0 <= axis <= |selected| && total == Size(axes[axis..])
      invariant Expanded(axes, selected, axis, ranges)
    {
      if axis >= |selected| {
        ranges := TakeUnselected(axes, selected, ranges, total);
        return Some(ranges);
      }
      if Low(axes[axis], selected[axis]) < 0 || High(axes[axis], selected[axis]) >= axes[axis].Width() { return None; }
      var trailing := TrailingWhole(axes, selected, axis);
      if trailing {
        ranges := TakeTrailing(axes, selected, axis, strides[axis], ranges);
        return Some(ranges);
      }
      var next := ExpandAxis(axes, selected, axis, strides[axis], ranges);
      if next.None? { return None; }
      ranges := next.value;
      total := strides[axis];
      axis := axis + 1;
    }
    ExpandedAll(axes, selected, ranges);
    AllAxesEnd(axes, selected, ranges);
    result := Some(ranges);
  }

  /** Every later selected axis is selected whole. */
  method TrailingWhole(axes: seq<Axis>, selected: seq<Select>, axis: nat) returns (whole: bool)
    requires axis < |selected| <= |axes|
    ensures whole <==> Whole(axes[axis + 1..], selected[axis + 1..])
  {
    whole := true;
    for next := axis + 1 to |selected|
      invariant whole <==> forall a :: axis < a < next ==> WholeAxis(axes[a], selected[a])
    {
      if !WholeAxis(axes[next], selected[next]) { whole := false; }
    }
    forall a | axis < a < |selected|
      ensures axes[a] == axes[axis + 1..][a - axis - 1] && selected[a] == selected[axis + 1..][a - axis - 1]
    {}
  }

  /** Member ranges moved to the parent's bits, or nothing past the supported coordinates. */
  method MemberRanges(ranges: seq<Range>, offset: nat) returns (result: Option<seq<Range>>)
    requires Ordered(ranges)
    ensures result.Some? <==> forall x :: Covers(ranges, x) ==> x + offset <= INT32_MAX
    ensures result.Some? ==>
              && Ordered(result.value)
              && forall x :: Covers(result.value, x) <==> Covers(ranges, x - offset)
  {
    var out := ranges;
    for i := 0 to |ranges|
      invariant |out| == |ranges|
      invariant forall j :: 0 <= j < i ==> out[j] == Move(ranges[j], offset) && out[j].hi <= INT32_MAX
      invariant forall j :: i <= j < |ranges| ==> out[j] == ranges[j]
    {
      if out[i].hi + offset > INT32_MAX {
        assert ranges[i] in ranges && Holds(ranges[i], ranges[i].hi);
        assert Covers(ranges, ranges[i].hi);
        return None;
      }
      out := out[i := Move(out[i], offset)];
    }
    MoveCovers(ranges, out, offset);
    forall x | Covers(ranges, x)
      ensures x + offset <= INT32_MAX
    {
      assert Covers(out, x + offset);
    }
    result := Some(out);
  }

  lemma {:induction false} MoveCovers(c: seq<Range>, d: seq<Range>, delta: int)
    requires |c| == |d| && Ordered(c)
    requires forall j :: 0 <= j < |c| ==> d[j] == Move(c[j], delta)
    ensures Ordered(d) && forall x :: Covers(d, x) <==> Covers(c, x - delta)
  {
    forall x
      ensures Covers(d, x) <==> Covers(c, x - delta)
    {
      if Covers(d, x) {
        var q :| q in d && Holds(q, x);
        var i :| 0 <= i < |d| && d[i] == q;
        assert c[i] in c && Holds(c[i], x - delta);
      }
      if Covers(c, x - delta) {
        var q :| q in c && Holds(q, x - delta);
        var i :| 0 <= i < |c| && c[i] == q;
        assert d[i] in d && Holds(d[i], x);
      }
    }
  }

  /**
   The coverage of `selected` on `owner`. It exists exactly for selectable requests, and then
   it is the canonical list of the ordinals of the selected box, moved by the member offset.
   */
  method PortOwnerSelection(row: Option<Owner>, selected: seq<Select>) returns (result: Option<seq<Range>>)
    ensures result.Some? <==> row.Some? && Selectable(row.value, selected)
    ensures result.Some? ==>
              && Canonical(result.value)
              && forall x :: Covers(result.value, x) <==>
                             Selects(row.value.axes, selected, x - row.value.Shift())
  {
    if row.None? || !row.value.verified { return None; }
    var owner := row.value;
    if |selected| > |owner.axes| { return None; }
    var strides := AxisStrides(owner);
    if strides.None? { return None; }
    var boxed := BoxRanges(owner.axes, strides.value.0, strides.value.1, selected);
    if boxed.None? { return None; }
    var ranges := boxed.value;
    if owner.memberOffset.Some? {
      var moved := MemberRanges(ranges, owner.memberOffset.value);
      if moved.None? { return None; }
      ranges := moved.value;
    }
    var canonical := NormalizeCoverage(ranges);
    result := Some(canonical);
  }

  lemma {:induction false} QuotientLimit(a: int, b: int, m: int)
    requires b >= 1 && m >= 0
    ensures a > m / b <==> a * b > m
  {
    QuotientBounds(m, b, m / b, m / b);
    Multiple(a - m / b, b);
    assert (a - m / b) * b == a * b - m / b * b;
    if a <= m / b {
      assert (m / b - a) * b >= 0;
    }
  }

  lemma {:induction false} PiecesGrow(a: int, b: int, c: int)
    requires a >= 1 && b >= 1 && c >= 1
    ensures a * (b * c) == (a * b) * c && (a * b) * c >= a * b >= 1
  {
    assert a * b >= 1;
    assert (a * b) * (c - 1) >= 0;
  }

  lemma {:induction false} TrailingInBounds(axes: seq<Axis>, sel: seq<Select>, k: nat)
    requires k < |sel| <= |axes| && InBounds(axes[..k], sel[..k])
    requires 0 <= Low(axes[k], sel[k]) && High(axes[k], sel[k]) < axes[k].Width()
    requires Whole(axes[k + 1..], sel[k + 1..])
    ensures InBounds(axes, sel) && InBounds(axes[k..], sel[k..])
  {
    forall a | 0 <= a < |sel|
      ensures 0 <= Low(axes[a], sel[a]) && High(axes[a], sel[a]) < axes[a].Width()
    {
      if a < k {
        assert axes[a] == axes[..k][a] && sel[a] == sel[..k][a];
      } else if a > k {
        assert axes[a] == axes[k + 1..][a - k - 1] && sel[a] == sel[k + 1..][a - k - 1];
        WholeAxisBounds(axes[a], sel[a]);
      }
    }
  }
}
