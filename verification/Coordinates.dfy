/**
 Declared axes, row-major ordinals of index tuples, and the coverage of a selection.
 */
module Coordinates {
  import opened Division


  /** One declared dimension `[left:right]`, ascending or descending. */
  datatype Axis = Axis(left: int, right: int, isFixed: bool, isPacked: bool) {
    function Width(): (w: nat)
      ensures w >= 1
    {
      (if left >= right then left - right else right - left) + 1
    }

    /** Position of declared index `i`, counted from the rightmost element. */
    function Offset(i: int): int {
      if left >= right then i - right else right - i
    }

    /** Declared index of the element at position `offset`. */
    function Index(offset: int): int {
      if left >= right then right + offset else right - offset
    }

    lemma {:induction false} OffsetIndex(x: int)
      ensures Offset(Index(x)) == x && Index(Offset(x)) == x
      ensures 0 <= Offset(x) < Width() <==> (left <= x <= right || right <= x <= left)
    {}

    /** The right end is at 0, and positions count up toward the left end. */
    lemma {:induction false} OffsetsFromRight(x: int)
      ensures Offset(right) == 0 && Offset(left) == Width() - 1
      ensures Offset(if left >= right then x + 1 else x - 1) == Offset(x) + 1
    {}
  }

  type Select = (int, int)

  function Low(axis: Axis, s: Select): int {
    if axis.Offset(s.0) < axis.Offset(s.1) then axis.Offset(s.0) else axis.Offset(s.1)
  }

  function High(axis: Axis, s: Select): int {
    if axis.Offset(s.0) < axis.Offset(s.1) then axis.Offset(s.1) else axis.Offset(s.0)
  }

  /** Number of elements, the product of the widths. */
  function Size(axes: seq<Axis>): (n: nat)
    ensures n >= 1
  {
    if axes == [] then 1 else axes[0].Width() * Size(axes[1..])
  }

  predicate Tuple(axes: seq<Axis>, offs: seq<int>) {
    |offs| == |axes| && forall a :: 0 <= a < |axes| ==> 0 <= offs[a] < axes[a].Width()
  }

  /** Row-major position of an offset tuple; the last axis varies fastest. */
  function Ordinal(axes: seq<Axis>, offs: seq<int>): int
    requires |offs| == |axes|
  {
    if axes == [] then 0 else offs[0] * Size(axes[1..]) + Ordinal(axes[1..], offs[1..])
  }

  /** Moving along one axis moves the ordinal by the size of all later axes; along the last one, by one. */
  lemma {:induction false} OrdinalMoves(axes: seq<Axis>, offs: seq<int>, a: nat, d: int)
    requires |offs| == |axes| && a < |axes|
    ensures Ordinal(axes, offs[a := offs[a] + d]) == Ordinal(axes, offs) + d * Size(axes[a + 1..])
  {
    var moved := offs[a := offs[a] + d];
    if a == 0 {
      assert moved[1..] == offs[1..];
      assert (offs[0] + d) * Size(axes[1..]) == offs[0] * Size(axes[1..]) + d * Size(axes[1..]);
    } else {
      assert moved[1..] == offs[1..][a - 1 := offs[a] + d];
      assert axes[1..][a..] == axes[a + 1..];
      OrdinalMoves(axes[1..], offs[1..], a - 1, d);
    }
  }

  /** The tuple at a row-major position; the inverse of Ordinal. */
  function Digits(axes: seq<Axis>, x: int): (offs: seq<int>)
    ensures |offs| == |axes|
  {
    if axes == [] then [] else [x / Size(axes[1..])] + Digits(axes[1..], x % Size(axes[1..]))
  }

  lemma {:induction false} OrdinalBounds(axes: seq<Axis>, offs: seq<int>)
    requires Tuple(axes, offs)
    ensures 0 <= Ordinal(axes, offs) < Size(axes)
  {
    if axes != [] {
      var s, w := Size(axes[1..]), axes[0].Width();
      assert Tuple(axes[1..], offs[1..]);
      OrdinalBounds(axes[1..], offs[1..]);
      ScaledBounds(offs[0], s, Ordinal(axes[1..], offs[1..]), 0, w - 1);
    }
  }

  lemma {:induction false} ScaledBounds(o: int, s: int, y: int, low: int, high: int)
    requires low <= o <= high && 0 <= y < s
    ensures low * s <= o * s + y <= (high + 1) * s - 1
  {
    assert low * s <= o * s by { assert (o - low) * s >= 0; }
    assert o * s <= high * s by { assert (high - o) * s >= 0; }
  }

  lemma {:induction false} OrdinalDigits(axes: seq<Axis>, x: int)
    requires 0 <= x < Size(axes)
    ensures Tuple(axes, Digits(axes, x)) && Ordinal(axes, Digits(axes, x)) == x
  {
    if axes != [] {
      var s := Size(axes[1..]);
      QuotientBounds(x, s, 0, axes[0].Width() - 1);
      OrdinalDigits(axes[1..], x % s);
      assert Digits(axes, x)[1..] == Digits(axes[1..], x % s);
      forall a | 0 <= a < |axes|
        ensures 0 <= Digits(axes, x)[a] < axes[a].Width()
      {
        if a > 0 {
          assert Digits(axes, x)[a] == Digits(axes[1..], x % s)[a - 1];
        }
      }
    }
  }

  lemma {:induction false} DigitsOrdinal(axes: seq<Axis>, offs: seq<int>)
    requires Tuple(axes, offs)
    ensures Digits(axes, Ordinal(axes, offs)) == offs
  {
    if axes != [] {
      var s, y := Size(axes[1..]), Ordinal(axes[1..], offs[1..]);
      assert Tuple(axes[1..], offs[1..]);
      OrdinalBounds(axes[1..], offs[1..]);
      DigitsOrdinal(axes[1..], offs[1..]);
      assert (offs[0] * s + y) / s == offs[0] && (offs[0] * s + y) % s == y by { QuotientOf(offs[0], s, y); }
      assert offs == [offs[0]] + offs[1..];
    }
  }

  // ---------------------------------------------------------------------------
  // The bits of a selection
  // ---------------------------------------------------------------------------

  /** `offs` lies in the selected box; axes past the selection are whole. */
  ghost predicate InBox(axes: seq<Axis>, sel: seq<Select>, offs: seq<int>)
    requires |sel| <= |axes|
  {
    && Tuple(axes, offs)
    && forall a :: 0 <= a < |sel| ==> Low(axes[a], sel[a]) <= offs[a] <= High(axes[a], sel[a])
  }

  /** `x` is the row-major ordinal of a tuple in the selected box. */
  ghost predicate Selects(axes: seq<Axis>, sel: seq<Select>, x: int)
    requires |sel| <= |axes|
  {
    exists offs :: InBox(axes, sel, offs) && Ordinal(axes, offs) == x
  }

  predicate InBounds(axes: seq<Axis>, sel: seq<Select>)
    requires |sel| <= |axes|
  {
    forall a :: 0 <= a < |sel| ==> 0 <= Low(axes[a], sel[a]) && High(axes[a], sel[a]) < axes[a].Width()
  }

  predicate WholeAxis(axis: Axis, s: Select) {
    && (if s.0 < s.1 then s.0 else s.1) == (if axis.left < axis.right then axis.left else axis.right)
    && (if s.0 < s.1 then s.1 else s.0) == (if axis.left < axis.right then axis.right else axis.left)
  }

  predicate Whole(axes: seq<Axis>, sel: seq<Select>)
    requires |sel| <= |axes|
  {
    forall a :: 0 <= a < |sel| ==> WholeAxis(axes[a], sel[a])
  }

  lemma {:induction false} WholeAxisBounds(axis: Axis, s: Select)
    ensures WholeAxis(axis, s) <==> Low(axis, s) == 0 && High(axis, s) == axis.Width() - 1
  {}

  /** `x` is selected with position `o` on the outermost axis. */
  ghost predicate SelectsAt(axes: seq<Axis>, sel: seq<Select>, x: int, o: int)
    requires 0 < |sel| <= |axes|
  {
    Low(axes[0], sel[0]) <= o <= High(axes[0], sel[0]) && Selects(axes[1..], sel[1..], x - o * Size(axes[1..]))
  }

  /** Peeling the outermost selected axis. */
  lemma {:induction false} SelectsSplit(axes: seq<Axis>, sel: seq<Select>, x: int)
    requires 0 < |sel| <= |axes| && InBounds(axes, sel)
    ensures Selects(axes, sel, x) <==> exists o :: SelectsAt(axes, sel, x, o)
  {
    if Selects(axes, sel, x) {
      var offs :| InBox(axes, sel, offs) && Ordinal(axes, offs) == x;
      assert InBox(axes[1..], sel[1..], offs[1..]);
      assert SelectsAt(axes, sel, x, offs[0]);
    }
    if o :| SelectsAt(axes, sel, x, o) {
      var offs :| InBox(axes[1..], sel[1..], offs) && Ordinal(axes[1..], offs) == x - o * Size(axes[1..]);
      var all := [o] + offs;
      assert all[1..] == offs;
      forall a | 0 <= a < |axes|
        ensures 0 <= all[a] < axes[a].Width()
        ensures a < |sel| ==> Low(axes[a], sel[a]) <= all[a] <= High(axes[a], sel[a])
      {
        if a > 0 {
          assert axes[a] == axes[1..][a - 1] && all[a] == offs[a - 1];
          assert a < |sel| ==> sel[a] == sel[1..][a - 1];
        }
      }
      assert InBox(axes, sel, all) && Ordinal(axes, all) == x;
    }
  }

  /** A whole selection covers every ordinal. */
  lemma {:induction false} SelectsWhole(axes: seq<Axis>, sel: seq<Select>, x: int)
    requires |sel| <= |axes| && Whole(axes, sel)
    ensures Selects(axes, sel, x) <==> 0 <= x < Size(axes)
  {
    if Selects(axes, sel, x) {
      var offs :| InBox(axes, sel, offs) && Ordinal(axes, offs) == x;
      OrdinalBounds(axes, offs);
    }
    if 0 <= x < Size(axes) {
      OrdinalDigits(axes, x);
      forall a | 0 <= a < |sel| { WholeAxisBounds(axes[a], sel[a]); }
      assert InBox(axes, sel, Digits(axes, x));
    }
  }

  /** One axis is cut and everything after it is whole: the box is one interval. */
  lemma {:induction false} SelectsInterval(axes: seq<Axis>, sel: seq<Select>, x: int)
    requires 0 < |sel| <= |axes| && InBounds(axes, sel) && Whole(axes[1..], sel[1..])
    ensures var s := Size(axes[1..]);
            Selects(axes, sel, x) <==>
            Low(axes[0], sel[0]) * s <= x <= (High(axes[0], sel[0]) + 1) * s - 1
  {
    var s, low, high := Size(axes[1..]), Low(axes[0], sel[0]), High(axes[0], sel[0]);
    SelectsSplit(axes, sel, x);
    if Selects(axes, sel, x) {
      var o :| SelectsAt(axes, sel, x, o);
      SelectsWhole(axes[1..], sel[1..], x - o * s);
      ScaledBounds(o, s, x - o * s, low, high);
    }
    if low * s <= x <= (high + 1) * s - 1 {
      var o := x / s;
      QuotientBounds(x, s, low, high);
      SelectsWhole(axes[1..], sel[1..], x - o * s);
      assert SelectsAt(axes, sel, x, o);
    }
  }
}
