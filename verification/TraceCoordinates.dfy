/**
 Coordinate steps of a trace query: the index tuple of a flattened bit, and the projection
 of a selected owner domain through affine port routes.
 */
module TraceCoordinates {
  import opened Wrappers
  import opened Coverage
  import opened Coordinates
  import opened Division

  // ---------------------------------------------------------------------------
  // A flattened bit as an index tuple
  // ---------------------------------------------------------------------------

  function Point(indexes: seq<int>): (sel: seq<Select>)
    ensures |sel| == |indexes|
  {
    seq(|indexes|, a requires 0 <= a < |indexes| => (indexes[a], indexes[a]))
  }

  /** Exactly the requests that name one flattened bit of a packed fixed owner. */
  predicate FlatBit(axes: seq<Axis>, sel: seq<Select>) {
    && |sel| == 1 && axes != []
    && sel[0].0 == sel[0].1 && 0 <= sel[0].0 < Size(axes)
    && forall a :: a in axes ==> a.isFixed && a.isPacked
  }

  /** The declared indices of a flattened bit; reading them back selects that bit alone. */
  method FlatRewrite(axes: seq<Axis>, sel: seq<Select>) returns (result: Option<seq<int>>)
    ensures result.Some? <==> FlatBit(axes, sel)
    ensures result.Some? ==>
              && |result.value| == |axes|
              && InBounds(axes, Point(result.value))
              && forall x :: Selects(axes, Point(result.value), x) <==> x == sel[0].0
  {
    if |sel| != 1 || axes == [] { return None; }
    if sel[0].0 != sel[0].1 || sel[0].0 < 0 { return None; }
    var n, bit := |axes|, sel[0].0;
    var indexes := seq(n, _ => 0);
    ghost var offs: seq<int> := [];
    assert axes[n..] == [] && Size(axes[n..]) == 1;
    for axis := n downto 0
      invariant |indexes| == n
      invariant Spelled(axes, axis, offs, bit, sel[0].0)
      invariant forall a :: axis <= a < n ==> axes[a].isFixed && axes[a].isPacked
      invariant forall a :: axis <= a < n ==> indexes[a] == axes[a].Index(offs[a - axis])
    {
      var declared := axes[axis];
      if !declared.isFixed || !declared.isPacked {
        assert declared in axes;
        return None;
      }
      var width := declared.Width();
      indexes := indexes[axis := declared.right +
                         (if declared.left >= declared.right then bit % width else -(bit % width))];
      RewriteStep(axes, axis, offs, bit, sel[0].0);
      offs := [bit % width] + offs;
      bit := bit / width;
    }
    RewriteEnd(axes, offs, bit, sel[0].0);
    if bit != 0 { return None; }
    PointSelects(axes, indexes, offs);
    result := Some(indexes);
  }

  /** `flat` is `bit` whole blocks of the axes from `axis` on, plus the tuple `offs` inside one. */
  ghost predicate Spelled(axes: seq<Axis>, axis: nat, offs: seq<int>, bit: int, flat: int)
    requires axis <= |axes|
  {
    Tuple(axes[axis..], offs) && bit >= 0 && flat == bit * Size(axes[axis..]) + Ordinal(axes[axis..], offs)
  }

  lemma {:induction false} RewriteEnd(axes: seq<Axis>, offs: seq<int>, bit: int, flat: int)
    requires Spelled(axes, 0, offs, bit, flat)
    ensures Tuple(axes, offs)
    ensures bit == 0 ==> flat == Ordinal(axes, offs) < Size(axes)
    ensures bit != 0 ==> flat >= Size(axes)
  {
    assert axes[0..] == axes;
    OrdinalBounds(axes, offs);
    Multiple(bit, Size(axes));
  }

  lemma {:induction false} RewriteStep(axes: seq<Axis>, axis: nat, offs: seq<int>, bit: int, flat: int)
    requires axis < |axes| && Spelled(axes, axis + 1, offs, bit, flat)
    ensures Spelled(axes, axis, [bit % axes[axis].Width()] + offs, bit / axes[axis].Width(), flat)
  {
    var w, s := axes[axis].Width(), Size(axes[axis + 1..]);
    var all := [bit % w] + offs;
    assert axes[axis..][1..] == axes[axis + 1..] && all[1..] == offs;
    forall a | 0 <= a < |all|
      ensures 0 <= all[a] < axes[axis..][a].Width()
    {
      if a > 0 {
        assert axes[axis..][a] == axes[axis + 1..][a - 1];
      }
    }
    SplitProduct(bit, w, s);
  }

  lemma {:induction false} SplitProduct(bit: int, w: int, s: int)
    requires w >= 1 && bit >= 0
    ensures bit * s == bit / w * (w * s) + bit % w * s && bit / w >= 0
  {
    var q, r := bit / w, bit % w;
    assert bit == q * w + r;
    assert (q * w + r) * s == q * (w * s) + r * s;
  }

  /** Selecting the one tuple `offs` selects its ordinal and nothing else. */
  lemma {:induction false} PointSelects(axes: seq<Axis>, indexes: seq<int>, offs: seq<int>)
    requires Tuple(axes, offs) && |indexes| == |axes|
    requires forall a :: 0 <= a < |axes| ==> indexes[a] == axes[a].Index(offs[a])
    ensures InBounds(axes, Point(indexes))
    ensures forall x :: Selects(axes, Point(indexes), x) <==> x == Ordinal(axes, offs)
  {
    forall a | 0 <= a < |axes|
      ensures Low(axes[a], Point(indexes)[a]) == offs[a] == High(axes[a], Point(indexes)[a])
    {
      axes[a].OffsetIndex(offs[a]);
    }
    forall x
      ensures Selects(axes, Point(indexes), x) <==> x == Ordinal(axes, offs)
    {
      if Selects(axes, Point(indexes), x) {
        var other :| InBox(axes, Point(indexes), other) && Ordinal(axes, other) == x;
        assert other == offs;
      }
      if x == Ordinal(axes, offs) {
        assert InBox(axes, Point(indexes), offs);
      }
    }
  }

  // ---------------------------------------------------------------------------
  // Projection through routes
  // ---------------------------------------------------------------------------

  const MAX_ROUTE_PIECES: nat := 512

  /** Owner bits [ownerLow, ownerHigh] connect to `target` from bit `targetLow` upwards. */
  datatype Route = Route(ownerLow: int, ownerHigh: int, targetLow: int, target: nat)

  function Clip(r: Route, s: Range): Range {
    Range(if s.lo > r.ownerLow then s.lo else r.ownerLow, if s.hi < r.ownerHigh then s.hi else r.ownerHigh)
  }

  function Image(r: Route, s: Range): Range {
    Range(r.targetLow + Clip(r, s).lo - r.ownerLow, r.targetLow + Clip(r, s).hi - r.ownerLow)
  }

  predicate Meets(r: Route, s: Range) {
    Clip(r, s).lo <= Clip(r, s).hi
  }

  /** How many route and range pairs overlap. */
  function Hits(r: Route, selected: seq<Range>): (n: nat) {
    if selected == [] then 0
    else Hits(r, selected[..|selected| - 1]) + (if Meets(r, selected[|selected| - 1]) then 1 else 0)
  }

  function Pieces(routes: seq<Route>, selected: seq<Range>): nat {
    if routes == [] then 0 else Pieces(routes[..|routes| - 1], selected) + Hits(routes[|routes| - 1], selected)
  }

  /** Bit `y` of `target` is connected to a selected owner bit. */
  ghost predicate Reaches(routes: seq<Route>, selected: seq<Range>, target: nat, y: int) {
    exists r, s :: r in routes && s in selected && r.target == target && Meets(r, s) && Holds(Image(r, s), y)
  }

  /** Reaches says what a route means: owner bit `x` connects to bit `targetLow + x - ownerLow`. */
  lemma {:induction false} ReachesAffine(routes: seq<Route>, selected: seq<Range>, target: nat, y: int)
    ensures Reaches(routes, selected, target, y) <==>
            exists r, x :: r in routes && r.target == target && Covers(selected, x)
                           && r.ownerLow <= x <= r.ownerHigh && y == r.targetLow + (x - r.ownerLow)
  {
    if Reaches(routes, selected, target, y) {
      var r, s :| r in routes && s in selected && r.target == target && Meets(r, s) && Holds(Image(r, s), y);
      var x := y - r.targetLow + r.ownerLow;
      assert Holds(s, x);
      assert Covers(selected, x) && y == r.targetLow + (x - r.ownerLow);
    }
    if r, x :| r in routes && r.target == target && Covers(selected, x)
               && r.ownerLow <= x <= r.ownerHigh && y == r.targetLow + (x - r.ownerLow) {
      var s :| s in selected && Holds(s, x);
      assert Meets(r, s) && Holds(Image(r, s), y);
    }
  }

  datatype Target = Target(id: nat, ranges: seq<Range>)

  ghost predicate Distinct(targets: seq<Target>) {
    forall i, j :: 0 <= i < j < |targets| ==> targets[i].id != targets[j].id
  }

  /** Range `q` has been collected for `id`. */
  ghost predicate Collected(targets: seq<Target>, id: nat, q: Range) {
    exists i :: 0 <= i < |targets| && targets[i].id == id && q in targets[i].ranges
  }

  ghost predicate WellFormed(targets: seq<Target>) {
    && Distinct(targets)
    && forall i :: 0 <= i < |targets| ==> targets[i].ranges != [] && Ordered(targets[i].ranges)
  }

  method AddRange(targets: seq<Target>, id: nat, q: Range) returns (out: seq<Target>)
    requires WellFormed(targets) && q.lo <= q.hi
    ensures WellFormed(out)
    ensures forall t, p :: Collected(out, t, p) <==> Collected(targets, t, p) || (t == id && p == q)
  {
    var i := 0;
    while i < |targets| && targets[i].id != id
      invariant 0 <= i <= |targets|
      invariant forall j :: 0 <= j < i ==> targets[j].id != id
    {
      i := i + 1;
    }
    out := targets;
    if i == |targets| {
      out := out + [Target(id, [])];
    }
    ghost var grown := out[i].ranges + [q];
    out := out[i := Target(id, out[i].ranges + [q])];
    forall t, p
      ensures Collected(out, t, p) <==> Collected(targets, t, p) || (t == id && p == q)
    {
      if Collected(out, t, p) {
        var j :| 0 <= j < |out| && out[j].id == t && p in out[j].ranges;
        if j < |targets| && j != i {
          assert targets[j] == out[j];
        }
      }
      if Collected(targets, t, p) {
        var j :| 0 <= j < |targets| && targets[j].id == t && p in targets[j].ranges;
        assert out[j].id == t && p in out[j].ranges;
      }
      assert out[i].id == id && q in out[i].ranges;
    }
  }

  ghost predicate HitBy(routes: seq<Route>, selected: seq<Range>, id: nat, q: Range) {
    exists r, s :: r in routes && s in selected && r.target == id && Meets(r, s) && q == Image(r, s)
  }

  /**
   The target domains of a selected owner domain: one canonical coverage for every target that
   some selected bit reaches, or nothing past the piece cap.
   */
  method ProjectRoutes(routes: seq<Route>, selected: seq<Range>) returns (result: Option<seq<Target>>)
    ensures result.Some? <==> Pieces(routes, selected) <= MAX_ROUTE_PIECES
    ensures result.Some? ==>
              && Distinct(result.value)
              && (forall i :: 0 <= i < |result.value| ==>
                    && Canonical(result.value[i].ranges) && result.value[i].ranges != []
                    && forall y :: Covers(result.value[i].ranges, y) <==>
                           Reaches(routes, selected, result.value[i].id, y))
              && forall t, y :: Reaches(routes, selected, t, y) ==>
                     exists i :: 0 <= i < |result.value| && result.value[i].id == t
  {
    var targets: seq<Target> := [];
    var pieces := 0;
    for i := 0 to |routes|
      invariant WellFormed(targets) && pieces == Pieces(routes[..i], selected) <= MAX_ROUTE_PIECES
      invariant forall t, q :: Collected(targets, t, q) <==> HitBy(routes[..i], selected, t, q)
    {
      assert routes[..i + 1][..i] == routes[..i] && routes[..i + 1] == routes[..i] + [routes[i]];
      var added := ProjectRoute(routes[i], selected, targets, pieces);
      PiecesGrow(routes, selected, i + 1);
      if added.None? { return None; }
      RouteStep(routes[..i], routes[i], selected);
      targets, pieces := added.value.0, added.value.1;
    }
    assert routes[..|routes|] == routes;
    TargetsReach(routes, selected, targets);
    var merged := MergeTargets(targets);
    result := Some(merged);
  }

  /** One route against every selected range, unless the piece cap is passed. */
  method ProjectRoute(r: Route, selected: seq<Range>, before: seq<Target>, counted: nat)
    returns (result: Option<(seq<Target>, nat)>)
    requires WellFormed(before) && counted <= MAX_ROUTE_PIECES
    ensures result.Some? <==> counted + Hits(r, selected) <= MAX_ROUTE_PIECES
    ensures result.Some? ==>
              && WellFormed(result.value.0) && result.value.1 == counted + Hits(r, selected)
              && forall t, q :: Collected(result.value.0, t, q) <==>
                     Collected(before, t, q) || HitBy([r], selected, t, q)
  {
    var targets, pieces := before, counted;
    for j := 0 to |selected|
      invariant WellFormed(targets) && pieces == counted + Hits(r, selected[..j]) <= MAX_ROUTE_PIECES
      invariant forall t, q :: Collected(targets, t, q) <==> Collected(before, t, q) || HitBy([r], selected[..j], t, q)
    {
      var s := selected[j];
      assert selected[..j + 1][..j] == selected[..j] && selected[..j + 1] == selected[..j] + [s];
      HitStep(r, selected[..j], s);
      if !Meets(r, s) { continue; }
      pieces := pieces + 1;
      if pieces > MAX_ROUTE_PIECES {
        HitsGrow(r, selected, j + 1);
        return None;
      }
      targets := AddRange(targets, r.target, Image(r, s));
    }
    assert selected[..|selected|] == selected;
    result := Some((targets, pieces));
  }

  /** Every target's ranges sorted and merged. */
  method MergeTargets(collected: seq<Target>) returns (targets: seq<Target>)
    requires WellFormed(collected)
    ensures |targets| == |collected|
    ensures forall i :: 0 <= i < |targets| ==>
              && targets[i].id == collected[i].id && Canonical(targets[i].ranges) && targets[i].ranges != []
              && forall y :: Covers(targets[i].ranges, y) <==> Covers(collected[i].ranges, y)
  {
    targets := collected;
    for k := 0 to |targets|
      invariant |targets| == |collected|
      invariant forall i :: k <= i < |targets| ==> targets[i] == collected[i]
      invariant forall i :: 0 <= i < k ==>
                  && targets[i].id == collected[i].id && Canonical(targets[i].ranges) && targets[i].ranges != []
                  && forall y :: Covers(targets[i].ranges, y) <==> Covers(collected[i].ranges, y)
    {
      var merged := MergeRanges(targets[k].ranges);
      targets := targets[k := Target(targets[k].id, merged)];
    }
  }

  method MergeRanges(ranges: seq<Range>) returns (merged: seq<Range>)
    requires ranges != [] && Ordered(ranges)
    ensures Canonical(merged) && merged != []
    ensures forall y :: Covers(merged, y) <==> Covers(ranges, y)
  {
    var sorted := SortRanges(ranges);
    assert forall q :: q in sorted ==> q in multiset(ranges);
    merged := MergeSorted(sorted);
    forall y
      ensures Covers(merged, y) <==> Covers(ranges, y)
    {
      PermutationCovers(sorted, ranges, y);
    }
    assert Holds(ranges[0], ranges[0].lo) && Covers(ranges, ranges[0].lo);
    assert Covers(merged, ranges[0].lo);
  }

  lemma {:induction false} RouteStep(routes: seq<Route>, r: Route, selected: seq<Range>)
    ensures forall t, q :: HitBy(routes + [r], selected, t, q) <==>
                           HitBy(routes, selected, t, q) || HitBy([r], selected, t, q)
  {
    forall t, q
      ensures HitBy(routes + [r], selected, t, q) <==> HitBy(routes, selected, t, q) || HitBy([r], selected, t, q)
    {
      assert forall p :: p in routes + [r] <==> p in routes || p in [r];
    }
  }

  lemma {:induction false} HitStep(r: Route, selected: seq<Range>, s: Range)
    ensures forall t, q :: HitBy([r], selected + [s], t, q) <==>
                           HitBy([r], selected, t, q) || (Meets(r, s) && t == r.target && q == Image(r, s))
  {
    forall t, q
      ensures HitBy([r], selected + [s], t, q) <==>
              HitBy([r], selected, t, q) || (Meets(r, s) && t == r.target && q == Image(r, s))
    {
      assert r in [r] && s in selected + [s];
      assert forall p :: p in selected + [s] <==> p in selected || p == s;
    }
  }

  lemma {:induction false} HitsGrow(r: Route, selected: seq<Range>, k: nat)
    requires k <= |selected|
    ensures Hits(r, selected[..k]) <= Hits(r, selected)
    decreases |selected|
  {
    if k < |selected| {
      HitsGrow(r, selected[..|selected| - 1], k);
      assert selected[..|selected| - 1][..k] == selected[..k];
    } else {
      assert selected[..k] == selected;
    }
  }

  lemma {:induction false} PiecesGrow(routes: seq<Route>, selected: seq<Range>, k: nat)
    requires k <= |routes|
    ensures Pieces(routes[..k], selected) <= Pieces(routes, selected)
    decreases |routes|
  {
    if k < |routes| {
      PiecesGrow(routes[..|routes| - 1], selected, k);
      assert routes[..|routes| - 1][..k] == routes[..k];
    } else {
      assert routes[..k] == routes;
    }
  }

  lemma {:induction false} TargetsReach(routes: seq<Route>, selected: seq<Range>, targets: seq<Target>)
    requires WellFormed(targets)
    requires forall t, q :: Collected(targets, t, q) <==> HitBy(routes, selected, t, q)
    ensures forall i :: 0 <= i < |targets| ==>
              forall y :: Covers(targets[i].ranges, y) <==> Reaches(routes, selected, targets[i].id, y)
    ensures forall t, y :: Reaches(routes, selected, t, y) ==> exists i :: 0 <= i < |targets| && targets[i].id == t
  {
    forall i, y | 0 <= i < |targets|
      ensures Covers(targets[i].ranges, y) <==> Reaches(routes, selected, targets[i].id, y)
    {
      if Covers(targets[i].ranges, y) {
        var q :| q in targets[i].ranges && Holds(q, y);
        assert Collected(targets, targets[i].id, q);
      }
      if Reaches(routes, selected, targets[i].id, y) {
        var r, s :| r in routes && s in selected && r.target == targets[i].id && Meets(r, s) && Holds(Image(r, s), y);
        assert HitBy(routes, selected, targets[i].id, Image(r, s));
        assert Collected(targets, targets[i].id, Image(r, s));
      }
    }
    forall t, y | Reaches(routes, selected, t, y)
      ensures exists i :: 0 <= i < |targets| && targets[i].id == t
    {
      var r, s :| r in routes && s in selected && r.target == t && Meets(r, s) && Holds(Image(r, s), y);
      assert HitBy(routes, selected, t, Image(r, s));
      assert Collected(targets, t, Image(r, s));
    }
  }
}
