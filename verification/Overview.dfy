/** The waveform overview: a window cut into stable and flipping segments. */
module Overview {
  import opened VirtualTransitions

  /** Transition times strictly increase inside the window. */
  ghost predicate InWindow(h: History, start: int, end: int) {
    && (forall i :: 0 <= i < |h| ==> start <= h[i].t <= end)
    && (forall i, j :: 0 <= i < j < |h| ==> h[i].t < h[j].t)
  }

  /** The waveform's value: that of the last transition, or the value the window starts with. */
  function ValueIn(h: History, startValue: Raw, t: int): Raw {
    if UpTo(h, t) == 0 then startValue else h[UpTo(h, t) - 1].v
  }

  lemma {:induction false} ValueAfter(h: History, startValue: Raw, start: int, end: int, k: nat, t: int)
    requires InWindow(h, start, end) && k <= |h|
    requires (k > 0 ==> h[k - 1].t <= t) && (k < |h| ==> t < h[k].t)
    ensures UpTo(h, t) == k
    ensures ValueIn(h, startValue, t) == if k == 0 then startValue else h[k - 1].v
  {
    UpToSplits(h, t);
    assert k > 0 ==> (k - 1 < UpTo(h, t) <==> h[k - 1].t <= t);
    assert k < |h| ==> (k < UpTo(h, t) <==> h[k].t <= t);
  }

  // ---------------------------------------------------------------------------
  // Segments
  // ---------------------------------------------------------------------------

  datatype Segment =
    | Stable(start: int, end: int, value: Raw)
    | Flipping(start: int, end: int, transitions: nat, unique: nat)

  /** Transition k and the next are closer than the resolution. */
  predicate Close(h: History, r: int, k: int)
    requires 0 <= k && k + 1 < |h|
  {
    h[k].t <= h[k + 1].t && h[k + 1].t - h[k].t < r
  }

  /** `t` lies between two close transitions. */
  ghost predicate Busy(h: History, r: int, t: int) {
    exists k :: 0 <= k && k + 1 < |h| && h[k].t <= t < h[k + 1].t && Close(h, r, k)
  }

  /** A maximal run of close transitions. */
  ghost predicate Burst(h: History, r: int, i: int, j: int) {
    && 0 <= i < j < |h|
    && (forall k :: i <= k < j ==> Close(h, r, k))
    && (i == 0 || !Close(h, r, i - 1))
    && (j == |h| - 1 || !Close(h, r, j))
  }

  /** The distinct values from just before transition i up to transition j. */
  function ValuesSeen(h: History, startValue: Raw, i: int, j: int): set<Raw>
    requires 0 <= i <= j < |h|
  {
    {if i == 0 then startValue else h[i - 1].v} + set k | i <= k <= j :: h[k].v
  }

  ghost predicate Flips(seg: Segment, h: History, startValue: Raw, r: int, width: int, i: int, j: int)
    requires seg.Flipping? && 0 <= i < j < |h|
  {
    && Burst(h, r, i, j)
    && seg.start == h[i].t && seg.end == h[j].t - 1
    && seg.transitions == j - i + 1
    && seg.unique == if width <= 1 then 0 else |ValuesSeen(h, startValue, i, j)|
  }

  /** A stable segment has one value and is never busy; a flipping one is a maximal burst. */
  ghost predicate Right(seg: Segment, h: History, startValue: Raw, r: int, width: int) {
    && seg.start <= seg.end
    && match seg
       case Stable(start, end, value) =>
         forall t :: start <= t <= end ==> ValueIn(h, startValue, t) == value && !Busy(h, r, t)
       case Flipping(_, _, _, _) =>
         exists i, j :: 0 <= i < j < |h| && Flips(seg, h, startValue, r, width, i, j)
  }

  /** The segments lie end to end from `start` to `end`. */
  ghost predicate Tiled(segments: seq<Segment>, start: int, end: int) {
    && (if segments == [] then start == end + 1 else segments[0].start == start && segments[|segments| - 1].end == end)
    && (forall i, j :: 0 <= i && j == i + 1 && j < |segments| ==> segments[j].start == segments[i].end + 1)
    && (forall i :: 0 <= i < |segments| ==> segments[i].start <= segments[i].end)
  }

  /** Every time of a flipping segment lies between two close transitions. */
  lemma {:induction false} FlippingIsBusy(seg: Segment, h: History, startValue: Raw, r: int, width: int, t: int)
    requires Right(seg, h, startValue, r, width) && seg.Flipping? && seg.start <= t <= seg.end
    ensures Busy(h, r, t)
  {
    var i, j :| 0 <= i < j < |h| && Flips(seg, h, startValue, r, width, i, j);
    BurstIsBusy(h, r, i, j, t);
  }

  lemma {:induction false} BurstIsBusy(h: History, r: int, i: int, j: int, t: int)
    requires 0 <= i < j < |h| && (forall k :: i <= k < j ==> Close(h, r, k)) && h[i].t <= t < h[j].t
    ensures Busy(h, r, t)
    decreases j - i
  {
    assert Close(h, r, i);
    if h[i + 1].t <= t {
      BurstIsBusy(h, r, i + 1, j, t);
    }
  }

  /** Tiled segments cover every time of the window exactly once. */
  lemma {:induction false} TiledCovers(segments: seq<Segment>, start: int, end: int, t: int) returns (i: nat)
    requires Tiled(segments, start, end) && start <= t <= end
    ensures i < |segments| && segments[i].start <= t <= segments[i].end
    ensures forall k :: 0 <= k < |segments| && segments[k].start <= t <= segments[k].end ==> k == i
  {
    var rest := segments[1..];
    if t <= segments[0].end {
      i := 0;
      forall k | 0 < k < |segments|
        ensures segments[0].end < segments[k].start
      {
        TiledOrder(segments, start, end, 0, k);
      }
    } else {
      assert segments[1].start == segments[0].end + 1;
      assert forall k :: 0 <= k < |rest| ==> rest[k] == segments[k + 1];
      assert Tiled(rest, segments[0].end + 1, end);
      var k := TiledCovers(rest, segments[0].end + 1, end, t);
      i := k + 1;
    }
  }

  lemma {:induction false} TiledOrder(segments: seq<Segment>, start: int, end: int, i: nat, k: nat)
    requires Tiled(segments, start, end) && i < k < |segments|
    ensures segments[i].end < segments[k].start
  {
    if i + 1 < k {
      TiledOrder(segments, start, end, i, k - 1);
      assert segments[k].start == segments[k - 1].end + 1;
    } else {
      assert segments[k].start == segments[i].end + 1;
    }
  }

  /**
   By distance alone: around a time of a stable segment consecutive transitions are at least the
   resolution apart, and around a time of a flipping one they are closer.
   */
  lemma {:induction false} SegmentsByDistance(seg: Segment, h: History, startValue: Raw, start: int, end: int, r: int,
                                              width: int, k: nat, t: int)
    requires InWindow(h, start, end) && Right(seg, h, startValue, r, width) && seg.start <= t <= seg.end
    requires k + 1 < |h| && h[k].t <= t < h[k + 1].t
    ensures seg.Flipping? <==> h[k + 1].t - h[k].t < r
  {
    BusyByDistance(h, start, end, r, k, t);
    if seg.Flipping? {
      FlippingIsBusy(seg, h, startValue, r, width, t);
    }
  }

  lemma {:induction false} BusyByDistance(h: History, start: int, end: int, r: int, k: nat, t: int)
    requires InWindow(h, start, end) && k + 1 < |h| && h[k].t <= t < h[k + 1].t
    ensures Busy(h, r, t) <==> h[k + 1].t - h[k].t < r
  {
    if Busy(h, r, t) {
      var m :| 0 <= m && m + 1 < |h| && h[m].t <= t < h[m + 1].t && Close(h, r, m);
      ValueAfter(h, h[0].v, start, end, m + 1, t);
      ValueAfter(h, h[0].v, start, end, k + 1, t);
    } else {
      assert !Close(h, r, k);
    }
  }

  // ---------------------------------------------------------------------------
  // How many segments
  // ---------------------------------------------------------------------------

  /** The gap after transition k continues the flipping segment of the gap before it. */
  predicate Joined(h: History, r: int, k: int)
    requires 0 <= k && k + 1 < |h|
  {
    k > 0 && Close(h, r, k) && Close(h, r, k - 1)
  }

  /** Segments that end at or before transition `n`: one per gap that does not join the one before. */
  function Before(h: History, start: int, r: int, n: nat): nat
    requires n <= |h|
  {
    if n == 0 then 0
    else if n == 1 then (if start < h[0].t then 1 else 0)
    else Before(h, start, r, n - 1) + if Joined(h, r, n - 2) then 0 else 1
  }

  function SegmentCount(h: History, start: int, end: int, r: int): nat {
    if h == [] then (if start <= end then 1 else 0) else Before(h, start, r, |h|) + 1
  }

  /** A coarser resolution never gives more segments. */
  lemma {:induction false} CoarserIsFewer(h: History, start: int, end: int, r: int, q: int)
    requires r <= q
    ensures SegmentCount(h, start, end, q) <= SegmentCount(h, start, end, r)
  {
    CoarserBefore(h, start, r, q, |h|);
  }

  lemma {:induction false} CoarserBefore(h: History, start: int, r: int, q: int, n: nat)
    requires r <= q && n <= |h|
    ensures Before(h, start, q, n) <= Before(h, start, r, n)
  {
    if n > 1 {
      CoarserBefore(h, start, r, q, n - 1);
      assert Joined(h, r, n - 2) ==> Joined(h, q, n - 2);
    }
  }

  /** At a resolution of the whole span everything joins: at most three segments are left. */
  lemma {:induction false} SpanIsCoarse(h: History, start: int, end: int, n: nat)
    requires InWindow(h, start, end) && n <= |h|
    ensures Before(h, start, end - start + 1, n) <= 2
    ensures n <= 1 ==> Before(h, start, end - start + 1, n) <= 1
  {
    if n > 1 {
      SpanIsCoarse(h, start, end, n - 1);
    }
  }

  /** A burst adds one segment, whatever its length. */
  lemma {:induction false} BurstAddsOne(h: History, start: int, r: int, i: nat, j: nat)
    requires i < j < |h| && (forall k :: i <= k < j ==> Close(h, r, k)) && (i == 0 || !Close(h, r, i - 1))
    ensures Before(h, start, r, j + 1) == Before(h, start, r, i + 1) + 1
    decreases j
  {
    if i + 1 < j {
      BurstAddsOne(h, start, r, i, j - 1);
      assert Close(h, r, j - 1) && Close(h, r, j - 2);
    } else {
      assert !Joined(h, r, i);
    }
  }

  /** The last transition of the run of close transitions that starts at i. */
  method BurstEnd(h: History, r: int, i: nat) returns (j: nat)
    requires i + 1 < |h| && Close(h, r, i)
    ensures i < j < |h| && (forall k :: i <= k < j ==> Close(h, r, k)) && (j == |h| - 1 || !Close(h, r, j))
  {
    j := i + 1;
    while j + 1 < |h| && Close(h, r, j)
      invariant i < j < |h| && forall k :: i <= k < j ==> Close(h, r, k)
    {
      j := j + 1;
    }
  }

  /** The estimator: counts what the builder would build. */
  method EstimatedSegmentCount(h: History, start: int, end: int, r: int) returns (count: nat)
    requires InWindow(h, start, end)
    ensures count == SegmentCount(h, start, end, r)
  {
    count := 0;
    var cursor := start;
    var i := 0;
    while i < |h|
      invariant i <= |h| && count == Before(h, start, r, i)
      invariant cursor == if i == 0 then start else h[i - 1].t
      invariant 0 < i < |h| ==> !Close(h, r, i - 1)
    {
      var t := h[i].t;
      if cursor < t {
        count := count + 1;
      }
      assert count == Before(h, start, r, i + 1);
      if i + 1 < |h| && Close(h, r, i) {
        var j := BurstEnd(h, r, i);
        BurstAddsOne(h, start, r, i, j);
        count := count + 1;
        cursor := h[j].t;
        if cursor <= t {
          cursor := cursor + 1;
        }
        i := j + 1;
      } else {
        cursor := t;
        i := i + 1;
      }
    }
    if cursor <= end {
      count := count + 1;
    }
  }

  const TargetSegments: nat := 20

  /** The least resolution that gives at most 20 segments. */
  method ChooseAutoResolution(h: History, start: int, end: int) returns (r: int)
    requires InWindow(h, start, end)
    ensures r >= 1 && SegmentCount(h, start, end, r) <= TargetSegments
    ensures forall q :: 1 <= q < r ==> SegmentCount(h, start, end, q) > TargetSegments
  {
    if h == [] {
      return 1;
    }
    var span := if end - start + 1 > 1 then end - start + 1 else 1;
    var low, high := 1, span;
    SpanIsCoarse(h, start, end, |h|);
    var count := EstimatedSegmentCount(h, start, end, low);
    if count <= TargetSegments {
      return low;
    }
    while low < high
      invariant 1 <= low <= high
      invariant SegmentCount(h, start, end, high) <= TargetSegments
      invariant forall q :: 1 <= q < low ==> SegmentCount(h, start, end, q) > TargetSegments
    {
      var mid := low + (high - low) / 2;
      count := EstimatedSegmentCount(h, start, end, mid);
      if count <= TargetSegments {
        high := mid;
      } else {
        forall q | low <= q <= mid
          ensures SegmentCount(h, start, end, q) > TargetSegments
        {
          CoarserIsFewer(h, start, end, q, mid);
        }
        low := mid + 1;
      }
    }
    r := low;
  }

  // ---------------------------------------------------------------------------
  // Building
  // ---------------------------------------------------------------------------

  function Appended(segments: seq<Segment>, seg: Segment): seq<Segment> {
    if seg.start > seg.end then segments else segments + [seg]
  }

  /** Before transition k nothing is busy if the gap that leads to it is wide. */
  lemma {:induction false} QuietBefore(h: History, startValue: Raw, start: int, end: int, r: int, width: int, k: nat,
                                       from: int, to: int)
    requires InWindow(h, start, end) && k <= |h| && from <= to
    requires from == (if k == 0 then start else h[k - 1].t) && to == (if k == |h| then end else h[k].t - 1)
    requires 0 < k < |h| ==> !Close(h, r, k - 1)
    ensures Right(Stable(from, to, if k == 0 then startValue else h[k - 1].v), h, startValue, r, width)
  {
    forall t | from <= t <= to
      ensures ValueIn(h, startValue, t) == (if k == 0 then startValue else h[k - 1].v) && !Busy(h, r, t)
    {
      ValueAfter(h, startValue, start, end, k, t);
      forall m | 0 <= m && m + 1 < |h| && h[m].t <= t < h[m + 1].t
        ensures !Close(h, r, m)
      {
        ValueAfter(h, startValue, start, end, m + 1, t);
      }
    }
  }

  lemma {:induction false} TiledAppend(segments: seq<Segment>, seg: Segment, start: int, end: int)
    requires Tiled(segments, start, end) && seg.start == end + 1 && seg.start <= seg.end
    ensures Tiled(segments + [seg], start, seg.end)
  {
    var out := segments + [seg];
    forall i, j | 0 <= i && j == i + 1 && j < |out|
      ensures out[j].start == out[i].end + 1
    {}
  }

  /** The right segments so far, end to end up to `to`. */
  ghost predicate Built(segments: seq<Segment>, h: History, startValue: Raw, r: int, width: int, start: int, to: int,
                        count: nat) {
    Tiled(segments, start, to) && AllRight(segments, h, startValue, r, width) && |segments| == count
  }

  lemma {:induction false} BuiltStep(segments: seq<Segment>, h: History, startValue: Raw, r: int, width: int,
                                     start: int, to: int,
                                     count: nat, seg: Segment)
    requires Built(segments, h, startValue, r, width, start, to, count)
    requires seg.start == to + 1 && Right(seg, h, startValue, r, width)
    ensures Built(Appended(segments, seg), h, startValue, r, width, start, seg.end, count + 1)
  {
    TiledAppend(segments, seg, start, to);
  }

  ghost function CursorAt(h: History, start: int, k: nat): int
    requires k <= |h|
  {
    if k == 0 then start else h[k - 1].t
  }

  ghost function CurrentAt(h: History, startValue: Raw, k: nat): Raw
    requires k <= |h|
  {
    if k == 0 then startValue else h[k - 1].v
  }

  /** The stable segment up to the next transition, when there is room for one. */
  lemma {:induction false} StableStep(segments: seq<Segment>, h: History, startValue: Raw, r: int, width: int,
                                      start: int, end: int, i: nat)
    requires InWindow(h, start, end) && i < |h| && (i > 0 ==> !Close(h, r, i - 1))
    requires Built(segments, h, startValue, r, width, start, CursorAt(h, start, i) - 1, Before(h, start, r, i))
    ensures var out := if CursorAt(h, start, i) < h[i].t
                       then Appended(segments, Stable(CursorAt(h, start, i), h[i].t - 1, CurrentAt(h, startValue, i)))
                       else segments;
            Built(out, h, startValue, r, width, start, h[i].t - 1, Before(h, start, r, i + 1))
  {
    var seg := Stable(CursorAt(h, start, i), h[i].t - 1, CurrentAt(h, startValue, i));
    if seg.start <= seg.end {
      QuietBefore(h, startValue, start, end, r, width, i, seg.start, seg.end);
      BuiltStep(segments, h, startValue, r, width, start, seg.start - 1, Before(h, start, r, i), seg);
    }
  }

  ghost predicate AllRight(segments: seq<Segment>, h: History, startValue: Raw, r: int, width: int) {
    forall i :: 0 <= i < |segments| ==> Right(segments[i], h, startValue, r, width)
  }

  /** The segments of the window: end to end, each right, and as many as the estimator says. */
  method BuildOverviewSegments(width: int, h: History, start: int, end: int, r: int, startValue: Raw)
    returns (segments: seq<Segment>)
    requires InWindow(h, start, end) && start <= end + 1
    ensures Tiled(segments, start, end)
    ensures AllRight(segments, h, startValue, r, width)
    ensures |segments| == SegmentCount(h, start, end, r)
  {
    segments := [];
    var cursor, current := start, startValue;
    var i := 0;
    while i < |h|
      invariant i <= |h| && cursor == CursorAt(h, start, i) && current == CurrentAt(h, startValue, i)
      invariant Built(segments, h, startValue, r, width, start, cursor - 1, Before(h, start, r, i))
      invariant 0 < i < |h| ==> !Close(h, r, i - 1)
    {
      segments, i, cursor, current := BuildNext(segments, width, h, start, end, r, startValue, i, cursor, current);
    }
    LastStep(segments, h, startValue, r, width, start, end);
    if cursor <= end {
      segments := Appended(segments, Stable(cursor, end, current));
    }
  }

  lemma {:induction false} AfterTransition(h: History, start: int, startValue: Raw, k: nat)
    requires k < |h|
    ensures CursorAt(h, start, k + 1) == h[k].t && CurrentAt(h, startValue, k + 1) == h[k].v
  {}

  /** The stable segment before transition i, and the burst or the single transition there. */
  method BuildNext(segments: seq<Segment>, width: int, h: History, start: int, end: int, r: int, startValue: Raw,
                   i: nat, cursor: int, current: Raw)
    returns (out: seq<Segment>, next: nat, nextCursor: int, nextCurrent: Raw)
    requires InWindow(h, start, end) && i < |h| && (i > 0 ==> !Close(h, r, i - 1))
    requires cursor == CursorAt(h, start, i) && current == CurrentAt(h, startValue, i)
    requires Built(segments, h, startValue, r, width, start, cursor - 1, Before(h, start, r, i))
    ensures i < next <= |h| && (next < |h| ==> !Close(h, r, next - 1))
    ensures nextCursor == CursorAt(h, start, next) && nextCurrent == CurrentAt(h, startValue, next)
    ensures Built(out, h, startValue, r, width, start, nextCursor - 1, Before(h, start, r, next))
  {
    out := FillStable(segments, width, h, start, end, r, startValue, i, cursor, current);
    if i + 1 < |h| && Close(h, r, i) {
      var j, flippingEnd;
      out, j, flippingEnd := AppendBurst(out, width, h, start, end, r, startValue, i, current);
      nextCurrent, nextCursor := h[j].v, h[j].t;
      AfterTransition(h, start, startValue, j);
      if flippingEnd == nextCursor {
        nextCursor := nextCursor + 1;
      }
      next := j + 1;
    } else {
      nextCurrent, nextCursor := h[i].v, h[i].t;
      AfterTransition(h, start, startValue, i);
      next := i + 1;
    }
  }

  /** The stable segment after the last transition, when there is room for one. */
  lemma {:induction false} LastStep(segments: seq<Segment>, h: History, startValue: Raw, r: int, width: int,
                                    start: int, end: int)
    requires InWindow(h, start, end) && start <= end + 1
    requires Built(segments, h, startValue, r, width, start, CursorAt(h, start, |h|) - 1, Before(h, start, r, |h|))
    ensures var cursor := CursorAt(h, start, |h|);
            var out := if cursor <= end then Appended(segments, Stable(cursor, end, CurrentAt(h, startValue, |h|)))
                       else segments;
            Built(out, h, startValue, r, width, start, end, SegmentCount(h, start, end, r))
  {
    var cursor := CursorAt(h, start, |h|);
    if cursor <= end {
      QuietBefore(h, startValue, start, end, r, width, |h|, cursor, end);
      BuiltStep(segments, h, startValue, r, width, start, cursor - 1, Before(h, start, r, |h|),
                Stable(cursor, end, CurrentAt(h, startValue, |h|)));
    }
  }

  method FillStable(segments: seq<Segment>, width: int, h: History, start: int, end: int, r: int, startValue: Raw,
                    i: nat,
                    cursor: int, current: Raw)
    returns (out: seq<Segment>)
    requires InWindow(h, start, end) && i < |h| && (i > 0 ==> !Close(h, r, i - 1))
    requires cursor == CursorAt(h, start, i) && current == CurrentAt(h, startValue, i)
    requires Built(segments, h, startValue, r, width, start, cursor - 1, Before(h, start, r, i))
    ensures Built(out, h, startValue, r, width, start, h[i].t - 1, Before(h, start, r, i + 1))
  {
    StableStep(segments, h, startValue, r, width, start, end, i);
    out := segments;
    if cursor < h[i].t {
      out := Appended(out, Stable(cursor, h[i].t - 1, current));
    }
  }

  method AppendBurst(segments: seq<Segment>, width: int, h: History, start: int, end: int, r: int, startValue: Raw,
                     i: nat, current: Raw)
    returns (out: seq<Segment>, j: nat, flippingEnd: int)
    requires InWindow(h, start, end) && i + 1 < |h| && Close(h, r, i) && (i > 0 ==> !Close(h, r, i - 1))
    requires Built(segments, h, startValue, r, width, start, h[i].t - 1, Before(h, start, r, i + 1))
    requires current == CurrentAt(h, startValue, i)
    ensures i < j < |h| && (j + 1 < |h| ==> !Close(h, r, j)) && flippingEnd == h[j].t - 1
    ensures Built(out, h, startValue, r, width, start, h[j].t - 1, Before(h, start, r, j + 1))
  {
    j := BurstEnd(h, r, i);
    BurstAddsOne(h, start, r, i, j);
    var seg := FlippingSegment(width, h, start, end, r, startValue, i, j, current);
    BuiltStep(segments, h, startValue, r, width, start, h[i].t - 1, Before(h, start, r, i + 1), seg);
    out, flippingEnd := Appended(segments, seg), seg.end;
  }

  method FlippingSegment(width: int, h: History, start: int, end: int, r: int, startValue: Raw, i: nat, j: nat,
                         current: Raw)
    returns (seg: Segment)
    requires InWindow(h, start, end) && Burst(h, r, i, j)
    requires current == if i == 0 then startValue else h[i - 1].v
    ensures seg.Flipping? && seg.start == h[i].t && seg.end == h[j].t - 1 && Right(seg, h, startValue, r, width)
  {
    var seen := {current};
    for k := i to j + 1
      invariant seen == {current} + set m | i <= m < k :: h[m].v
    {
      seen := seen + {h[k].v};
    }
    assert seen == ValuesSeen(h, startValue, i, j);
    var t, flippingEnd := h[i].t, h[j].t;
    if flippingEnd > t {
      flippingEnd := flippingEnd - 1;
    }
    if flippingEnd < t {
      flippingEnd := t;
    }
    seg := Flipping(t, flippingEnd, j - i + 1, if width <= 1 then 0 else |seen|);
    assert Flips(seg, h, startValue, r, width, i, j);
  }

  // ---------------------------------------------------------------------------
  // From a virtual signal
  // ---------------------------------------------------------------------------

  /** The value at the start and the changes in the window, a change at the start included. */
  method VirtualWindowTransitions(ghost f: int -> Raw, computed: History, previous: Raw, start: nat, end: int)
    returns (startValue: Raw, transitions: History)
    requires start <= end && computed == Changes(f, start, end) && (start > 0 ==> previous == f(start - 1))
    ensures startValue == f(start) && InWindow(transitions, start, end)
    ensures forall t :: start <= t <= end ==> ValueIn(transitions, startValue, t) == f(t)
    ensures forall t :: start <= t <= end ==>
              ((exists i :: 0 <= i < |transitions| && transitions[i].t == t) <==> t == 0 || f(t) != f(t - 1))
  {
    startValue := computed[0].v;
    transitions := [];
    if start == 0 || previous != startValue {
      transitions := [Event(start, startValue)];
    }
    transitions := transitions + computed[1..];
    WindowReads(f, computed, start, end, transitions);
    WindowTimes(f, computed, start, end, transitions);
  }

  lemma {:induction false} WindowReads(f: int -> Raw, computed: History, start: nat, end: int, transitions: History)
    requires start <= end && computed == Changes(f, start, end)
    requires transitions == computed || transitions == computed[1..]
    ensures InWindow(transitions, start, end)
    ensures forall t :: start <= t <= end ==> ValueIn(transitions, f(start), t) == f(t)
  {
    ChangesShape(f, start, end);
    forall t | start <= t <= end
      ensures ValueIn(transitions, f(start), t) == f(t)
    {
      ChangesValue(f, start, end, t);
      assert UpTo(computed, t) == 1 + UpTo(computed[1..], t);
    }
  }

  ghost predicate HasTime(h: History, t: int) {
    exists i :: 0 <= i < |h| && h[i].t == t
  }

  lemma {:induction false} ChangeTimes(f: int -> Raw, start: int, end: int, t: int)
    requires start < t <= end
    ensures HasTime(Changes(f, start, end), t) <==> f(t) != f(t - 1)
    decreases end - start
  {
    var before := Changes(f, start, end - 1);
    var out := Changes(f, start, end);
    ChangesShape(f, start, end - 1);
    if t < end {
      ChangeTimes(f, start, end - 1, t);
      if HasTime(before, t) {
        var i :| 0 <= i < |before| && before[i].t == t;
        assert out[i].t == t;
      }
    } else if f(end) != f(end - 1) {
      assert out[|before|].t == end;
    }
  }

  lemma {:induction false} WindowTimes(f: int -> Raw, computed: History, start: nat, end: int, transitions: History)
    requires start <= end && computed == Changes(f, start, end)
    requires transitions == if start == 0 || f(start - 1) != f(start) then computed else computed[1..]
    ensures forall t :: start <= t <= end ==>
              ((exists i :: 0 <= i < |transitions| && transitions[i].t == t) <==> t == 0 || f(t) != f(t - 1))
  {
    ChangesShape(f, start, end);
    forall t | start <= t <= end
      ensures HasTime(transitions, t) <==> t == 0 || f(t) != f(t - 1)
    {
      if start < t {
        ChangeTimes(f, start, end, t);
        if HasTime(computed, t) {
          var i :| 0 <= i < |computed| && computed[i].t == t;
          assert i > 0 && computed[1..][i - 1].t == t;
        }
      } else if transitions == computed {
        assert transitions[0].t == t;
      }
    }
  }

  /** The automatic overview: at most 20 segments that tile the window and read as the waveform. */
  method AutoOverview(width: int, ghost f: int -> Raw, computed: History, previous: Raw, start: nat, end: int)
    returns (segments: seq<Segment>)
    requires start <= end && computed == Changes(f, start, end) && (start > 0 ==> previous == f(start - 1))
    ensures Tiled(segments, start, end) && |segments| <= TargetSegments
    ensures forall i, t :: 0 <= i < |segments| && segments[i].Stable? && segments[i].start <= t <= segments[i].end ==>
              segments[i].value == f(t)
  {
    var startValue, transitions := VirtualWindowTransitions(f, computed, previous, start, end);
    var r := ChooseAutoResolution(transitions, start, end);
    segments := BuildOverviewSegments(width, transitions, start, end, r, startValue);
    forall i, t | 0 <= i < |segments| && segments[i].Stable? && segments[i].start <= t <= segments[i].end
      ensures segments[i].value == f(t)
    {
      assert Right(segments[i], transitions, startValue, r, width);
      TiledInside(segments, start, end, i);
    }
  }

  lemma {:induction false} TiledInside(segments: seq<Segment>, start: int, end: int, i: nat)
    requires Tiled(segments, start, end) && i < |segments|
    ensures start <= segments[i].start && segments[i].end <= end
  {
    if i > 0 {
      TiledOrder(segments, start, end, 0, i);
    }
    if i < |segments| - 1 {
      TiledOrder(segments, start, end, i, |segments| - 1);
    }
  }
}
