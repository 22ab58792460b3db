/**
 The reverse index: for each path, the signals whose endpoints mention it, built by a counting
 sort and compacted in place.
 */
module ReverseIndex {

  /** Signal `sig` mentions path `path`. */
  datatype Ref = Ref(path: nat, sig: nat)

  datatype PathRange = PathRange(path: nat, begin: nat, count: nat)

  /** The mentions in the order they are visited: signal after signal. */
  function Mentions(emitted: seq<seq<nat>>): seq<Ref> {
    if emitted == [] then []
    else
      var n := |emitted| - 1;
      Mentions(emitted[..n]) + seq(|emitted[n]|, k requires 0 <= k < |emitted[n]| => Ref(emitted[n][k], n))
  }

  ghost predicate BySignal(refs: seq<Ref>) {
    forall i, j :: 0 <= i < j < |refs| ==> refs[i].sig <= refs[j].sig
  }

  /** Signals are visited in ascending order. */
  lemma {:induction false} MentionsBySignal(emitted: seq<seq<nat>>)
    ensures BySignal(Mentions(emitted)) && forall i :: 0 <= i < |Mentions(emitted)| ==>
              Mentions(emitted)[i].sig < |emitted|
  {
    if emitted != [] {
      MentionsBySignal(emitted[..|emitted| - 1]);
    }
  }

  /** Exactly what the signals emitted is mentioned. */
  lemma {:induction false} MentionsExact(emitted: seq<seq<nat>>, path: nat, sig: nat)
    ensures Ref(path, sig) in Mentions(emitted) <==> sig < |emitted| && path in emitted[sig]
  {
    if emitted != [] {
      var n := |emitted| - 1;
      var last := seq(|emitted[n]|, k requires 0 <= k < |emitted[n]| => Ref(emitted[n][k], n));
      MentionsExact(emitted[..n], path, sig);
      if sig == n && path in emitted[n] {
        var k :| 0 <= k < |emitted[n]| && emitted[n][k] == path;
        assert last[k] == Ref(path, sig);
      }
      assert Ref(path, sig) in last <==> sig == n && path in emitted[n];
    }
  }

  // ---------------------------------------------------------------------------
  // Specification
  // ---------------------------------------------------------------------------

  /** The signals that mention a path, with repetitions, as visited. */
  function Bucket(refs: seq<Ref>, path: nat): seq<nat> {
    if refs == [] then []
    else
      var last := refs[|refs| - 1];
      Bucket(refs[..|refs| - 1], path) + if last.path == path then [last.sig] else []
  }

  /** Adjacent repetitions dropped. */
  function Unique(s: seq<nat>): (r: seq<nat>)
    ensures |r| <= |s| && (s != [] ==> r != [])
  {
    if s == [] then []
    else
      var n := |s| - 1;
      Unique(s[..n]) + if n == 0 || s[n] != s[n - 1] then [s[n]] else []
  }

  /** The buckets of the first n paths. */
  function Buckets(refs: seq<Ref>, n: nat): (bs: seq<seq<nat>>)
    ensures |bs| == n
  {
    seq(n, p requires 0 <= p < n => Bucket(refs, p))
  }

  function UniqueBuckets(refs: seq<Ref>, n: nat): (us: seq<seq<nat>>)
    ensures |us| == n
  {
    seq(n, p requires 0 <= p < n => Unique(Bucket(refs, p)))
  }

  function Concat(lists: seq<seq<nat>>): seq<nat> {
    if lists == [] then [] else Concat(lists[..|lists| - 1]) + lists[|lists| - 1]
  }

  /** One range for each list that is not empty, in the concatenation of all. */
  function RangesOf(lists: seq<seq<nat>>): seq<PathRange> {
    if lists == [] then []
    else
      var n := |lists| - 1;
      RangesOf(lists[..n]) + if lists[n] == [] then [] else [PathRange(n, |Concat(lists[..n])|, |lists[n]|)]
  }

  // ---------------------------------------------------------------------------
  // What the index means
  // ---------------------------------------------------------------------------

  lemma {:induction false} BucketExact(refs: seq<Ref>, path: nat, sig: nat)
    ensures sig in Bucket(refs, path) <==> Ref(path, sig) in refs
  {
    if refs != [] {
      var front, last := refs[..|refs| - 1], refs[|refs| - 1];
      BucketExact(front, path, sig);
      assert refs == front + [last];
      assert last == Ref(last.path, last.sig);
    }
  }

  ghost predicate Ascending(s: seq<nat>) {
    forall i, j :: 0 <= i < j < |s| ==> s[i] <= s[j]
  }

  lemma {:induction false} BucketAscending(refs: seq<Ref>, path: nat)
    requires BySignal(refs)
    ensures Ascending(Bucket(refs, path))
  {
    if refs != [] {
      var front, last := refs[..|refs| - 1], refs[|refs| - 1];
      BucketAscending(front, path);
      var bucket := Bucket(front, path);
      forall i | 0 <= i < |bucket|
        ensures bucket[i] <= last.sig
      {
        BucketExact(front, path, bucket[i]);
      }
    }
  }

  lemma {:induction false} UniqueStrict(s: seq<nat>)
    requires Ascending(s)
    ensures forall x :: x in Unique(s) <==> x in s
    ensures forall i, j :: 0 <= i < j < |Unique(s)| ==> Unique(s)[i] < Unique(s)[j]
  {
    if s != [] {
      var n := |s| - 1;
      UniqueStrict(s[..n]);
      assert s == s[..n] + [s[n]];
      var before := Unique(s[..n]);
      forall i | 0 <= i < |before|
        ensures n > 0 && before[i] <= s[n - 1]
      {
        assert before[i] in s[..n];
      }
    }
  }

  /** Strictly increasing, and exactly the signals that mention the path. */
  ghost predicate Lists(refs: seq<Ref>, path: nat, slice: seq<nat>) {
    && (forall i, j :: 0 <= i < j < |slice| ==> slice[i] < slice[j])
    && (forall sig: nat :: sig in slice <==> Ref(path, sig) in refs)
  }

  lemma {:induction false} UniqueBucketLists(refs: seq<Ref>, path: nat)
    requires BySignal(refs)
    ensures Lists(refs, path, Unique(Bucket(refs, path)))
  {
    BucketAscending(refs, path);
    UniqueStrict(Bucket(refs, path));
    forall sig: nat
      ensures sig in Unique(Bucket(refs, path)) <==> Ref(path, sig) in refs
    {
      BucketExact(refs, path, sig);
    }
  }

  lemma {:induction false} ConcatNext(lists: seq<seq<nat>>, n: nat)
    requires n < |lists|
    ensures Concat(lists[..n + 1]) == Concat(lists[..n]) + lists[n]
    ensures RangesOf(lists[..n + 1]) ==
            RangesOf(lists[..n]) + if lists[n] == [] then [] else [PathRange(n, |Concat(lists[..n])|, |lists[n]|)]
  {
    assert lists[..n + 1][..n] == lists[..n];
  }

  /** The range selects the list of its path. */
  ghost predicate Selects(lists: seq<seq<nat>>, range: PathRange) {
    && range.path < |lists| && range.count == |lists[range.path]| > 0
    && range.begin + range.count <= |Concat(lists)|
    && Concat(lists)[range.begin..range.begin + range.count] == lists[range.path]
  }

  lemma {:induction false} SelectsMore(lists: seq<seq<nat>>, range: PathRange)
    requires lists != [] && Selects(lists[..|lists| - 1], range)
    ensures Selects(lists, range)
  {
    var front, back := Concat(lists[..|lists| - 1]), lists[|lists| - 1];
    assert (front + back)[range.begin..range.begin + range.count] == front[range.begin..range.begin + range.count];
  }

  lemma {:induction false} SelectsLast(lists: seq<seq<nat>>)
    requires lists != [] && lists[|lists| - 1] != []
    ensures var n := |lists| - 1; Selects(lists, PathRange(n, |Concat(lists[..n])|, |lists[n]|))
  {
    var front, back := Concat(lists[..|lists| - 1]), lists[|lists| - 1];
    assert (front + back)[|front|..|front| + |back|] == back;
  }

  lemma {:induction false} RangesSelect(lists: seq<seq<nat>>, range: PathRange)
    requires range in RangesOf(lists)
    ensures Selects(lists, range)
  {
    var n := |lists| - 1;
    if range in RangesOf(lists[..n]) {
      RangesSelect(lists[..n], range);
      SelectsMore(lists, range);
    } else {
      SelectsLast(lists);
    }
  }

  ghost predicate HasRange(ranges: seq<PathRange>, path: nat) {
    exists range :: range in ranges && range.path == path
  }

  lemma {:induction false} RangesHave(lists: seq<seq<nat>>, path: nat)
    ensures HasRange(RangesOf(lists), path) <==> path < |lists| && lists[path] != []
  {
    if lists != [] {
      var n := |lists| - 1;
      var before, last := RangesOf(lists[..n]), PathRange(n, |Concat(lists[..n])|, |lists[n]|);
      RangesHave(lists[..n], path);
      assert RangesOf(lists) == before + if lists[n] == [] then [] else [last];
      if HasRange(before, path) {
        var range :| range in before && range.path == path;
        assert range in RangesOf(lists);
      }
      if lists[n] != [] {
        assert last in RangesOf(lists);
      }
    }
  }

  /** Ranges are in path order. */
  lemma {:induction false} RangesOrdered(lists: seq<seq<nat>>)
    ensures forall i :: 0 <= i < |RangesOf(lists)| ==> RangesOf(lists)[i].path < |lists|
    ensures forall i, j :: 0 <= i < j < |RangesOf(lists)| ==> RangesOf(lists)[i].path < RangesOf(lists)[j].path
  {
    if lists != [] {
      RangesOrdered(lists[..|lists| - 1]);
    }
  }

  /** The flat table of the first n paths. */
  function Flat(refs: seq<Ref>, n: nat): seq<nat> {
    Concat(UniqueBuckets(refs, n))
  }

  /** The ranges of the first n paths. */
  function Ranges(refs: seq<Ref>, n: nat): seq<PathRange> {
    RangesOf(UniqueBuckets(refs, n))
  }

  /** The slice of a range lists exactly the signals that mention its path, in ascending order. */
  lemma {:induction false} RangeMeans(refs: seq<Ref>, n: nat, range: PathRange)
    requires BySignal(refs) && range in Ranges(refs, n)
    ensures range.path < n && range.count > 0 && range.begin + range.count <= |Flat(refs, n)|
    ensures Lists(refs, range.path, Flat(refs, n)[range.begin..range.begin + range.count])
  {
    RangesSelect(UniqueBuckets(refs, n), range);
    UniqueBucketLists(refs, range.path);
  }

  ghost predicate Mentioned(refs: seq<Ref>, path: nat) {
    exists sig: nat :: Ref(path, sig) in refs
  }

  lemma {:induction false} BucketMentioned(refs: seq<Ref>, path: nat)
    ensures Bucket(refs, path) != [] <==> Mentioned(refs, path)
  {
    var bucket := Bucket(refs, path);
    if bucket != [] {
      BucketExact(refs, path, bucket[0]);
      assert bucket[0] in bucket;
    }
    if sig: nat :| Ref(path, sig) in refs {
      BucketExact(refs, path, sig);
    }
  }

  /** A path has a range exactly if some signal mentions it. */
  lemma {:induction false} RangesComplete(refs: seq<Ref>, n: nat, path: nat)
    ensures HasRange(Ranges(refs, n), path) <==> path < n && Mentioned(refs, path)
  {
    RangesHave(UniqueBuckets(refs, n), path);
    BucketMentioned(refs, path);
  }

  // ---------------------------------------------------------------------------
  // Where the buckets start
  // ---------------------------------------------------------------------------

  ghost function Start(lists: seq<seq<nat>>, p: nat): nat
    requires p <= |lists|
  {
    |Concat(lists[..p])|
  }

  lemma {:induction false} StartNext(lists: seq<seq<nat>>, p: nat)
    requires p < |lists|
    ensures Start(lists, p + 1) == Start(lists, p) + |lists[p]|
  {
    ConcatNext(lists, p);
  }

  lemma {:induction false} StartsGrow(lists: seq<seq<nat>>, p: nat, n: nat)
    requires p <= n <= |lists|
    ensures Start(lists, p) <= Start(lists, n) <= |Concat(lists)|
    decreases |lists| - p
  {
    if p < n {
      StartNext(lists, p);
      StartsGrow(lists, p + 1, n);
    } else if n < |lists| {
      StartNext(lists, n);
      StartsGrow(lists, n + 1, |lists|);
    } else {
      assert lists[..n] == lists;
    }
  }

  /** The list stands in the table at its place. */
  ghost predicate Placed(lists: seq<seq<nat>>, table: seq<nat>, p: nat)
    requires p < |lists|
  {
    var at := Start(lists, p);
    at + |lists[p]| <= |table| && table[at..at + |lists[p]|] == lists[p]
  }

  lemma {:induction false} PlacedNext(lists: seq<seq<nat>>, table: seq<nat>, p: nat)
    requires p < |lists| && Placed(lists, table, p) && table[..Start(lists, p)] == Concat(lists[..p])
    ensures Start(lists, p + 1) <= |table| && table[..Start(lists, p + 1)] == Concat(lists[..p + 1])
  {
    var at, list := Start(lists, p), lists[p];
    ConcatNext(lists, p);
    assert table[..at + |list|] == table[..at] + table[at..at + |list|];
  }

  /** A table that agrees with every list at its place starts with their concatenation. */
  lemma {:induction false} PiecesMakeWhole(lists: seq<seq<nat>>, table: seq<nat>, n: nat)
    requires n <= |lists| && forall p :: 0 <= p < n ==> Placed(lists, table, p)
    ensures Start(lists, n) <= |table| && table[..Start(lists, n)] == Concat(lists[..n])
  {
    if n > 0 {
      PiecesMakeWhole(lists, table, n - 1);
      PlacedNext(lists, table, n - 1);
    }
  }

  lemma {:induction false} PieceOfWhole(lists: seq<seq<nat>>, p: nat)
    requires p < |lists|
    ensures Start(lists, p) <= Start(lists, p + 1) <= |Concat(lists)|
    ensures Concat(lists)[Start(lists, p)..Start(lists, p + 1)] == lists[p]
    decreases |lists|
  {
    StartNext(lists, p);
    StartsGrow(lists, p + 1, |lists|);
    var n := |lists| - 1;
    if p < n {
      PieceOfWhole(lists[..n], p);
      assert lists[..n][..p] == lists[..p] && lists[..n][..p + 1] == lists[..p + 1];
    } else {
      assert lists[..p + 1] == lists;
    }
  }

  // ---------------------------------------------------------------------------
  // Counting sort
  // ---------------------------------------------------------------------------

  lemma {:induction false} BucketStep(refs: seq<Ref>, k: nat, path: nat)
    requires k < |refs|
    ensures Bucket(refs[..k + 1], path) == Bucket(refs[..k], path) + if refs[k].path == path then [refs[k].sig] else []
  {
    assert refs[..k + 1][..k] == refs[..k];
  }

  lemma {:induction false} BucketPrefix(refs: seq<Ref>, k: nat, path: nat)
    requires k <= |refs|
    ensures Bucket(refs[..k], path) <= Bucket(refs, path)
    decreases |refs| - k
  {
    if k < |refs| {
      BucketStep(refs, k, path);
      BucketPrefix(refs, k + 1, path);
    } else {
      assert refs[..k] == refs;
    }
  }

  ghost predicate InRange(refs: seq<Ref>, n: nat) {
    forall k :: 0 <= k < |refs| ==> refs[k].path < n
  }

  /** One more mention makes one bucket one longer. */
  lemma {:induction false} OneLonger(a: seq<seq<nat>>, b: seq<seq<nat>>, path: nat)
    requires |a| == |b| && path < |a| && |b[path]| == |a[path]| + 1
    requires forall p :: 0 <= p < |a| && p != path ==> |b[p]| == |a[p]|
    ensures |Concat(b)| == |Concat(a)| + 1
  {
    var n := |a| - 1;
    if path < n {
      OneLonger(a[..n], b[..n], path);
    } else {
      SameLengths(a[..n], b[..n]);
    }
  }

  lemma {:induction false} SameLengths(a: seq<seq<nat>>, b: seq<seq<nat>>)
    requires |a| == |b| && forall p :: 0 <= p < |a| ==> |b[p]| == |a[p]|
    ensures |Concat(b)| == |Concat(a)|
  {
    if a != [] {
      SameLengths(a[..|a| - 1], b[..|b| - 1]);
    }
  }

  lemma {:induction false} AllEmpty(lists: seq<seq<nat>>)
    requires forall p :: 0 <= p < |lists| ==> lists[p] == []
    ensures Concat(lists) == [] && RangesOf(lists) == []
  {
    if lists != [] {
      AllEmpty(lists[..|lists| - 1]);
    }
  }

  /** All mentions are in some bucket. */
  lemma {:induction false} BucketsTotal(refs: seq<Ref>, n: nat)
    requires InRange(refs, n)
    ensures |Concat(Buckets(refs, n))| == |refs|
  {
    if refs == [] {
      AllEmpty(Buckets(refs, n));
    } else {
      var k := |refs| - 1;
      BucketsTotal(refs[..k], n);
      forall p | 0 <= p < n
        ensures Bucket(refs, p) == Bucket(refs[..k], p) + if refs[k].path == p then [refs[k].sig] else []
      {}
      OneLonger(Buckets(refs[..k], n), Buckets(refs, n), refs[k].path);
    }
  }

  method CountMentions(refs: seq<Ref>, cursor: array<nat>)
    requires InRange(refs, cursor.Length) && forall p :: 0 <= p < cursor.Length ==> cursor[p] == 0
    modifies cursor
    ensures forall p :: 0 <= p < cursor.Length ==> cursor[p] == |Bucket(refs, p)|
  {
    for k := 0 to |refs|
      invariant forall p :: 0 <= p < cursor.Length ==> cursor[p] == |Bucket(refs[..k], p)|
    {
      forall p
        ensures Bucket(refs[..k + 1], p) == Bucket(refs[..k], p) + if refs[k].path == p then [refs[k].sig] else []
      {
        BucketStep(refs, k, p);
      }
      cursor[refs[k].path] := cursor[refs[k].path] + 1;
    }
    assert refs[..|refs|] == refs;
  }

  method PrefixSums(cursor: array<nat>, ghost lists: seq<seq<nat>>)
    requires |lists| == cursor.Length && forall p :: 0 <= p < cursor.Length ==> cursor[p] == |lists[p]|
    modifies cursor
    ensures forall p :: 0 <= p < cursor.Length ==> cursor[p] == Start(lists, p)
  {
    var running := 0;
    for p := 0 to cursor.Length
      invariant running == Start(lists, p)
      invariant forall q :: 0 <= q < p ==> cursor[q] == Start(lists, q)
      invariant forall q :: p <= q < cursor.Length ==> cursor[q] == |lists[q]|
    {
      StartNext(lists, p);
      var n := cursor[p];
      cursor[p] := running;
      running := running + n;
    }
  }

  /** The lists are filled up to the given prefixes, each at its place. */
  ghost predicate Filled(lists: seq<seq<nat>>, done: seq<seq<nat>>, cursor: seq<nat>, ids: seq<nat>) {
    && |lists| == |done| == |cursor| && |ids| == |Concat(lists)|
    && forall p :: 0 <= p < |lists| ==>
         && done[p] <= lists[p]
         && cursor[p] == Start(lists, p) + |done[p]| <= |ids|
         && ids[Start(lists, p)..cursor[p]] == done[p]
  }

  /** The places of two lists do not overlap. */
  lemma {:induction false} PlacesApart(lists: seq<seq<nat>>, p: nat, q: nat)
    requires p < q < |lists|
    ensures Start(lists, p) + |lists[p]| <= Start(lists, q) && Start(lists, q) + |lists[q]| <= |Concat(lists)|
  {
    StartNext(lists, p);
    StartNext(lists, q);
    StartsGrow(lists, p + 1, q);
    StartsGrow(lists, q + 1, |lists|);
  }

  lemma {:induction false} PlaceInside(lists: seq<seq<nat>>, p: nat)
    requires p < |lists|
    ensures Start(lists, p) + |lists[p]| <= |Concat(lists)|
  {
    StartNext(lists, p);
    StartsGrow(lists, p + 1, |lists|);
  }

  lemma {:induction false} FillStep(lists: seq<seq<nat>>, done: seq<seq<nat>>, cursor: seq<nat>, ids: seq<nat>,
                                    at: nat, sig: nat)
    requires Filled(lists, done, cursor, ids) && at < |lists| && done[at] + [sig] <= lists[at]
    ensures cursor[at] < |ids|
    ensures Filled(lists, done[at := done[at] + [sig]], cursor[at := cursor[at] + 1], ids[cursor[at] := sig])
  {
    var slot := cursor[at];
    PlaceInside(lists, at);
    var more := ids[slot := sig];
    forall p | 0 <= p < |lists|
      ensures p != at ==> more[Start(lists, p)..cursor[p]] == ids[Start(lists, p)..cursor[p]]
      ensures p == at ==> more[Start(lists, p)..slot + 1] == ids[Start(lists, p)..slot] + [sig]
    {
      if p < at {
        PlacesApart(lists, p, at);
      } else if at < p {
        PlacesApart(lists, at, p);
      }
    }
  }

  /** Once all lists are complete the table is their concatenation. */
  lemma {:induction false} FilledWhole(lists: seq<seq<nat>>, cursor: seq<nat>, ids: seq<nat>)
    requires Filled(lists, lists, cursor, ids)
    ensures ids == Concat(lists)
    ensures forall p :: 0 <= p < |lists| ==> cursor[p] == Start(lists, p + 1)
  {
    forall p | 0 <= p < |lists|
      ensures cursor[p] == Start(lists, p + 1) && Placed(lists, ids, p)
    {
      StartNext(lists, p);
    }
    assert lists[..|lists|] == lists;
    PiecesMakeWhole(lists, ids, |lists|);
    assert ids[..|ids|] == ids;
  }

  lemma {:induction false} FilledStart(lists: seq<seq<nat>>, done: seq<seq<nat>>, cursor: seq<nat>, ids: seq<nat>)
    requires |lists| == |done| == |cursor| && |ids| == |Concat(lists)|
    requires forall p :: 0 <= p < |lists| ==> done[p] == [] && cursor[p] == Start(lists, p)
    ensures Filled(lists, done, cursor, ids)
  {
    forall p | 0 <= p < |lists|
      ensures Start(lists, p) <= |ids|
    {
      PlaceInside(lists, p);
    }
  }

  /** The buckets after one more mention. */
  lemma {:induction false} BucketsNext(refs: seq<Ref>, k: nat, n: nat)
    requires k < |refs| && InRange(refs, n)
    ensures var at := refs[k].path;
            && Buckets(refs[..k + 1], n) == Buckets(refs[..k], n)[at := Buckets(refs[..k], n)[at] + [refs[k].sig]]
            && Buckets(refs[..k], n)[at] + [refs[k].sig] <= Buckets(refs, n)[at]
  {
    var at, before := refs[k].path, Buckets(refs[..k], n);
    var next := before[at := before[at] + [refs[k].sig]];
    forall p | 0 <= p < n
      ensures Buckets(refs[..k + 1], n)[p] == next[p]
    {
      BucketStep(refs, k, p);
    }
    BucketStep(refs, k, at);
    BucketPrefix(refs, k + 1, at);
  }

  /** The first k mentions are in the table. */
  ghost predicate Filling(refs: seq<Ref>, k: nat, cursor: seq<nat>, ids: seq<nat>)
    requires k <= |refs|
  {
    Filled(Buckets(refs, |cursor|), Buckets(refs[..k], |cursor|), cursor, ids)
  }

  lemma {:induction false} FillNone(refs: seq<Ref>, cursor: seq<nat>, ids: seq<nat>)
    requires InRange(refs, |cursor|) && |ids| == |refs|
    requires forall p :: 0 <= p < |cursor| ==> cursor[p] == Start(Buckets(refs, |cursor|), p)
    ensures Filling(refs, 0, cursor, ids)
  {
    BucketsTotal(refs, |cursor|);
    FilledStart(Buckets(refs, |cursor|), Buckets(refs[..0], |cursor|), cursor, ids);
  }

  lemma {:induction false} FillMention(refs: seq<Ref>, k: nat, cursor: seq<nat>, ids: seq<nat>)
    requires k < |refs| && InRange(refs, |cursor|) && Filling(refs, k, cursor, ids)
    ensures var at := refs[k].path;
            cursor[at] < |ids| && Filling(refs, k + 1, cursor[at := cursor[at] + 1], ids[cursor[at] := refs[k].sig])
  {
    BucketsNext(refs, k, |cursor|);
    FillStep(Buckets(refs, |cursor|), Buckets(refs[..k], |cursor|), cursor, ids, refs[k].path, refs[k].sig);
  }

  lemma {:induction false} FillDone(refs: seq<Ref>, cursor: seq<nat>, ids: seq<nat>)
    requires Filling(refs, |refs|, cursor, ids)
    ensures ids == Concat(Buckets(refs, |cursor|))
    ensures forall p :: 0 <= p < |cursor| ==> cursor[p] == Start(Buckets(refs, |cursor|), p + 1)
  {
    assert refs[..|refs|] == refs;
    FilledWhole(Buckets(refs, |cursor|), cursor, ids);
  }

  method FillIds(refs: seq<Ref>, cursor: array<nat>, ids: array<nat>)
    requires InRange(refs, cursor.Length) && ids.Length == |refs| && cursor != ids
    requires forall p :: 0 <= p < cursor.Length ==> cursor[p] == Start(Buckets(refs, cursor.Length), p)
    modifies cursor, ids
    ensures ids[..] == Concat(Buckets(refs, cursor.Length))
    ensures forall p :: 0 <= p < cursor.Length ==> cursor[p] == Start(Buckets(refs, cursor.Length), p + 1)
  {
    FillNone(refs, cursor[..], ids[..]);
    for k := 0 to |refs|
      invariant Filling(refs, k, cursor[..], ids[..])
    {
      FillMention(refs, k, cursor[..], ids[..]);
      PlaceMention(cursor, ids, refs[k]);
    }
    FillDone(refs, cursor[..], ids[..]);
  }

  method PlaceMention(cursor: array<nat>, ids: array<nat>, ref: Ref)
    requires cursor != ids && ref.path < cursor.Length && cursor[ref.path] < ids.Length
    modifies cursor, ids
    ensures ids[..] == old(ids[..])[old(cursor[ref.path]) := ref.sig]
    ensures cursor[..] == old(cursor[..])[ref.path := old(cursor[ref.path]) + 1]
  {
    ids[cursor[ref.path]] := ref.sig;
    cursor[ref.path] := cursor[ref.path] + 1;
  }

  // ---------------------------------------------------------------------------
  // Compaction
  // ---------------------------------------------------------------------------

  /** The first p buckets are compacted into ids[..out]; the later ones are still in place. */
  ghost predicate Compacted(lists: seq<seq<nat>>, uniques: seq<seq<nat>>, p: nat, ids: seq<nat>, out: nat,
                            ranges: seq<PathRange>) {
    && |lists| == |uniques| && p <= |lists| && |ids| == |Concat(lists)| && out <= Start(lists, p) <= |ids|
    && ids[..out] == Concat(uniques[..p]) && ranges == RangesOf(uniques[..p])
    && forall m :: Start(lists, p) <= m < |ids| ==> ids[m] == Concat(lists)[m]
  }

  lemma {:induction false} CompactedEmpty(lists: seq<seq<nat>>, uniques: seq<seq<nat>>, p: nat, ids: seq<nat>, out: nat,
                                          ranges: seq<PathRange>)
    requires Compacted(lists, uniques, p, ids, out, ranges) && p < |lists| && lists[p] == [] && uniques[p] == []
    ensures Compacted(lists, uniques, p + 1, ids, out, ranges)
  {
    StartNext(lists, p);
    ConcatNext(uniques, p);
  }

  lemma {:induction false} CompactedNext(lists: seq<seq<nat>>, uniques: seq<seq<nat>>, p: nat, before: seq<nat>,
                                         ids: seq<nat>,
                                         begin: nat, out: nat, ranges: seq<PathRange>)
    requires Compacted(lists, uniques, p, before, begin, ranges) && p < |lists| && uniques[p] != []
    requires |ids| == |before| && out <= Start(lists, p + 1) <= |ids|
    requires ids[..out] == Concat(uniques[..p]) + uniques[p]
    requires forall m :: Start(lists, p + 1) <= m < |ids| ==> ids[m] == Concat(lists)[m]
    ensures begin <= out && Compacted(lists, uniques, p + 1, ids, out, ranges + [PathRange(p, begin, out - begin)])
  {
    ConcatNext(uniques, p);
    assert |ids[..out]| == out && |before[..begin]| == begin;
  }

  /**
   Drops repetitions inside each bucket, writing over the part already read; what is still to be
   read is never overwritten.
   */
  method CompactBuckets(refs: seq<Ref>, cursor: array<nat>, ids: array<nat>) returns (ranges: seq<PathRange>, out: nat)
    requires ids[..] == Concat(Buckets(refs, cursor.Length)) && cursor != ids
    requires forall p :: 0 <= p < cursor.Length ==> cursor[p] == Start(Buckets(refs, cursor.Length), p + 1)
    modifies ids
    ensures out <= ids.Length && ids[..out] == Flat(refs, cursor.Length) && ranges == Ranges(refs, cursor.Length)
  {
    ghost var lists, uniques := Buckets(refs, cursor.Length), UniqueBuckets(refs, cursor.Length);
    ranges, out := [], 0;
    var bucketBegin := 0;
    for p := 0 to cursor.Length
      invariant bucketBegin == Start(lists, p) && Compacted(lists, uniques, p, ids[..], out, ranges)
    {
      PieceOfWhole(lists, p);
      StartNext(lists, p);
      var bucketEnd := cursor[p];
      if bucketBegin == bucketEnd {
        CompactedEmpty(lists, uniques, p, ids[..], out, ranges);
        continue;
      }
      ghost var before := ids[..];
      var begin := out;
      out := CompactOne(ids, bucketBegin, bucketEnd, begin, Concat(lists), lists[p]);
      assert before[..begin] == Concat(uniques[..p]);
      CompactedNext(lists, uniques, p, before, ids[..], begin, out, ranges);
      ranges := ranges + [PathRange(p, begin, out - begin)];
      bucketBegin := bucketEnd;
    }
    assert uniques[..|uniques|] == uniques;
  }

  method CompactOne(ids: array<nat>, bucketBegin: nat, bucketEnd: nat, begin: nat, ghost table: seq<nat>,
                    ghost bucket: seq<nat>)
    returns (out: nat)
    requires begin <= bucketBegin < bucketEnd <= ids.Length == |table|
    requires table[bucketBegin..bucketEnd] == bucket
    requires forall m :: bucketBegin <= m < ids.Length ==> ids[m] == table[m]
    modifies ids
    ensures out <= bucketEnd && ids[..out] == old(ids[..begin]) + Unique(bucket)
    ensures forall m :: bucketEnd <= m < ids.Length ==> ids[m] == table[m]
  {
    ghost var front := ids[..begin];
    out := begin;
    for i := bucketBegin to bucketEnd
      invariant begin <= out <= i && out - begin <= i - bucketBegin
      invariant ids[..out] == front + Unique(bucket[..i - bucketBegin])
      invariant forall m :: bucketBegin <= m < ids.Length && m >= i - 1 ==> ids[m] == table[m]
    {
      ghost var k := i - bucketBegin;
      assert bucket[..k + 1][..k] == bucket[..k];
      assert ids[i] == bucket[k] && (i > bucketBegin ==> ids[i - 1] == bucket[k - 1]);
      if i == bucketBegin || ids[i] != ids[i - 1] {
        ids[out] := ids[i];
        out := out + 1;
      }
    }
    assert bucket[..bucketEnd - bucketBegin] == bucket;
  }

  /** The reverse index: a range for every mentioned path, and the flat list of signals. */
  method BuildPathRefs(refs: seq<Ref>, numPaths: nat) returns (ranges: seq<PathRange>, flat: seq<nat>)
    requires InRange(refs, numPaths)
    ensures ranges == Ranges(refs, numPaths) && flat == Flat(refs, numPaths)
  {
    if refs == [] {
      AllEmpty(UniqueBuckets(refs, numPaths));
      return [], [];
    }
    var cursor := new nat[numPaths](_ => 0);
    CountMentions(refs, cursor);
    PrefixSums(cursor, Buckets(refs, numPaths));
    var ids := new nat[|refs|](_ => 0);
    FillIds(refs, cursor, ids);
    var out;
    ranges, out := CompactBuckets(refs, cursor, ids);
    flat := ids[..out];
  }
}
