/**
 Sets of bits written as lists of inclusive ranges, and the sort-and-merge pass that
 brings such a list into canonical form.
 */
module Coverage {
  import opened Sorting

  /** An inclusive bit range; a coverage is a sequence of them. */
  datatype Range = Range(lo: int, hi: int)

  ghost predicate Holds(r: Range, x: int) {
    r.lo <= x <= r.hi
  }

  /** Bit `x` belongs to some range of `c`. */
  ghost predicate Covers(c: seq<Range>, x: int) {
    exists r :: r in c && Holds(r, x)
  }

  ghost predicate Ordered(c: seq<Range>) {
    forall r :: r in c ==> r.lo <= r.hi
  }

  /** Ascending ranges with at least one uncovered bit between neighbours. */
  ghost predicate Canonical(c: seq<Range>) {
    && Ordered(c)
    && forall i, j :: 0 <= i < j < |c| ==> c[i].hi + 1 < c[j].lo
  }

  predicate Less(a: Range, b: Range) {
    a.lo < b.lo || (a.lo == b.lo && a.hi < b.hi)
  }

  lemma {:induction false} LessStrictTotal()
    ensures StrictTotal(Less)
  {}

  ghost predicate Sorted(c: seq<Range>) {
    forall i, j :: 0 <= i < j < |c| ==> c[i].lo <= c[j].lo
  }

  /** The order a list of pairs is sorted by. */
  function SortRanges(c: seq<Range>): (s: seq<Range>)
    ensures Sorted(s) && multiset(s) == multiset(c)
  {
    LessStrictTotal();
    SortCorrect(Less, c);
    Sort(Less, c)
  }

  lemma {:induction false} PermutationCovers(c: seq<Range>, d: seq<Range>, x: int)
    requires multiset(c) == multiset(d)
    ensures Covers(c, x) <==> Covers(d, x)
  {
    assert forall r :: r in c <==> r in multiset(c);
    assert forall r :: r in d <==> r in multiset(d);
  }

  lemma {:induction false} AppendCovers(c: seq<Range>, d: seq<Range>, x: int)
    ensures Covers(c + d, x) <==> Covers(c, x) || Covers(d, x)
  {
    assert forall r :: r in c + d <==> r in c || r in d;
  }

  lemma {:induction false} FirstCovered(c: seq<Range>)
    requires Canonical(c) && c != []
    ensures Covers(c, c[0].lo)
  {
    assert Holds(c[0], c[0].lo);
  }

  /** A canonical list is determined by the bits it covers. */
  lemma {:induction false} CanonicalUnique(c: seq<Range>, d: seq<Range>)
    requires Canonical(c) && Canonical(d)
    requires forall x :: Covers(c, x) <==> Covers(d, x)
    ensures c == d
  {
    if c != [] {
      FirstCovered(c);
    }
    if d != [] {
      FirstCovered(d);
    }
    if c != [] && d != [] {
      FirstRange(c, d);
      FirstRange(d, c);
      assert c[0] == d[0];
      forall x
        ensures Covers(c[1..], x) <==> Covers(d[1..], x)
      {
        TailCovers(c, x);
        TailCovers(d, x);
      }
      CanonicalUnique(c[1..], d[1..]);
      assert c == [c[0]] + c[1..] && d == [d[0]] + d[1..];
    }
  }

  lemma {:induction false} TailCovers(c: seq<Range>, x: int)
    requires Canonical(c) && c != []
    ensures Covers(c[1..], x) <==> Covers(c, x) && x > c[0].hi
  {
    assert c == [c[0]] + c[1..];
    AppendCovers([c[0]], c[1..], x);
    forall r | r in c[1..]
      ensures c[0].hi + 1 < r.lo
    {
      var i :| 0 <= i < |c[1..]| && c[1..][i] == r;
      assert c[i + 1] == r;
    }
    if Covers(c, x) && x > c[0].hi {
      assert !Covers([c[0]], x);
    }
  }

  /** The first range of `c` starts no earlier and ends no later than that of `d`. */
  lemma {:induction false} FirstRange(c: seq<Range>, d: seq<Range>)
    requires Canonical(c) && Canonical(d) && c != [] && d != []
    requires forall x :: Covers(c, x) <==> Covers(d, x)
    ensures d[0].lo <= c[0].lo && (d[0].lo == c[0].lo ==> c[0].hi <= d[0].hi)
  {
    assert c[0] in c && Holds(c[0], c[0].lo);
    assert Covers(d, c[0].lo);
    GapAfterFirst(d);
    assert !Covers(c, d[0].hi + 1);
    assert !Holds(c[0], d[0].hi + 1);
  }

  lemma {:induction false} GapAfterFirst(c: seq<Range>)
    requires Canonical(c) && c != []
    ensures !Covers(c, c[0].hi + 1)
  {
    forall r | r in c
      ensures !Holds(r, c[0].hi + 1)
    {
      var i :| 0 <= i < |c| && c[i] == r;
    }
  }

  /** The intervals of a canonical list that covers exactly [lo, hi]. */
  lemma {:induction false} SingleRange(c: seq<Range>, lo: int, hi: int)
    requires Canonical(c) && lo <= hi
    requires forall x :: Covers(c, x) <==> lo <= x <= hi
    ensures c == [Range(lo, hi)]
  {
    var d := [Range(lo, hi)];
    forall x
      ensures Covers(c, x) <==> Covers(d, x)
    {
      assert d[0] in d;
    }
    CanonicalUnique(c, d);
  }

  function Straighten(r: Range): Range {
    if r.lo > r.hi then Range(r.hi, r.lo) else r
  }

  /**
   Swap reversed pairs, sort, and merge each range into the last kept one when it overlaps
   or touches it. By CanonicalUnique the contract determines the result.
   */
  method NormalizeCoverage(ranges: seq<Range>) returns (out: seq<Range>)
    ensures Canonical(out)
    ensures forall x :: Covers(out, x) <==> exists r :: r in ranges && Holds(Straighten(r), x)
    ensures Ordered(ranges) ==> forall x :: Covers(out, x) <==> Covers(ranges, x)
  {
    var swapped := seq(|ranges|, i requires 0 <= i < |ranges| => Straighten(ranges[i]));
    var sorted := SortRanges(swapped);
    out := MergeSorted(sorted) by {
      assert forall r :: r in sorted ==> r in multiset(swapped);
      assert Ordered(sorted);
    }
    forall x
      ensures Covers(out, x) <==> exists r :: r in ranges && Holds(Straighten(r), x)
    {
      PermutationCovers(sorted, swapped, x);
      if Covers(swapped, x) {
        var s :| s in swapped && Holds(s, x);
        var i :| 0 <= i < |ranges| && swapped[i] == s;
        assert ranges[i] in ranges;
      }
      if r :| r in ranges && Holds(Straighten(r), x) {
        var i :| 0 <= i < |ranges| && ranges[i] == r;
        assert swapped[i] in swapped;
      }
    }
    if Ordered(ranges) {
      assert swapped == ranges;
    }
  }

  /** The in-place compaction of a sorted list: `out` is the part kept so far. */
  method MergeSorted(sorted: seq<Range>) returns (out: seq<Range>)
    requires Sorted(sorted) && Ordered(sorted)
    ensures Canonical(out)
    ensures forall x :: Covers(out, x) <==> Covers(sorted, x)
  {
    out := [];
    for k := 0 to |sorted|
      invariant Canonical(out)
      invariant out != [] ==> 0 < k && out[|out| - 1].lo <= sorted[k - 1].lo
      invariant forall x :: Covers(out, x) <==> Covers(sorted[..k], x)
    {
      var range := sorted[k];
      ghost var before := out;
      var last := |out| - 1;
      assert k > 0 ==> sorted[k - 1].lo <= range.lo;
      if out != [] && range.lo <= out[last].hi + 1 {
        out := out[last := Range(out[last].lo, if out[last].hi < range.hi then range.hi else out[last].hi)];
        assert out == before[..last] + [out[last]];
        assert before == before[..last] + [before[last]];
      } else {
        out := out + [range];
      }
      assert sorted[..k + 1] == sorted[..k] + [range];
      forall x
        ensures Covers(out, x) <==> Covers(sorted[..k + 1], x)
      {
        AppendCovers(sorted[..k], [range], x);
        assert Covers([range], x) <==> Holds(range, x);
        if |out| == |before| {
          AppendCovers(before[..last], [out[last]], x);
          AppendCovers(before[..last], [before[last]], x);
          assert Covers([out[last]], x) <==> Holds(out[last], x);
          assert Covers([before[last]], x) <==> Holds(before[last], x);
        } else {
          AppendCovers(before, [range], x);
        }
      }
    }
    assert sorted[..|sorted|] == sorted;
  }

  /** Pairwise intersection of two coverages, normalised. */
  method IntersectCoverage(a: seq<Range>, b: seq<Range>) returns (out: seq<Range>)
    ensures Canonical(out)
    ensures forall x :: Covers(out, x) <==> Covers(a, x) && Covers(b, x)
  {
    var acc: seq<Range> := [];
    for i := 0 to |a|
      invariant Ordered(acc)
      invariant forall x :: Covers(acc, x) <==> Covers(a[..i], x) && Covers(b, x)
    {
      ghost var outer := acc;
      for j := 0 to |b|
        invariant Ordered(acc)
        invariant forall x :: Covers(acc, x) <==> Covers(outer, x) || (Holds(a[i], x) && Covers(b[..j], x))
      {
        var lo, hi := if a[i].lo > b[j].lo then a[i].lo else b[j].lo, if a[i].hi < b[j].hi then a[i].hi else b[j].hi;
        ghost var inner := acc;
        if lo <= hi {
          acc := acc + [Range(lo, hi)];
        }
        assert b[..j + 1] == b[..j] + [b[j]];
        forall x
          ensures Covers(acc, x) <==> Covers(outer, x) || (Holds(a[i], x) && Covers(b[..j + 1], x))
        {
          AppendCovers(b[..j], [b[j]], x);
          AppendCovers(inner, [Range(lo, hi)], x);
          assert Covers([b[j]], x) <==> Holds(b[j], x);
          assert Covers([Range(lo, hi)], x) <==> Holds(Range(lo, hi), x);
        }
      }
      assert b[..|b|] == b;
      assert a[..i + 1] == a[..i] + [a[i]];
      forall x
        ensures Covers(acc, x) <==> Covers(a[..i + 1], x) && Covers(b, x)
      {
        AppendCovers(a[..i], [a[i]], x);
        assert Covers([a[i]], x) <==> Holds(a[i], x);
      }
    }
    assert a[..|a|] == a;
    out := NormalizeCoverage(acc);
  }
}
