/**
 Levenshtein distance: its meaning as the least number of single-character edits, the
 two-row computation with an early exit, and what the early exit may return.
 */
module EditDistance {

  function Min(a: nat, b: nat): nat {
    if a < b then a else b
  }

  function Init(s: string): string
    requires s != []
  {
    s[..|s| - 1]
  }

  function Cost(a: string, b: string): nat
    requires a != [] && b != []
  {
    if a[|a| - 1] == b[|b| - 1] then 0 else 1
  }

  /** Levenshtein distance, by the last characters. */
  function Dist(a: string, b: string): nat {
    if a == [] then |b|
    else if b == [] then |a|
    else Min(Min(Dist(Init(a), b) + 1, Dist(a, Init(b)) + 1), Dist(Init(a), Init(b)) + Cost(a, b))
  }

  // ---------------------------------------------------------------------------
  // Meaning: the least number of edits
  // ---------------------------------------------------------------------------

  /** Replace the part `gone` between `pre` and `post` by `mid`; at most one character each. */
  datatype Edit = Edit(pre: string, gone: string, mid: string, post: string) {
    predicate Valid() {
      |gone| <= 1 && |mid| <= 1
    }

    function Before(): string {
      pre + gone + post
    }

    function After(): string {
      pre + mid + post
    }
  }

  /** `edits` turns `a` into `b` one character at a time. */
  predicate Script(edits: seq<Edit>, a: string, b: string) {
    if edits == [] then a == b
    else edits[0].Valid() && edits[0].Before() == a && Script(edits[1..], edits[0].After(), b)
  }

  lemma {:induction false} DistEmpty(a: string)
    ensures Dist(a, []) == |a| && Dist([], a) == |a|
  {}

  lemma {:induction false} DistSelf(a: string)
    ensures Dist(a, a) == 0
  {
    if a != [] {
      DistSelf(Init(a));
    }
  }

  /** Adding or dropping one character at the end changes the distance by at most one. */
  lemma {:induction false} DistStep(a: string, c: char, b: string)
    ensures Dist(a + [c], b) <= Dist(a, b) + 1
    ensures Dist(a, b) <= Dist(a + [c], b) + 1
    decreases |b|
  {
    assert Init(a + [c]) == a;
    if b == [] {
      DistEmpty(a);
      DistEmpty(a + [c]);
    } else {
      DistStep(a, c, Init(b));
      if a == [] {
        DistEmpty(b);
        DistEmpty(Init(b));
      }
    }
  }

  /** Any edit moves the distance to a fixed string by at most one. */
  lemma {:induction false} EditStep(pre: string, gone: string, mid: string, post: string, b: string)
    requires |gone| <= 1 && |mid| <= 1
    ensures Dist(pre + gone + post, b) <= Dist(pre + mid + post, b) + 1
    decreases |post| + |b|
  {
    var x, y := pre + gone + post, pre + mid + post;
    if post == [] {
      assert x == pre + gone && y == pre + mid;
      EndEditStep(pre, gone, mid, b);
    } else {
      var p := post[..|post| - 1];
      assert Init(x) == pre + gone + p && Init(y) == pre + mid + p;
      assert x[|x| - 1] == post[|post| - 1] == y[|y| - 1];
      if b != [] {
        EditStep(pre, gone, mid, p, b);
        EditStep(pre, gone, mid, post, Init(b));
        EditStep(pre, gone, mid, p, Init(b));
      }
    }
  }

  lemma {:induction false} EndEditStep(pre: string, gone: string, mid: string, b: string)
    requires |gone| <= 1 && |mid| <= 1
    ensures Dist(pre + gone, b) <= Dist(pre + mid, b) + 1
    decreases |b|
  {
    if gone == [] || mid == [] {
      assert gone == [] ==> pre + gone == pre;
      assert mid == [] ==> pre + mid == pre;
      assert gone != [] ==> pre + gone == pre + [gone[0]];
      assert mid != [] ==> pre + mid == pre + [mid[0]];
      if gone != [] { DistStep(pre, gone[0], b); }
      if mid != [] { DistStep(pre, mid[0], b); }
    } else {
      assert Init(pre + gone) == pre == Init(pre + mid);
      if b != [] {
        EndEditStep(pre, gone, mid, Init(b));
        DistStep(pre, mid[0], Init(b));
      }
    }
  }

  /** No edit script is shorter than the distance. */
  lemma {:induction false} DistLeast(edits: seq<Edit>, a: string, b: string)
    requires Script(edits, a, b)
    ensures Dist(a, b) <= |edits|
  {
    if edits == [] {
      DistSelf(a);
    } else {
      var e := edits[0];
      DistLeast(edits[1..], e.After(), b);
      EditStep(e.pre, e.gone, e.mid, e.post, b);
    }
  }

  lemma {:induction false} ScriptConcat(es: seq<Edit>, fs: seq<Edit>, a: string, b: string, c: string)
    requires Script(es, a, b) && Script(fs, b, c)
    ensures Script(es + fs, a, c)
  {
    if es == [] {
      assert es + fs == fs;
    } else {
      ScriptConcat(es[1..], fs, es[0].After(), b, c);
      assert (es + fs)[1..] == es[1..] + fs;
    }
  }

  function Extend(edits: seq<Edit>, c: char): seq<Edit> {
    seq(|edits|, i requires 0 <= i < |edits| => edits[i].(post := edits[i].post + [c]))
  }

  /** The same edits in front of one more untouched character. */
  lemma {:induction false} ScriptExtend(edits: seq<Edit>, a: string, b: string, c: char)
    requires Script(edits, a, b)
    ensures Script(Extend(edits, c), a + [c], b + [c])
  {
    if edits != [] {
      var e := edits[0];
      ScriptExtend(edits[1..], e.After(), b, c);
      var f := e.(post := e.post + [c]);
      assert f.Before() == e.Before() + [c] && f.After() == e.After() + [c];
      assert Extend(edits, c)[1..] == Extend(edits[1..], c);
    }
  }

  /** One edit appended to a script. */
  lemma {:induction false} ScriptThen(edits: seq<Edit>, a: string, e: Edit)
    requires Script(edits, a, e.Before()) && e.Valid()
    ensures Script(edits + [e], a, e.After())
  {
    assert [e][1..] == [] && Script([], e.After(), e.After());
    ScriptConcat(edits, [e], a, e.Before(), e.After());
  }

  /** One edit in front of a script. */
  lemma {:induction false} ScriptAfter(e: Edit, edits: seq<Edit>, b: string)
    requires Script(edits, e.After(), b) && e.Valid()
    ensures Script([e] + edits, e.Before(), b)
  {
    assert ([e] + edits)[1..] == edits;
  }

  /** Some edit script has exactly the distance as its length. */
  lemma {:induction false} DistReached(a: string, b: string) returns (edits: seq<Edit>)
    ensures Script(edits, a, b) && |edits| == Dist(a, b)
    decreases |a| + |b|
  {
    if a == [] && b == [] {
      edits := [];
    } else if a == [] || (b != [] && Dist(a, b) == Dist(a, Init(b)) + 1) {
      edits := DistReached(a, Init(b));
      edits := AppendLast(edits, a, b);
    } else if b == [] || Dist(a, b) == Dist(Init(a), b) + 1 {
      edits := DistReached(Init(a), b);
      edits := DropLast(edits, a, b);
    } else {
      edits := DistReached(Init(a), Init(b));
      edits := LastCharacter(edits, a, b);
    }
  }

  lemma {:induction false} AppendLast(edits: seq<Edit>, a: string, b: string) returns (more: seq<Edit>)
    requires b != [] && Script(edits, a, Init(b))
    ensures Script(more, a, b) && |more| == |edits| + 1
  {
    var e := Edit(Init(b), [], [b[|b| - 1]], []);
    assert e.Before() == Init(b) && e.After() == b;
    ScriptThen(edits, a, e);
    more := edits + [e];
  }

  lemma {:induction false} DropLast(edits: seq<Edit>, a: string, b: string) returns (more: seq<Edit>)
    requires a != [] && Script(edits, Init(a), b)
    ensures Script(more, a, b) && |more| == |edits| + 1
  {
    var e := Edit(Init(a), [a[|a| - 1]], [], []);
    assert e.Before() == a && e.After() == Init(a);
    ScriptAfter(e, edits, b);
    more := [e] + edits;
  }

  /** Keeping or replacing the last character. */
  lemma {:induction false} LastCharacter(edits: seq<Edit>, a: string, b: string) returns (more: seq<Edit>)
    requires a != [] && b != [] && Script(edits, Init(a), Init(b))
    ensures Script(more, a, b) && |more| == |edits| + Cost(a, b)
  {
    var c, d := a[|a| - 1], b[|b| - 1];
    ScriptExtend(edits, Init(a), Init(b), c);
    assert Init(a) + [c] == a && Init(b) + [d] == b;
    more := Extend(edits, c);
    if c != d {
      var e := Edit(Init(b), [c], [d], []);
      assert e.Before() == Init(b) + [c] && e.After() == b;
      ScriptThen(more, a, e);
      more := more + [e];
    }
  }

  // ---------------------------------------------------------------------------
  // The bounded computation
  // ---------------------------------------------------------------------------

  /** The distance is at least the difference of the lengths. */
  lemma {:induction false} DistLengths(a: string, b: string)
    ensures Dist(a, b) >= |a| - |b| && Dist(a, b) >= |b| - |a|
    ensures Dist(a, b) <= if |a| > |b| then |a| else |b|
    decreases |a| + |b|
  {
    if a != [] && b != [] {
      DistLengths(Init(a), b);
      DistLengths(a, Init(b));
      DistLengths(Init(a), Init(b));
    }
  }

  /** The distance between the first `i` and the first `j` characters. */
  function DistAt(a: string, b: string, i: nat, j: nat): nat
    requires i <= |a| && j <= |b|
  {
    if i == 0 then j
    else if j == 0 then i
    else Min(Min(DistAt(a, b, i - 1, j) + 1, DistAt(a, b, i, j - 1) + 1),
             DistAt(a, b, i - 1, j - 1) + (if a[i - 1] == b[j - 1] then 0 else 1))
  }

  /** Only the first `i` and the first `j` characters matter. */
  lemma {:induction false} DistAtAgree(a: string, b: string, x: string, y: string, i: nat, j: nat)
    requires i <= |a| && i <= |x| && j <= |b| && j <= |y|
    requires forall k :: 0 <= k < i ==> a[k] == x[k]
    requires forall k :: 0 <= k < j ==> b[k] == y[k]
    ensures DistAt(a, b, i, j) == DistAt(x, y, i, j)
  {
    if i > 0 && j > 0 {
      DistAtAgree(a, b, x, y, i - 1, j);
      DistAtAgree(a, b, x, y, i, j - 1);
      DistAtAgree(a, b, x, y, i - 1, j - 1);
    }
  }

  lemma {:induction false} DistAtWhole(a: string, b: string)
    ensures DistAt(a, b, |a|, |b|) == Dist(a, b)
    decreases |a| + |b|, 0
  {
    if a != [] && b != [] {
      DistAtPrefix(a, b, Init(a), b);
      DistAtPrefix(a, b, a, Init(b));
      DistAtPrefix(a, b, Init(a), Init(b));
    }
  }

  lemma {:induction false} DistAtPrefix(a: string, b: string, x: string, y: string)
    requires x <= a && y <= b
    ensures DistAt(a, b, |x|, |y|) == Dist(x, y)
    decreases |x| + |y|, 1
  {
    DistAtWhole(x, y);
    DistAtAgree(a, b, x, y, |x|, |y|);
  }

  /** Once every entry of row `i` is at least `m`, no later entry is smaller. */
  lemma {:induction false} RowBound(a: string, b: string, i: nat, k: nat, j: nat, m: nat)
    requires i <= k <= |a| && j <= |b|
    requires forall q :: 0 <= q <= |b| ==> DistAt(a, b, i, q) >= m
    ensures DistAt(a, b, k, j) >= m
    decreases k + j
  {
    if k > i {
      if j == 0 {
        assert DistAt(a, b, i, 0) == i;
      } else {
        RowBound(a, b, i, k - 1, j, m);
        RowBound(a, b, i, k, j - 1, m);
        RowBound(a, b, i, k - 1, j - 1, m);
      }
    }
  }

  /** `row` holds the first `upto` distances from the first `i` characters of `a`. */
  ghost predicate Row(row: array<nat>, a: string, b: string, i: nat, upto: nat)
    requires i <= |a| && upto <= |b| + 1
    reads row
  {
    row.Length == |b| + 1 && forall j :: 0 <= j < upto ==> row[j] == DistAt(a, b, i, j)
  }

  /** What the bounded distance promises: the exact distance within the bound, otherwise any value past it. */
  predicate Bounded(d: nat, a: string, b: string, bound: nat) {
    if Dist(a, b) <= bound then d == Dist(a, b) else d > bound
  }

  /** Exact when the distance is within the bound; otherwise some value past the bound. */
  method BoundedEditDistance(a: string, b: string, bound: nat) returns (d: nat)
    ensures Bounded(d, a, b, bound)
  {
    var diff := if |a| > |b| then |a| - |b| else |b| - |a|;
    DistLengths(a, b);
    DistAtWhole(a, b);
    if diff > bound { return diff; }
    var prev, cur := new nat[|b| + 1](_ => 0), new nat[|b| + 1](_ => 0);
    for j := 0 to |b| + 1
      invariant forall q :: 0 <= q < j ==> prev[q] == q
    {
      prev[j] := j;
    }
    for i := 1 to |a| + 1
      invariant prev != cur && cur.Length == |b| + 1 && fresh(prev) && fresh(cur)
      invariant Row(prev, a, b, i - 1, |b| + 1)
    {
      var rowMin := FillRow(a, b, i, prev, cur);
      if rowMin > bound {
        RowBound(a, b, i, |a|, |b|, rowMin);
        return rowMin;
      }
      prev, cur := cur, prev;
    }
    d := prev[|b|];
  }

  /** The next row, from the previous one, and its least entry. */
  method FillRow(a: string, b: string, i: nat, prev: array<nat>, cur: array<nat>) returns (rowMin: nat)
    requires 0 < i <= |a| && prev != cur && cur.Length == |b| + 1
    requires Row(prev, a, b, i - 1, |b| + 1)
    modifies cur
    ensures Row(cur, a, b, i, |b| + 1)
    ensures forall q :: 0 <= q <= |b| ==> rowMin <= DistAt(a, b, i, q)
    ensures exists q :: 0 <= q <= |b| && rowMin == DistAt(a, b, i, q)
  {
    cur[0] := i;
    rowMin := cur[0];
    assert rowMin == DistAt(a, b, i, 0);
    for j := 1 to |b| + 1
      invariant Row(prev, a, b, i - 1, |b| + 1) && Row(cur, a, b, i, j)
      invariant forall q :: 0 <= q < j ==> rowMin <= DistAt(a, b, i, q)
      invariant exists q :: 0 <= q < j && rowMin == DistAt(a, b, i, q)
    {
      var cost := if a[i - 1] == b[j - 1] then 0 else 1;
      cur[j] := Min(Min(prev[j] + 1, cur[j - 1] + 1), prev[j - 1] + cost);
      assert cur[j] == DistAt(a, b, i, j);
      rowMin := Min(rowMin, cur[j]);
    }
  }
}
