/**
 Name suggestions: the names nearest to a query by edit distance, found by a bounded top-k
 scan that prunes with the bounded edit distance.
 */
module Suggestions {
  import opened Wrappers
  import opened Sorting
  import opened Names
  import opened TopK
  import opened EditDistance

  type Scored = (nat, string)

  const SIZE_MAX: nat := 0xFFFF_FFFF_FFFF_FFFF

  /** The order of suggestions: by distance, then by name. */
  const ScoredLess: (Scored, Scored) -> bool :=
    (a: Scored, b: Scored) => a.0 < b.0 || (a.0 == b.0 && LexLess(a.1, b.1))

  lemma {:induction false} ScoredStrictTotal()
    ensures StrictTotal(ScoredLess)
  {
    forall a: Scored
      ensures !ScoredLess(a, a)
    {
      LexIrreflexive(a.1);
    }
    forall a: Scored, b: Scored, c: Scored | ScoredLess(a, b) && ScoredLess(b, c)
      ensures ScoredLess(a, c)
    {
      LexTransitive(a.1, b.1, c.1);
    }
    forall a: Scored, b: Scored
      ensures a == b || ScoredLess(a, b) || ScoredLess(b, a)
    {
      LexTotal(a.1, b.1);
    }
  }

  /** Every name scored exactly. */
  function Score(names: seq<string>, needle: string): nat -> Option<Scored> {
    (i: nat) => if i < |names| then Some((Dist(names[i], needle), names[i])) else None
  }

  function SuggestionJob(names: seq<string>, needle: string, limit: nat): Job<Scored> {
    Job(|names|, if limit > 1 then limit else 1, ScoredLess, Score(names, needle))
  }

  // ---------------------------------------------------------------------------
  // The pruned scan
  // ---------------------------------------------------------------------------

  /** The bound a collector prunes with: the distance of its worst item once it is full. */
  ghost predicate IsBound(limit: nat, kept: multiset<Scored>, bound: nat) {
    if |kept| >= limit then exists worst :: Greatest(ScoredLess, kept, worst) && bound == worst.0
    else bound == SIZE_MAX
  }

  /** One name scanned: a distance past the bound is not pushed. */
  ghost predicate PrunedPush(limit: nat, kept: multiset<Scored>, name: string, needle: string, next: multiset<Scored>) {
    exists bound: nat, d: nat ::
      && IsBound(limit, kept, bound)
      && Bounded(d, name, needle, bound)
      && if d <= bound then Pushed(ScoredLess, limit, kept, (d, name), next) else next == kept
  }

  /** Pruning changes nothing: the collector ends up as if the exact score had been pushed. */
  lemma {:induction false} PruningIsExact(limit: nat, kept: multiset<Scored>, name: string, needle: string,
                                          next: multiset<Scored>)
    requires limit > 0 && |name| <= SIZE_MAX && |needle| <= SIZE_MAX && PrunedPush(limit, kept, name, needle, next)
    ensures Pushed(ScoredLess, limit, kept, (Dist(name, needle), name), next)
  {
    DistLengths(name, needle);
    var bound: nat, d: nat :|
      && IsBound(limit, kept, bound)
      && Bounded(d, name, needle, bound)
      && if d <= bound then Pushed(ScoredLess, limit, kept, (d, name), next) else next == kept;
    if d > bound {
      var worst :| Greatest(ScoredLess, kept, worst) && bound == worst.0;
      assert !ScoredLess((Dist(name, needle), name), worst);
    }
  }

  method ScanName(name: string, needle: string, out: TopKCollector<Scored>)
    requires IsCollector(out)
    modifies out
    ensures IsCollector(out)
    ensures PrunedPush(out.limit, old(multiset(out.items)), name, needle, multiset(out.items))
  {
    ScoredStrictTotal();
    assert |multiset(out.items)| == |out.items|;
    if out.Full() { out.FrontGreatest(); }
    var bound := if out.Full() then out.items[0].0 else SIZE_MAX;
    assert IsBound(out.limit, multiset(out.items), bound);
    var d := BoundedEditDistance(name, needle, bound);
    assert Bounded(d, name, needle, bound);
    if d <= bound {
      out.Push((d, name));
    }
  }

  /** The least of what was pushed before a chunk and the exact scores of the chunk so far. */
  ghost predicate Scanned(names: seq<string>, needle: string, begin: nat, i: nat, limit: nat,
                          pushed: multiset<Scored>, kept: multiset<Scored>) {
    Least(ScoredLess, limit, kept, pushed + Items(Score(names, needle), begin, i))
  }

  ghost predicate IsCollector(out: TopKCollector<Scored>)
    reads out
  {
    out.Valid() && out.less == ScoredLess && out.limit > 0
  }

  /** A claimed chunk: the collector keeps the least of what it held and the chunk's exact scores. */
  method ScanChunk(names: seq<string>, needle: string, begin: nat, end: nat, out: TopKCollector<Scored>,
                   ghost pushed: multiset<Scored>)
    requires begin <= end <= |names| && IsCollector(out) && FitsWord(names, needle)
    requires Least(ScoredLess, out.limit, multiset(out.items), pushed)
    modifies out
    ensures IsCollector(out)
    ensures Least(ScoredLess, out.limit, multiset(out.items), pushed + Items(Score(names, needle), begin, end))
  {
    ScannedNone(names, needle, begin, out.limit, pushed, multiset(out.items));
    for i := begin to end
      invariant IsCollector(out) && Scanned(names, needle, begin, i, out.limit, pushed, multiset(out.items))
    {
      ScanNext(names, needle, begin, i, out, pushed);
    }
    assert Scanned(names, needle, begin, end, out.limit, pushed, multiset(out.items));
  }

  method ScanNext(names: seq<string>, needle: string, ghost begin: nat, i: nat, out: TopKCollector<Scored>,
                  ghost pushed: multiset<Scored>)
    requires begin <= i < |names| && IsCollector(out) && FitsWord(names, needle)
    requires Scanned(names, needle, begin, i, out.limit, pushed, multiset(out.items))
    modifies out
    ensures IsCollector(out) && Scanned(names, needle, begin, i + 1, out.limit, pushed, multiset(out.items))
  {
    ghost var kept := multiset(out.items);
    ScanName(names[i], needle, out);
    ScannedOne(names, needle, begin, i, out.limit, kept, pushed, multiset(out.items));
  }

  /** Every name and the needle are shorter than the largest machine word. */
  ghost predicate FitsWord(names: seq<string>, needle: string) {
    |needle| <= SIZE_MAX && forall i :: 0 <= i < |names| ==> |names[i]| <= SIZE_MAX
  }

  lemma {:induction false} ScannedNone(names: seq<string>, needle: string, begin: nat, limit: nat,
                   pushed: multiset<Scored>, kept: multiset<Scored>)
    requires Least(ScoredLess, limit, kept, pushed)
    ensures Scanned(names, needle, begin, begin, limit, pushed, kept)
  {
    assert pushed + Items(Score(names, needle), begin, begin) == pushed;
  }

  lemma {:induction false} ScannedOne(names: seq<string>, needle: string, begin: nat, i: nat, limit: nat,
                   kept: multiset<Scored>, pushed: multiset<Scored>, next: multiset<Scored>)
    requires begin <= i < |names| && limit > 0 && FitsWord(names, needle)
    requires Scanned(names, needle, begin, i, limit, pushed, kept)
    requires PrunedPush(limit, kept, names[i], needle, next)
    ensures Scanned(names, needle, begin, i + 1, limit, pushed, next)
  {
    ScoredStrictTotal();
    PruningIsExact(limit, kept, names[i], needle, next);
    var emit := Score(names, needle);
    PushLeast(ScoredLess, limit, kept, pushed + Items(emit, begin, i), (Dist(names[i], needle), names[i]), next);
    ItemsLast(emit, begin, i);
    assert pushed + Items(emit, begin, i) + ItemAt(emit, i) == pushed + Items(emit, begin, i + 1);
  }

  function NamesOf(scored: seq<Scored>): (names: seq<string>)
    ensures |names| == |scored|
  {
    seq(|scored|, i requires 0 <= i < |scored| => scored[i].1)
  }

  /** Nearer to the query, or as near and earlier in the order of names. */
  ghost predicate Nearer(a: string, b: string, needle: string) {
    Dist(a, needle) < Dist(b, needle) || (Dist(a, needle) == Dist(b, needle) && LexLess(a, b))
  }

  /** Every pair is a name with its distance. */
  ghost predicate ExactScores(scored: seq<Scored>, needle: string) {
    forall i :: 0 <= i < |scored| ==> scored[i].0 == Dist(scored[i].1, needle)
  }

  lemma {:induction false} NamesCount(scored: seq<Scored>, needle: string, x: string)
    requires ExactScores(scored, needle)
    ensures multiset(NamesOf(scored))[x] == multiset(scored)[(Dist(x, needle), x)]
  {
    if scored != [] {
      var n := |scored| - 1;
      assert scored == scored[..n] + [scored[n]] && NamesOf(scored) == NamesOf(scored[..n]) + [scored[n].1];
      NamesCount(scored[..n], needle, x);
    }
  }

  lemma {:induction false} EmittedScores(names: seq<string>, needle: string, n: nat)
    requires n <= |names|
    ensures var all := Emitted(Score(names, needle), n);
            ExactScores(all, needle) && NamesOf(all) == names[..n]
  {
    if n > 0 {
      EmittedScores(names, needle, n - 1);
    }
  }

  lemma {:induction false} SortedScores(scored: seq<Scored>, needle: string)
    requires ExactScores(scored, needle)
    ensures ExactScores(Sort(ScoredLess, scored), needle)
  {
    var sorted := Sort(ScoredLess, scored);
    ScoredStrictTotal();
    SortCorrect(ScoredLess, scored);
    forall i | 0 <= i < |sorted|
      ensures sorted[i].0 == Dist(sorted[i].1, needle)
    {
      assert sorted[i] in multiset(sorted);
    }
  }

  /** The result, without scores: distinct occurrences of names, nearest first, and none left out is nearer. */
  ghost predicate NearestOf(names: seq<string>, needle: string, count: nat, out: seq<string>) {
    && multiset(out) <= multiset(names)
    && |out| == (if count < |names| then count else |names|)
    && (forall i, j :: 0 <= i < j < |out| ==> !Nearer(out[j], out[i], needle))
    && (forall i, y :: 0 <= i < |out| && y in multiset(names) - multiset(out) ==> !Nearer(y, out[i], needle))
  }

  lemma {:induction false} TopIsNearest(names: seq<string>, needle: string, limit: nat)
    ensures NearestOf(names, needle, if limit > 1 then limit else 1,
                      NamesOf(TopSpec(SuggestionJob(names, needle, limit))))
  {
    var job := SuggestionJob(names, needle, limit);
    var all := Emitted(job.emit, |names|);
    EmittedScores(names, needle, |names|);
    assert names[..|names|] == names && |all| == |names|;
    SortedScores(all, needle);
    ScoredStrictTotal();
    SortCorrect(ScoredLess, all);
    PrefixLeast(ScoredLess, job.limit, Sort(ScoredLess, all));
    PrefixNearest(names, needle, job.limit, all, Sort(ScoredLess, all));
  }

  lemma {:induction false} PrefixNearest(names: seq<string>, needle: string, limit: nat, all: seq<Scored>,
                                         sorted: seq<Scored>)
    requires ExactScores(all, needle) && NamesOf(all) == names && ExactScores(sorted, needle)
    requires multiset(sorted) == multiset(all) && |sorted| == |all| && SortedBy(ScoredLess, sorted)
    requires var p := sorted[..TopK.Min(limit, |sorted|)]; Least(ScoredLess, limit, multiset(p), multiset(sorted))
    ensures NearestOf(names, needle, limit, NamesOf(sorted[..TopK.Min(limit, |sorted|)]))
  {
    var p := sorted[..TopK.Min(limit, |sorted|)];
    var out := NamesOf(p);
    assert |p| == |out| && ExactScores(p, needle);
    forall x
      ensures multiset(out)[x] <= multiset(names)[x]
    {
      NamesCount(p, needle, x);
      NamesCount(all, needle, x);
    }
    forall i, y | 0 <= i < |out| && y in multiset(names) - multiset(out)
      ensures !Nearer(y, out[i], needle)
    {
      LeftOutBehind(needle, all, sorted, p, i, y);
    }
    forall i, j | 0 <= i < j < |out|
      ensures !Nearer(out[j], out[i], needle)
    {
      assert !ScoredLess(sorted[j], sorted[i]);
    }
  }

  lemma {:induction false} LeftOutBehind(needle: string, all: seq<Scored>, sorted: seq<Scored>, p: seq<Scored>,
                                         i: nat, y: string)
    requires ExactScores(all, needle) && ExactScores(p, needle) && multiset(sorted) == multiset(all) && i < |p|
    requires forall a, b :: a in multiset(p) && b in multiset(sorted) - multiset(p) ==> !ScoredLess(b, a)
    requires y in multiset(NamesOf(all)) - multiset(NamesOf(p))
    ensures !Nearer(y, p[i].1, needle)
  {
    NamesCount(p, needle, y);
    NamesCount(all, needle, y);
    assert p[i] in multiset(p);
    assert !ScoredLess((Dist(y, needle), y), p[i]);
  }

  /** The inline scan returns the names of the fully scored, sorted and truncated list. */
  method TopSuggestions(names: seq<string>, needle: string, limit: nat) returns (suggestions: seq<string>)
    requires FitsWord(names, needle)
    ensures suggestions == NamesOf(TopSpec(SuggestionJob(names, needle, limit)))
  {
    var job := SuggestionJob(names, needle, limit);
    ScoredStrictTotal();
    var collector := new TopKCollector<Scored>(job.limit, ScoredLess);
    ScanChunk(names, needle, 0, |names|, collector, multiset{});
    var top := Finish(job, collector.items);
    assert multiset{} + Items(job.emit, 0, job.n) == Items(job.emit, 0, job.n);
    ghost var w := Worker(true, 0, 0, true, multiset(collector.items), Items(job.emit, 0, job.n));
    assert KeptSum([w]) == w.kept && PushedSum([w]) == w.pushed;
    SameLeast(job, collector.items, [w]);
    suggestions := NamesOf(top);
  }

  // ---------------------------------------------------------------------------
  // The pruned scan on several workers
  // ---------------------------------------------------------------------------

  /** A worker scans its next name, pruning with the worst item of its own collector. */
  ghost predicate PrunedScan(names: seq<string>, needle: string, limit: nat, p: Pool<Scored>, t: nat, q: Pool<Scored>) {
    && t < |p.workers|
    && var w := p.workers[t];
       && w.started && !w.done && w.pos < w.end <= |names|
       && |q.workers| == |p.workers|
       && q == Pool(p.next, p.workers[t := w.(pos := w.pos + 1, kept := q.workers[t].kept,
                    pushed := w.pushed + multiset{(Dist(names[w.pos], needle), names[w.pos])})], p.error)
       && PrunedPush(limit, w.kept, names[w.pos], needle, q.workers[t].kept)
  }

  ghost predicate PrunedNext(names: seq<string>, needle: string, limit: nat, p: Pool<Scored>, t: nat, q: Pool<Scored>) {
    var job := SuggestionJob(names, needle, limit);
    Claim(job, p, t, q) || PrunedScan(names, needle, job.limit, p, t, q) || Throw(job, p, t, q)
  }

  ghost predicate PrunedRun(names: seq<string>, needle: string, limit: nat, run: seq<Pool<Scored>>, turns: seq<nat>) {
    && |run| == |turns| + 1
    && TopK.Init(run[0])
    && forall i :: 0 <= i < |turns| ==> PrunedNext(names, needle, limit, run[i], turns[i], run[i + 1])
  }

  /** A pruned step is a step of the scan that pushes every exact score. */
  lemma {:induction false} PrunedIsScan(names: seq<string>, needle: string, limit: nat, p: Pool<Scored>, t: nat,
                                        q: Pool<Scored>)
    requires FitsWord(names, needle) && PrunedNext(names, needle, limit, p, t, q)
    ensures Next(SuggestionJob(names, needle, limit), p, t, q)
  {
    var job := SuggestionJob(names, needle, limit);
    if PrunedScan(names, needle, job.limit, p, t, q) {
      var w := p.workers[t];
      assert job.emit(w.pos) == Some((Dist(names[w.pos], needle), names[w.pos]));
      PruningIsExact(job.limit, w.kept, names[w.pos], needle, q.workers[t].kept);
      assert Scan(job, p, t, q);
    }
  }

  /**
   The pruned scan on any number of started workers, in any interleaving, without a throw: the
   names of the fully scored, sorted and truncated list.
   */
  lemma {:induction false} ParallelSuggestions(names: seq<string>, needle: string, limit: nat,
                            run: seq<Pool<Scored>>, turns: seq<nat>, merged: seq<Scored>)
    requires FitsWord(names, needle)
    requires PrunedRun(names, needle, limit, run, turns) && Joined(run[|turns|]) && run[|turns|].error == None
    requires multiset(merged) == KeptSum(run[|turns|].workers)
    ensures NamesOf(Finish(SuggestionJob(names, needle, limit), merged))
         == NamesOf(TopSpec(SuggestionJob(names, needle, limit)))
  {
    var job := SuggestionJob(names, needle, limit);
    forall i | 0 <= i < |turns|
      ensures Next(job, run[i], turns[i], run[i + 1])
    {
      PrunedIsScan(names, needle, limit, run[i], turns[i], run[i + 1]);
    }
    ScoredStrictTotal();
    AllPushed(job, run, turns, merged);
  }
}
