/**
 Bounded top-k selection: the per-worker heap, and the parallel scan over a shared chunk
 counter as a state machine in which the workers' steps interleave freely.
 */
module TopK {
  import opened Wrappers
  import opened Sorting

  const CHUNK: nat := 8192

  function Min(a: nat, b: nat): nat {
    if a < b then a else b
  }

  // ---------------------------------------------------------------------------
  // The k least items
  // ---------------------------------------------------------------------------

  /** `kept` are the `k` least items of `all`, or all of them when there are fewer. */
  ghost predicate Least<T>(less: (T, T) -> bool, k: nat, kept: multiset<T>, all: multiset<T>) {
    && kept <= all
    && |kept| == Min(k, |all|)
    && forall x, y :: x in kept && y in all - kept ==> !less(y, x)
  }

  /** A greatest item of a non-empty collection. */
  ghost predicate Greatest<T>(less: (T, T) -> bool, m: multiset<T>, x: T) {
    x in m && forall y :: y in m ==> !less(x, y)
  }

  /** What a collector keeps after one more item, where `worst` is its greatest item. */
  ghost predicate Pushed<T(!new)>(less: (T, T) -> bool, k: nat, kept: multiset<T>, x: T, next: multiset<T>) {
    if k == 0 then next == kept
    else if |kept| < k then next == kept + multiset{x}
    else exists worst :: Greatest(less, kept, worst)
                         && next == if less(x, worst) then kept - multiset{worst} + multiset{x} else kept
  }

  /** Keeping the k least items one push at a time. */
  lemma {:induction false} PushLeast<T(!new)>(less: (T, T) -> bool, k: nat, kept: multiset<T>, all: multiset<T>, x: T,
                                              next: multiset<T>)
    requires StrictTotal(less) && Least(less, k, kept, all) && Pushed(less, k, kept, x, next)
    ensures Least(less, k, next, all + multiset{x})
  {
    if k == 0 {
    } else if |kept| < k {
      assert kept == all by { SmallerSame(kept, all); }
      assert all + multiset{x} - next == multiset{};
    } else {
      var worst :| Greatest(less, kept, worst)
                   && next == if less(x, worst) then kept - multiset{worst} + multiset{x} else kept;
      if less(x, worst) {
        ReplaceLeast(less, kept, all, x, worst);
      } else {
        forall a, b | a in next && b in all + multiset{x} - next
          ensures !less(b, a)
        {
          assert b in all - kept || b == x;
        }
      }
    }
  }

  lemma {:induction false} SmallerSame<T>(m: multiset<T>, n: multiset<T>)
    requires m <= n && |m| == |n|
    ensures m == n
  {
    assert n == m + (n - m);
    assert |n - m| == 0;
  }

  lemma {:induction false} ReplaceLeast<T(!new)>(less: (T, T) -> bool, kept: multiset<T>, all: multiset<T>, x: T,
                                                 worst: T)
    requires StrictTotal(less) && kept <= all && Greatest(less, kept, worst) && less(x, worst)
    requires forall a, b :: a in kept && b in all - kept ==> !less(b, a)
    ensures var next := kept - multiset{worst} + multiset{x};
            && next <= all + multiset{x} && |next| == |kept|
            && forall a, b :: a in next && b in all + multiset{x} - next ==> !less(b, a)
  {
    var next := kept - multiset{worst} + multiset{x};
    forall a, b | a in next && b in all + multiset{x} - next
      ensures !less(b, a)
    {
      assert b in all - kept || b == worst;
      assert a in kept || a == x;
      assert !less(b, worst);
      if a == x {
        assert less(b, x) ==> less(b, worst);
      }
    }
  }

  // ---------------------------------------------------------------------------
  // The collector
  // ---------------------------------------------------------------------------

  class TopKCollector<T(==, !new)> {
    const limit: nat
    const less: (T, T) -> bool
    var items: seq<T>

    /** The heap vector: within the limit and in heap order. */
    ghost predicate Valid()
      reads this
    {
      |items| <= limit && IsHeap(less, items)
    }

    constructor (limit: nat, less: (T, T) -> bool)
      ensures Valid() && items == [] && this.limit == limit && this.less == less
    {
      this.limit, this.less, this.items := limit, less, [];
    }

    predicate Full()
      reads this
    {
      |items| >= limit
    }

    /** Whether a push of `x` would be kept. */
    method Accepts(x: T) returns (accepts: bool)
      requires Valid() && StrictTotal(less)
      ensures forall next :: Pushed(less, limit, multiset(items), x, next) ==> (accepts <==> next != multiset(items))
    {
      assert |multiset(items)| == |items|;
      if |items| < limit {
        assert (multiset(items) + multiset{x})[x] > multiset(items)[x];
        return true;
      }
      if items == [] { return false; }
      FrontGreatest();
      accepts := less(x, items[0]);
      forall next | Pushed(less, limit, multiset(items), x, next)
        ensures accepts <==> next != multiset(items)
      {
        var worst :| Greatest(less, multiset(items), worst)
                     && next == if less(x, worst) then multiset(items) - multiset{worst} + multiset{x}
                             else multiset(items);
        assert worst == items[0];
        if less(x, worst) {
          assert next[x] > multiset(items)[x];
        }
      }
    }

    /** Keeps the limit least items of everything pushed. */
    method Push(x: T)
      requires Valid() && StrictTotal(less)
      modifies this
      ensures Valid()
      ensures Pushed(less, limit, old(multiset(items)), x, multiset(items))
      ensures |items| == Min(limit, |old(items)| + 1)
    {
      if limit == 0 { return; }
      assert |multiset(items)| == |items|;
      if |items| < limit {
        assert (items + [x])[..|items|] == items;
        items := PushHeap(less, items + [x]);
      } else if less(x, items[0]) {
        FrontGreatest();
        var popped := PopHeap(less, items);
        assert popped == popped[..|popped| - 1] + [popped[|popped| - 1]];
        assert popped[|popped| - 1 := x][..|popped| - 1] == popped[..|popped| - 1];
        items := PushHeap(less, popped[|popped| - 1 := x]);
      } else {
        FrontGreatest();
      }
    }

    lemma {:induction false} FrontGreatest()
      requires Valid() && items != [] && StrictTotal(less)
      ensures Greatest(less, multiset(items), items[0])
    {
      assert items[0] in multiset(items);
      forall y | y in multiset(items)
        ensures !less(items[0], y)
      {
        var i :| 0 <= i < |items| && items[i] == y;
        FrontAbove(less, items, i);
      }
    }
  }

  /** No item is greater than its parent in the vector read as a binary tree. */
  ghost predicate IsHeap<T>(less: (T, T) -> bool, items: seq<T>) {
    forall i, parent :: 0 <= parent < i < |items| && parent == (i - 1) / 2 ==> !less(items[parent], items[i])
  }

  lemma {:induction false} FrontAbove<T(!new)>(less: (T, T) -> bool, items: seq<T>, i: nat)
    requires StrictTotal(less) && IsHeap(less, items) && i < |items|
    ensures !less(items[0], items[i])
  {
    if i > 0 {
      var parent := (i - 1) / 2;
      FrontAbove(less, items, parent);
      assert !less(items[parent], items[i]);
    }
  }

  /** Everything in falling order is one heap of its items. */
  function Falling<T>(less: (T, T) -> bool, items: seq<T>): seq<T> {
    Sort((a: T, b: T) => less(b, a), items)
  }

  lemma {:induction false} FallingHeap<T(!new)>(less: (T, T) -> bool, items: seq<T>)
    requires StrictTotal(less)
    ensures IsHeap(less, Falling(less, items)) && multiset(Falling(less, items)) == multiset(items)
    ensures |Falling(less, items)| == |items|
  {
    var greater := (a: T, b: T) => less(b, a);
    assert StrictTotal(greater);
    SortCorrect(greater, items);
    var heap := Falling(less, items);
    forall i, parent | 0 <= parent < i < |heap| && parent == (i - 1) / 2
      ensures !less(heap[parent], heap[i])
    {
      assert !greater(heap[i], heap[parent]);
    }
  }

  /** What `std::push_heap` guarantees: the last item joins the heap before it. */
  method PushHeap<T(==, !new)>(less: (T, T) -> bool, items: seq<T>) returns (heap: seq<T>)
    requires StrictTotal(less) && items != [] && IsHeap(less, items[..|items| - 1])
    ensures multiset(heap) == multiset(items) && |heap| == |items|
    ensures IsHeap(less, heap)
  {
    heap := Falling(less, items);
    FallingHeap(less, items);
  }

  /** What `std::pop_heap` guarantees: the front item moves to the back, the rest is a heap again. */
  method PopHeap<T(==, !new)>(less: (T, T) -> bool, items: seq<T>) returns (heap: seq<T>)
    requires StrictTotal(less) && items != [] && IsHeap(less, items)
    ensures multiset(heap) == multiset(items) && |heap| == |items| && heap[|heap| - 1] == items[0]
    ensures IsHeap(less, heap[..|heap| - 1])
  {
    FallingHeap(less, items[1..]);
    heap := Falling(less, items[1..]) + [items[0]];
    assert heap[..|heap| - 1] == Falling(less, items[1..]);
    assert items == [items[0]] + items[1..];
  }

  // ---------------------------------------------------------------------------
  // The parallel scan
  // ---------------------------------------------------------------------------

  /** The items of indices [lo, hi); an index contributes at most one item. */
  ghost function Items<T>(emit: nat -> Option<T>, lo: nat, hi: nat): multiset<T>
    decreases hi - lo
  {
    if lo >= hi then multiset{} else ItemAt(emit, lo) + Items(emit, lo + 1, hi)
  }

  ghost function ItemAt<T>(emit: nat -> Option<T>, i: nat): multiset<T> {
    if emit(i).Some? then multiset{emit(i).value} else multiset{}
  }

  /** One worker thread: its claimed range, its collector, and everything it has pushed. */
  datatype Worker<T> = Worker(started: bool, pos: nat, end: nat, done: bool, kept: multiset<T>, pushed: multiset<T>)

  /**
   The shared counter, the workers, of which some may never have started, and the first index
   whose scan threw.
   */
  datatype Pool<T> = Pool(next: nat, workers: seq<Worker<T>>, error: Option<nat>)

  datatype Job<!T> = Job(n: nat, limit: nat, less: (T, T) -> bool, emit: nat -> Option<T>)

  ghost predicate Init<T>(p: Pool<T>) {
    && p.next == 0 && p.error == None && |p.workers| > 0 && p.workers[0].started
    && forall t :: 0 <= t < |p.workers| ==>
         p.workers[t] == Worker(p.workers[t].started, 0, 0, false, multiset{}, multiset{})
  }

  /** An idle worker advances the shared counter and scans the chunk it got, or stops. */
  ghost predicate Claim<T>(job: Job<T>, p: Pool<T>, t: nat, q: Pool<T>) {
    && t < |p.workers|
    && var w := p.workers[t];
       && w.started && !w.done && w.pos == w.end
       && q == Pool(p.next + CHUNK, p.workers[t :=
                 if p.next >= job.n then w.(done := true)
                 else w.(pos := p.next, end := Min(job.n, p.next + CHUNK))], p.error)
  }

  /** A worker scans its next index and pushes what that index emits. */
  ghost predicate Scan<T(!new)>(job: Job<T>, p: Pool<T>, t: nat, q: Pool<T>) {
    && t < |p.workers|
    && var w := p.workers[t];
       && w.started && !w.done && w.pos < w.end
       && q.next == p.next
       && |q.workers| == |p.workers|
       && q == Pool(p.next, p.workers[t := w.(pos := w.pos + 1, kept := q.workers[t].kept,
                                              pushed := w.pushed + ItemAt(job.emit, w.pos))], p.error)
       && match job.emit(w.pos)
          case None => q.workers[t].kept == w.kept
          case Some(x) => Pushed(job.less, job.limit, w.kept, x, q.workers[t].kept)
  }

  /** Scanning the next index throws: the worker stops, and no further chunk is given out. */
  ghost predicate Throw<T>(job: Job<T>, p: Pool<T>, t: nat, q: Pool<T>) {
    && t < |p.workers|
    && var w := p.workers[t];
       && w.started && !w.done && w.pos < w.end
       && q == Pool(job.n, p.workers[t := w.(done := true)], if p.error == None then Some(w.pos) else p.error)
  }

  ghost predicate Next<T(!new)>(job: Job<T>, p: Pool<T>, t: nat, q: Pool<T>) {
    Claim(job, p, t, q) || Scan(job, p, t, q) || Throw(job, p, t, q)
  }

  ghost predicate Run<T(!new)>(job: Job<T>, run: seq<Pool<T>>, turns: seq<nat>) {
    && |run| == |turns| + 1
    && Init(run[0])
    && forall i :: 0 <= i < |turns| ==> Next(job, run[i], turns[i], run[i + 1])
  }

  /** Every started worker has been joined. */
  ghost predicate Joined<T>(p: Pool<T>) {
    forall t :: 0 <= t < |p.workers| && p.workers[t].started ==> p.workers[t].done
  }

  ghost function KeptSum<T>(ws: seq<Worker<T>>): multiset<T> {
    if ws == [] then multiset{} else ws[0].kept + KeptSum(ws[1..])
  }

  ghost function PushedSum<T>(ws: seq<Worker<T>>): multiset<T> {
    if ws == [] then multiset{} else ws[0].pushed + PushedSum(ws[1..])
  }

  /** Claimed indices not scanned yet. */
  ghost function PendingSum<T>(emit: nat -> Option<T>, ws: seq<Worker<T>>): multiset<T> {
    if ws == [] then multiset{} else Items(emit, ws[0].pos, ws[0].end) + PendingSum(emit, ws[1..])
  }

  ghost predicate WorkerOk<T>(job: Job<T>, w: Worker<T>, next: nat) {
    && Least(job.less, job.limit, w.kept, w.pushed)
    && w.pos <= w.end <= job.n
    && (!w.started ==> w.pos == w.end)
    && (w.done ==> w.pos == w.end && next >= job.n)
  }

  /** Nothing is lost or scanned twice: pushed, pending and unclaimed items make up the job. */
  ghost predicate Inv<T(!new)>(job: Job<T>, p: Pool<T>) {
    && |p.workers| > 0 && p.workers[0].started
    && (forall t :: 0 <= t < |p.workers| ==> WorkerOk(job, p.workers[t], p.next))
    && forall v :: PushedSum(p.workers)[v] + PendingSum(job.emit, p.workers)[v]
                   + Items(job.emit, Min(p.next, job.n), job.n)[v] == Items(job.emit, 0, job.n)[v]
  }

  lemma {:induction false} ItemsSplit<T>(emit: nat -> Option<T>, lo: nat, mid: nat, hi: nat)
    requires lo <= mid <= hi
    ensures Items(emit, lo, hi) == Items(emit, lo, mid) + Items(emit, mid, hi)
    decreases mid - lo
  {
    if lo < mid {
      ItemsSplit(emit, lo + 1, mid, hi);
    }
  }

  lemma {:induction false} ItemsLast<T>(emit: nat -> Option<T>, lo: nat, i: nat)
    requires lo <= i
    ensures Items(emit, lo, i + 1) == Items(emit, lo, i) + ItemAt(emit, i)
  {
    ItemsSplit(emit, lo, i, i + 1);
    assert Items(emit, i, i + 1) == ItemAt(emit, i) + Items(emit, i + 1, i + 1);
  }

  /** Replacing one worker changes the sums by that worker's difference. */
  lemma {:induction false} PushedUpdate<T>(ws: seq<Worker<T>>, t: nat, w: Worker<T>, v: T)
    requires t < |ws|
    ensures PushedSum(ws[t := w])[v] + ws[t].pushed[v] == PushedSum(ws)[v] + w.pushed[v]
  {
    if t == 0 {
      assert ws[t := w][1..] == ws[1..];
    } else {
      PushedUpdate(ws[1..], t - 1, w, v);
      assert ws[t := w][1..] == ws[1..][t - 1 := w];
    }
  }

  lemma {:induction false} PendingUpdate<T>(emit: nat -> Option<T>, ws: seq<Worker<T>>, t: nat, w: Worker<T>, v: T)
    requires t < |ws|
    ensures PendingSum(emit, ws[t := w])[v] + Items(emit, ws[t].pos, ws[t].end)[v]
         == PendingSum(emit, ws)[v] + Items(emit, w.pos, w.end)[v]
  {
    if t == 0 {
      assert ws[t := w][1..] == ws[1..];
    } else {
      PendingUpdate(emit, ws[1..], t - 1, w, v);
      assert ws[t := w][1..] == ws[1..][t - 1 := w];
    }
  }

  lemma {:induction false} InitInv<T(!new)>(job: Job<T>, p: Pool<T>)
    requires Init(p)
    ensures Inv(job, p)
  {
    InitSums(job.emit, p.workers);
  }

  lemma {:induction false} InitSums<T>(emit: nat -> Option<T>, ws: seq<Worker<T>>)
    requires forall t :: 0 <= t < |ws| ==> ws[t].pos == ws[t].end && ws[t].pushed == multiset{}
    ensures PushedSum(ws) == multiset{} && PendingSum(emit, ws) == multiset{}
  {
    if ws != [] {
      InitSums(emit, ws[1..]);
    }
  }

  lemma {:induction false} WorkersKeep<T>(job: Job<T>, p: Pool<T>, t: nat, q: Pool<T>)
    requires t < |p.workers| && p.next <= q.next
    requires forall s :: 0 <= s < |p.workers| ==> WorkerOk(job, p.workers[s], p.next)
    requires |q.workers| == |p.workers| && q.workers == p.workers[t := q.workers[t]] &&
             WorkerOk(job, q.workers[t], q.next)
    ensures forall s :: 0 <= s < |q.workers| ==> WorkerOk(job, q.workers[s], q.next)
  {
    forall s | 0 <= s < |q.workers|
      ensures WorkerOk(job, q.workers[s], q.next)
    {
      assert WorkerOk(job, p.workers[s], p.next);
    }
  }

  lemma {:induction false} ClaimKeeps<T(!new)>(job: Job<T>, p: Pool<T>, t: nat, q: Pool<T>)
    requires Inv(job, p) && Claim(job, p, t, q)
    ensures Inv(job, q)
  {
    var v, w := p.workers[t], q.workers[t];
    assert WorkerOk(job, v, p.next);
    WorkersKeep(job, p, t, q);
    forall x
      ensures PushedSum(q.workers)[x] + PendingSum(job.emit, q.workers)[x] +
              Items(job.emit, Min(q.next, job.n), job.n)[x]
           == Items(job.emit, 0, job.n)[x]
    {
      PushedUpdate(p.workers, t, w, x);
      PendingUpdate(job.emit, p.workers, t, w, x);
      assert Items(job.emit, v.pos, v.end)[x] == 0;
      if p.next < job.n {
        ItemsSplit(job.emit, p.next, w.end, job.n);
        assert Items(job.emit, p.next, job.n)[x] ==
               Items(job.emit, p.next, w.end)[x] + Items(job.emit, w.end, job.n)[x];
      }
    }
  }

  lemma {:induction false} ScanKeeps<T(!new)>(job: Job<T>, p: Pool<T>, t: nat, q: Pool<T>)
    requires StrictTotal(job.less) && Inv(job, p) && Scan(job, p, t, q)
    ensures Inv(job, q)
  {
    var v, w := p.workers[t], q.workers[t];
    assert WorkerOk(job, v, p.next);
    if job.emit(v.pos).Some? {
      PushLeast(job.less, job.limit, v.kept, v.pushed, job.emit(v.pos).value, w.kept);
    } else {
      assert w.pushed == v.pushed;
    }
    WorkersKeep(job, p, t, q);
    forall x
      ensures PushedSum(q.workers)[x] + PendingSum(job.emit, q.workers)[x] +
              Items(job.emit, Min(q.next, job.n), job.n)[x]
           == Items(job.emit, 0, job.n)[x]
    {
      PushedUpdate(p.workers, t, w, x);
      PendingUpdate(job.emit, p.workers, t, w, x);
      assert Items(job.emit, v.pos, v.end)[x] == ItemAt(job.emit, v.pos)[x] + Items(job.emit, w.pos, w.end)[x];
    }
  }

  lemma {:induction false} RunInv<T(!new)>(job: Job<T>, run: seq<Pool<T>>, turns: seq<nat>, i: nat)
    requires StrictTotal(job.less) && Run(job, run, turns) && i < |run| && run[i].error == None
    ensures Inv(job, run[i])
  {
    if i == 0 {
      InitInv(job, run[0]);
    } else {
      assert Next(job, run[i - 1], turns[i - 1], run[i]);
      RunInv(job, run, turns, i - 1);
      if Claim(job, run[i - 1], turns[i - 1], run[i]) {
        ClaimKeeps(job, run[i - 1], turns[i - 1], run[i]);
      } else {
        ScanKeeps(job, run[i - 1], turns[i - 1], run[i]);
      }
    }
  }

  /** The first throw of a run is the one kept, whatever throws after it. */
  lemma {:induction false} FirstErrorKept<T(!new)>(job: Job<T>, run: seq<Pool<T>>, turns: seq<nat>, i: nat)
    requires Run(job, run, turns) && i < |run|
    ensures run[i].error == FirstThrow(job, run, turns, i)
  {
    if i > 0 {
      FirstErrorKept(job, run, turns, i - 1);
      ErrorAfter(job, run, turns, i - 1);
    }
  }

  lemma {:induction false} ErrorAfter<T(!new)>(job: Job<T>, run: seq<Pool<T>>, turns: seq<nat>, i: nat)
    requires Run(job, run, turns) && i < |turns|
    ensures run[i + 1].error
         == if run[i].error.Some? then run[i].error else Thrown(job, run[i], turns[i], run[i + 1])
  {
    var p, t, q := run[i], turns[i], run[i + 1];
    assert Next(job, p, t, q);
    if Scan(job, p, t, q) {
      assert q.workers[t].pos != p.workers[t].pos;
    }
  }

  /** The index of the first of the first `i` steps that throws. */
  ghost function FirstThrow<T>(job: Job<T>, run: seq<Pool<T>>, turns: seq<nat>, i: nat): Option<nat>
    requires |run| == |turns| + 1 && i < |run|
  {
    if i == 0 then None
    else
      var earlier := FirstThrow(job, run, turns, i - 1);
      if earlier.Some? then earlier else Thrown(job, run[i - 1], turns[i - 1], run[i])
  }

  ghost function Thrown<T>(job: Job<T>, p: Pool<T>, t: nat, q: Pool<T>): Option<nat> {
    if Throw(job, p, t, q) then Some(p.workers[t].pos) else None
  }

  // ---------------------------------------------------------------------------
  // The result
  // ---------------------------------------------------------------------------

  /** The least items of a union are among the least items of its parts. */
  lemma {:induction false} LeastOfUnion<T(!new)>(less: (T, T) -> bool, k: nat, ws: seq<Worker<T>>, m: multiset<T>)
    requires StrictTotal(less)
    requires forall t :: 0 <= t < |ws| ==> Least(less, k, ws[t].kept, ws[t].pushed)
    requires Least(less, k, m, KeptSum(ws))
    ensures Least(less, k, m, PushedSum(ws))
  {
    DroppedBehind(less, k, ws);
    if |KeptSum(ws)| < k {
      NothingDropped(less, k, ws);
    } else {
      assert PushedSum(ws) == KeptSum(ws) + (PushedSum(ws) - KeptSum(ws));
      forall x, y | x in m && y in PushedSum(ws) - m
        ensures !less(y, x)
      {
        if y !in KeptSum(ws) - m {
          BehindWholeKept(less, k, ws, m, x, y);
        }
      }
    }
  }

  lemma {:induction false} NothingDropped<T>(less: (T, T) -> bool, k: nat, ws: seq<Worker<T>>)
    requires forall t :: 0 <= t < |ws| ==> Least(less, k, ws[t].kept, ws[t].pushed)
    requires |KeptSum(ws)| < k
    ensures KeptSum(ws) == PushedSum(ws)
  {
    if ws != [] {
      assert |KeptSum(ws)| == |ws[0].kept| + |KeptSum(ws[1..])|;
      NothingDropped(less, k, ws[1..]);
      SmallerSame(ws[0].kept, ws[0].pushed);
    }
  }

  lemma {:induction false} DroppedBehind<T>(less: (T, T) -> bool, k: nat, ws: seq<Worker<T>>)
    requires forall t :: 0 <= t < |ws| ==> Least(less, k, ws[t].kept, ws[t].pushed)
    ensures KeptSum(ws) <= PushedSum(ws)
  {
    if ws != [] {
      DroppedBehind(less, k, ws[1..]);
    }
  }

  /** A dropped item was dropped by a worker that kept `k` items no larger than it. */
  lemma {:induction false} DroppedSomewhere<T>(less: (T, T) -> bool, k: nat, ws: seq<Worker<T>>, y: T) returns (t: nat)
    requires forall s :: 0 <= s < |ws| ==> Least(less, k, ws[s].kept, ws[s].pushed)
    requires y in PushedSum(ws) - KeptSum(ws)
    ensures t < |ws| && y in ws[t].pushed - ws[t].kept && ws[t].kept <= KeptSum(ws)
  {
    if y in ws[0].pushed - ws[0].kept {
      t := 0;
    } else {
      t := DroppedSomewhere(less, k, ws[1..], y);
      assert ws[1..][t] == ws[t + 1];
      t := t + 1;
    }
  }

  lemma {:induction false} BehindWholeKept<T(!new)>(less: (T, T) -> bool, k: nat, ws: seq<Worker<T>>, m: multiset<T>,
                                                    x: T, y: T)
    requires StrictTotal(less)
    requires forall t :: 0 <= t < |ws| ==> Least(less, k, ws[t].kept, ws[t].pushed)
    requires Least(less, k, m, KeptSum(ws)) && x in m && y in PushedSum(ws) - KeptSum(ws)
    ensures !less(y, x)
  {
    var t := DroppedSomewhere(less, k, ws, y);
    FullOrWhole(less, k, ws[t].kept, ws[t].pushed);
    NotAllBelow(less, k, ws[t].kept, m, KeptSum(ws), x);
    var z :| z in ws[t].kept && !less(z, x);
    assert !less(y, z);
  }

  lemma {:induction false} FullOrWhole<T>(less: (T, T) -> bool, k: nat, kept: multiset<T>, all: multiset<T>)
    requires Least(less, k, kept, all)
    ensures |kept| == k || kept == all
  {
    if |kept| != k {
      SmallerSame(kept, all);
    }
  }

  /** `k` items of which all lie below one of the `k` least items do not exist. */
  lemma {:induction false} NotAllBelow<T(!new)>(less: (T, T) -> bool, k: nat, full: multiset<T>, m: multiset<T>,
                                                all: multiset<T>, x: T)
    requires StrictTotal(less) && Least(less, k, m, all) && x in m && full <= all && |full| == k
    ensures exists z :: z in full && !less(z, x)
  {
    if x !in full {
      assert |m| <= k;
      MoreItems(full, m, x);
      var z :| z in full && full[z] > m[z];
      assert z in all - m;
    }
  }

  lemma {:induction false} MoreItems<T>(m: multiset<T>, n: multiset<T>, x: T)
    requires x in n && x !in m
    ensures |m| < |n| || exists z :: z in m && m[z] > n[z]
  {
    if forall y :: y in m ==> m[y] <= n[y] {
      assert n == m + (n - m);
      assert x in n - m;
    }
  }

  lemma {:induction false} PrefixLeast<T(!new)>(less: (T, T) -> bool, k: nat, s: seq<T>)
    requires StrictTotal(less) && SortedBy(less, s)
    ensures var p := s[..Min(k, |s|)]; Least(less, k, multiset(p), multiset(s))
  {
    var c := Min(k, |s|);
    var p, rest := s[..c], s[c..];
    assert s == p + rest;
    assert multiset(s) - multiset(p) == multiset(rest);
    assert |multiset(p)| == |p| && |multiset(s)| == |s|;
    forall x, y | x in multiset(p) && y in multiset(rest)
      ensures !less(y, x)
    {
      var i :| 0 <= i < |p| && p[i] == x;
      var j :| 0 <= j < |rest| && rest[j] == y;
      assert s[i] == x && s[c + j] == y;
    }
  }

  /** Some sequence lists the items of a multiset. */
  lemma {:induction false} Listing<T>(m: multiset<T>) returns (s: seq<T>)
    ensures multiset(s) == m
  {
    if m == multiset{} {
      s := [];
    } else {
      var x :| x in m;
      s := Listing(m - multiset{x});
      s := s + [x];
    }
  }

  /** A sorted listing of the `k` least items is the first `k` of everything sorted. */
  lemma {:induction false} LeastIsPrefix<T(!new)>(less: (T, T) -> bool, k: nat, got: seq<T>, all: seq<T>)
    requires StrictTotal(less) && SortedBy(less, got) && Least(less, k, multiset(got), multiset(all))
    ensures got == Sort(less, all)[..Min(k, |all|)]
  {
    var rest := Listing(multiset(all) - multiset(got));
    var sorted := Sort(less, rest);
    SortCorrect(less, rest);
    forall i, j | 0 <= i < j < |got + sorted|
      ensures !less((got + sorted)[j], (got + sorted)[i])
    {
      if i < |got| <= j {
        assert got[i] in multiset(got) && sorted[j - |got|] in multiset(sorted);
      }
    }
    assert multiset(got + sorted) == multiset(all);
    SortCorrect(less, all);
    SortedUnique(less, got + sorted, Sort(less, all));
    assert |multiset(got)| == |got| && |multiset(all)| == |all|;
  }

  /** Everything emitted by [0, n), in index order. */
  function Emitted<T>(emit: nat -> Option<T>, n: nat): seq<T> {
    if n == 0 then []
    else Emitted(emit, n - 1) + (if emit(n - 1).Some? then [emit(n - 1).value] else [])
  }

  lemma {:induction false} EmittedItems<T>(emit: nat -> Option<T>, n: nat)
    ensures multiset(Emitted(emit, n)) == Items(emit, 0, n)
  {
    if n > 0 {
      EmittedItems(emit, n - 1);
      ItemsLast(emit, 0, n - 1);
    }
  }

  /** The specification: score everything, sort, keep the first `limit`. */
  function TopSpec<T>(job: Job<T>): seq<T> {
    var sorted := Sort(job.less, Emitted(job.emit, job.n));
    sorted[..Min(job.limit, |sorted|)]
  }

  /** The workers' collections merged, sorted and truncated. */
  function Finish<T>(job: Job<T>, merged: seq<T>): seq<T> {
    var sorted := Sort(job.less, merged);
    sorted[..Min(job.limit, |sorted|)]
  }

  /** What the caller gets once all workers are joined: the index of the first throw is the error. */
  ghost function Outcome<T>(job: Job<T>, p: Pool<T>, merged: seq<T>): Result<seq<T>, nat> {
    if p.error.Some? then Err(p.error.value) else Ok(Finish(job, merged))
  }

  /**
   The parallel scan equals the specification for any number of started workers and any
   interleaving of their chunk claims and scans, and throws exactly if a scan does.
   */
  lemma {:induction false} ParallelTopK<T(!new)>(job: Job<T>, run: seq<Pool<T>>, turns: seq<nat>, merged: seq<T>)
    requires StrictTotal(job.less) && Run(job, run, turns) && Joined(run[|turns|])
    requires multiset(merged) == KeptSum(run[|turns|].workers)
    ensures Outcome(job, run[|turns|], merged)
         == match FirstThrow(job, run, turns, |turns|)
            case Some(thrown) => Err(thrown)
            case None => Ok(TopSpec(job))
  {
    FirstErrorKept(job, run, turns, |turns|);
    if run[|turns|].error == None {
      AllPushed(job, run, turns, merged);
    }
  }

  lemma {:induction false} AllPushed<T(!new)>(job: Job<T>, run: seq<Pool<T>>, turns: seq<nat>, merged: seq<T>)
    requires StrictTotal(job.less) && Run(job, run, turns) && Joined(run[|turns|]) && run[|turns|].error == None
    requires multiset(merged) == KeptSum(run[|turns|].workers)
    ensures PushedSum(run[|turns|].workers) == Items(job.emit, 0, job.n)
    ensures Finish(job, merged) == TopSpec(job)
  {
    var p := run[|turns|];
    RunInv(job, run, turns, |turns|);
    assert WorkerOk(job, p.workers[0], p.next);
    forall t | 0 <= t < |p.workers|
      ensures p.workers[t].pos == p.workers[t].end
      ensures Least(job.less, job.limit, p.workers[t].kept, p.workers[t].pushed)
    {
      assert WorkerOk(job, p.workers[t], p.next);
    }
    NoPending(job.emit, p.workers);
    SameLeast(job, merged, p.workers);
  }

  lemma {:induction false} NoPending<T>(emit: nat -> Option<T>, ws: seq<Worker<T>>)
    requires forall t :: 0 <= t < |ws| ==> ws[t].pos == ws[t].end
    ensures PendingSum(emit, ws) == multiset{}
  {
    if ws != [] {
      NoPending(emit, ws[1..]);
    }
  }

  lemma {:induction false} SameLeast<T(!new)>(job: Job<T>, merged: seq<T>, ws: seq<Worker<T>>)
    requires StrictTotal(job.less) && multiset(merged) == KeptSum(ws)
    requires forall t :: 0 <= t < |ws| ==> Least(job.less, job.limit, ws[t].kept, ws[t].pushed)
    requires PushedSum(ws) == Items(job.emit, 0, job.n)
    ensures Finish(job, merged) == TopSpec(job)
  {
    var all := Emitted(job.emit, job.n);
    var got := Finish(job, merged);
    EmittedItems(job.emit, job.n);
    SortCorrect(job.less, merged);
    PrefixLeast(job.less, job.limit, Sort(job.less, merged));
    LeastOfUnion(job.less, job.limit, ws, multiset(got));
    LeastIsPrefix(job.less, job.limit, got, all);
  }
}
