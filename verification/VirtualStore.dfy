/** One session of virtual signals: the store of definitions and the cache of their transitions. */
module VirtualStore {
  import opened Wrappers
  import opened LogicValues
  import opened Expressions
  import opened VirtualTransitions
  import opened VirtualSignals
  import opened SignalGraph

  const MaxCacheSize: nat := 256

  const DefaultLimit: nat := 10000

  datatype Key = Key(name: string, expression: string, start: nat, end: nat, limit: nat)

  datatype StoreError =
    | NotFound(name: string)
    | AlreadyExists(name: string)
    | Rejected(problem: Problem)
    | StillReferenced(dependents: set<string>)
    | FixedExpression
    | ParseFailed
    | Truncated(path: string)

  // ---------------------------------------------------------------------------
  // The truncation limit
  // ---------------------------------------------------------------------------

  predicate WindowFits(wave: Wave, path: string, start: int, end: int, limit: nat) {
    path in wave && start <= end ==> |Window(wave[path].history, start, end)| <= limit
  }

  /** No real signal below `name` has more than `limit` events in the window. */
  ghost predicate Fits(created: Created, rank: map<string, nat>, wave: Wave, name: string, start: int, end: int,
                       limit: nat)
    requires Ranked(created, rank) && name in created
    decreases rank[name]
  {
    forall r :: r in Refs(created[name].ast) ==>
      if r in created then Fits(created, rank, wave, r, start, end, limit) else WindowFits(wave, r, start, end, limit)
  }

  ghost predicate RefFits(created: Created, rank: map<string, nat>, wave: Wave, r: string, start: int, end: int,
                          limit: nat)
    requires Ranked(created, rank)
  {
    if r in created then Fits(created, rank, wave, r, start, end, limit) else WindowFits(wave, r, start, end, limit)
  }

  /** The references read so far fit, and their histories are the recomputed ones. */
  ghost predicate Resolved(created: Created, rank: map<string, nat>, wave: Wave, bound: nat, refs: seq<string>,
                           ops: seq<Operand>, start: int, end: int, limit: nat)
    requires Ranked(created, rank)
  {
    && AllBelow(created, rank, refs, bound)
    && ops == Operands(created, rank, wave, refs, start, end, bound)
    && (forall r :: r in refs ==> RefFits(created, rank, wave, r, start, end, limit))
  }

  lemma {:induction false} ResolvedStep(created: Created, rank: map<string, nat>, wave: Wave, bound: nat,
                                        refs: seq<string>,
                                        ops: seq<Operand>, start: int, end: int, limit: nat, ref: string, h: History)
    requires Ranked(created, rank) && Resolved(created, rank, wave, bound, refs, ops, start, end, limit)
    requires ref in created ==> ref in rank && rank[ref] < bound
    requires RefFits(created, rank, wave, ref, start, end, limit) &&
             h == RefHistory(created, rank, wave, ref, start, end)
    ensures Resolved(created, rank, wave, bound, refs + [ref], ops + [Operand(ref, h)], start, end, limit)
  {
    assert (refs + [ref])[..|refs|] == refs;
  }

  lemma {:induction false} ResolvedFits(created: Created, rank: map<string, nat>, wave: Wave, name: string,
                                        ops: seq<Operand>,
                                        start: int, end: int, limit: nat)
    requires Ranked(created, rank) && name in created
    requires Resolved(created, rank, wave, rank[name], Dependencies(created[name]), ops, start, end, limit)
    ensures Fits(created, rank, wave, name, start, end, limit)
  {
    forall r | r in Refs(created[name].ast)
      ensures RefFits(created, rank, wave, r, start, end, limit)
    {
      assert r in Dependencies(created[name]);
    }
  }

  lemma {:induction false} AllSortedStep(ops: seq<Operand>, last: Operand)
    requires AllSorted(ops) && Sorted(last.history)
    ensures AllSorted(ops + [last])
  {}

  lemma {:induction false} FitsFrame(a: Created, r: map<string, nat>, b: Created, q: map<string, nat>, wave: Wave,
                                     keep: set<string>, name: string, start: int, end: int, limit: nat)
    requires Ranked(a, r) && Ranked(b, q) && SharedClosed(a, b, keep) && name in keep
    ensures Fits(a, r, wave, name, start, end, limit) == Fits(b, q, wave, name, start, end, limit)
    decreases r[name]
  {
    forall d | d in Refs(a[name].ast) && d in a
      ensures Fits(a, r, wave, d, start, end, limit) == Fits(b, q, wave, d, start, end, limit)
    {
      FitsFrame(a, r, b, q, wave, keep, d, start, end, limit);
    }
  }

  /** All references of a created signal are real signals, or exist nowhere. */
  ghost predicate OnReal(created: Created, name: string)
    requires name in created
  {
    forall r :: r in Refs(created[name].ast) ==> r !in created
  }

  // ---------------------------------------------------------------------------
  // The cache
  // ---------------------------------------------------------------------------

  type Cache = map<Key, History>

  /** A cached list equals the computation from scratch, and that computation succeeds. */
  ghost predicate Correct(created: Created, rank: map<string, nat>, wave: Wave, key: Key, h: History)
    requires Ranked(created, rank) && key.name in created
  {
    && h == Fresh(created, rank, wave, key.name, key.start, key.end)
    && Fits(created, rank, wave, key.name, key.start, key.end, key.limit)
  }

  /** The computation from scratch, or an error exactly when some real signal below has too many events. */
  ghost predicate FreshAnswer(created: Created, rank: map<string, nat>, wave: Wave, key: Key,
                              r: Result<History, StoreError>)
    requires Ranked(created, rank) && key.name in created
  {
    if r.Ok? then Correct(created, rank, wave, key, r.value)
    else !Fits(created, rank, wave, key.name, key.start, key.end, key.limit)
  }

  /** The operand histories recomputed or fetched, or an error as above. */
  ghost predicate FreshOperands(created: Created, rank: map<string, nat>, wave: Wave, key: Key,
                                r: Result<seq<Operand>, StoreError>)
    requires Ranked(created, rank) && key.name in created
  {
    var refs := Dependencies(created[key.name]);
    && (r.Ok? <==> Fits(created, rank, wave, key.name, key.start, key.end, key.limit))
    && (r.Ok? ==> r.value == Operands(created, rank, wave, refs, key.start, key.end, rank[key.name]))
  }

  ghost predicate RightFor(created: Created, rank: map<string, nat>, wave: Wave, key: Key, h: History)
    requires Ranked(created, rank)
  {
    key.name in created && (key.start <= key.end ==> Correct(created, rank, wave, key, h))
  }

  /** Every cached list of a proper window equals fresh recomputation. */
  ghost predicate CacheCoherent(created: Created, rank: map<string, nat>, wave: Wave, cache: Cache)
    requires Ranked(created, rank)
  {
    forall k :: k in cache ==> RightFor(created, rank, wave, k, cache[k])
  }

  /** Cached lists of signals that a change leaves alone stay right. */
  lemma {:induction false} CoherentFrame(a: Created, r: map<string, nat>, b: Created, q: map<string, nat>, wave: Wave,
                                         keep: set<string>, before: Cache, cache: Cache)
    requires Ranked(a, r) && Ranked(b, q) && SharedClosed(a, b, keep) && CacheCoherent(a, r, wave, before)
    requires forall k :: k in cache ==> k in before && cache[k] == before[k] && k.name in keep
    ensures CacheCoherent(b, q, wave, cache)
  {
    forall k | k in cache && k.start <= k.end
      ensures RightFor(b, q, wave, k, cache[k])
    {
      FreshFrame(a, r, b, q, wave, keep, k.name, k.start, k.end);
      FitsFrame(a, r, b, q, wave, keep, k.name, k.start, k.end, k.limit);
    }
  }

  /** A list stored for a window that ends before it starts is the one value at its start. */
  predicate InShape(key: Key, h: History) {
    key.start > key.end ==> |h| == 1 && h[0].t == key.start
  }

  /** Well-formed cache: insertion order and content match, and keys carry current definitions. */
  ghost predicate CacheValid(created: Created, cache: Cache, order: seq<Key>) {
    && |order| <= MaxCacheSize
    && (forall k :: k in cache <==> k in order)
    && (forall i, j :: 0 <= i < j < |order| ==> order[i] != order[j])
    && (forall k :: k in cache ==> k.name in created && k.expression == created[k.name].expression && Sorted(cache[k]))
    && (forall k :: k in cache ==> InShape(k, cache[k]))
  }

  /** What stays of a full cache: everything but its oldest entry. */
  function CacheRoom(cache: Cache, order: seq<Key>): Cache {
    if |order| >= MaxCacheSize then cache - {order[0]} else cache
  }

  function OrderRoom(order: seq<Key>): seq<Key> {
    if |order| >= MaxCacheSize then order[1..] else order
  }

  lemma {:induction false} RoomValid(created: Created, cache: Cache, order: seq<Key>)
    requires CacheValid(created, cache, order)
    ensures CacheValid(created, CacheRoom(cache, order), OrderRoom(order)) && |OrderRoom(order)| < MaxCacheSize
    ensures forall k :: k in CacheRoom(cache, order) <==> k in OrderRoom(order)
  {
    if |order| >= MaxCacheSize {
      assert order == [order[0]] + order[1..];
    }
  }

  lemma {:induction false} PutValid(created: Created, cache: Cache, order: seq<Key>, key: Key, h: History)
    requires CacheValid(created, cache, order) && |order| < MaxCacheSize
    requires key.name in created && key.expression == created[key.name].expression && Sorted(h) && InShape(key, h)
    ensures CacheValid(created, cache[key := h], if key in cache then order else order + [key])
  {}

  lemma {:induction false} PutCoherent(created: Created, rank: map<string, nat>, wave: Wave, before: Cache,
                                       cache: Cache, key: Key)
    requires Ranked(created, rank) && CacheCoherent(created, rank, wave, before)
    requires forall k :: k in cache && k != key ==> k in before && cache[k] == before[k]
    requires key in cache && RightFor(created, rank, wave, key, cache[key])
    ensures CacheCoherent(created, rank, wave, cache)
  {}

  /** The keys of other signals, in order. */
  function Without(order: seq<Key>, name: string): (out: seq<Key>)
    ensures forall k :: k in out <==> k in order && k.name != name
    ensures |out| <= |order|
    ensures (forall i, j :: 0 <= i < j < |order| ==> order[i] != order[j]) ==>
              forall i, j :: 0 <= i < j < |out| ==> out[i] != out[j]
  {
    if order == [] then []
    else if order[0].name == name then Without(order[1..], name)
    else
      assert forall k :: k in order[1..] ==> k in order;
      [order[0]] + Without(order[1..], name)
  }

  /** The events inside the window. */
  function Sliced(h: History, start: int, end: int): (out: History)
    ensures Sorted(h) ==> Sorted(out) && forall e :: e in out ==> e in h
  {
    if h == [] then []
    else if start <= h[0].t <= end then
      var rest := Sliced(h[1..], start, end);
      assert Sorted(h) ==> forall e :: e in h[1..] ==> h[0].t <= e.t;
      assert Sorted(h) ==> Sorted(h[1..]);
      [h[0]] + rest
    else
      assert Sorted(h) ==> Sorted(h[1..]);
      Sliced(h[1..], start, end)
  }

  lemma {:induction false} ChangesSorted(f: int -> Raw, start: int, end: int)
    ensures Sorted(Changes(f, start, end))
  {
    if start <= end {
      ChangesShape(f, start, end);
    }
  }

  lemma {:induction false} SlicedWhole(h: History, start: int, end: int)
    requires forall i :: 0 <= i < |h| ==> start <= h[i].t <= end
    ensures Sliced(h, start, end) == h
  {
    if h != [] {
      SlicedWhole(h[1..], start, end);
    }
  }

  /** Slicing a recomputed list by its own window changes nothing exactly if the window is proper. */
  lemma {:induction false} FreshSliced(created: Created, rank: map<string, nat>, wave: Wave, name: string, start: int,
                                       end: int)
    requires Ranked(created, rank) && name in created
    ensures var h := Fresh(created, rank, wave, name, start, end); Sliced(h, start, end) == h <==> start <= end
  {
    var refs := Dependencies(created[name]);
    var f := Sample(created[name].ast, Operands(created, rank, wave, refs, start, end, rank[name]),
                    Widths(created, rank, wave, refs, rank[name]));
    if start <= end {
      ChangesShape(f, start, end);
      SlicedWhole(Changes(f, start, end), start, end);
    } else {
      SlicedNone(Changes(f, start, end), start, end);
    }
  }

  /** Nothing lies in a window that ends before it starts. */
  lemma {:induction false} SlicedNone(h: History, start: int, end: int)
    requires start > end
    ensures Sliced(h, start, end) == []
  {
    if h != [] {
      SlicedNone(h[1..], start, end);
    }
  }

  // ---------------------------------------------------------------------------
  // Several new entries at once
  // ---------------------------------------------------------------------------

  type Entries = seq<(string, Entry)>

  predicate FreshNames(created: Created, entries: Entries) {
    && (forall i :: 0 <= i < |entries| ==> entries[i].0 !in created)
    && (forall i, j :: 0 <= i < j < |entries| ==> entries[i].0 != entries[j].0)
  }

  function Names(entries: Entries): set<string> {
    set i | 0 <= i < |entries| :: entries[i].0
  }

  /** The store with the new entries added. */
  function With(created: Created, entries: Entries): (out: Created)
    ensures out.Keys == created.Keys + Names(entries)
  {
    if entries == [] then created
    else
      var n := |entries| - 1;
      NamesLast(entries);
      With(created, entries[..n])[entries[n].0 := entries[n].1]
  }

  lemma {:induction false} NamesLast(entries: Entries)
    requires entries != []
    ensures var n := |entries| - 1; Names(entries) == Names(entries[..n]) + {entries[n].0}
  {
    var n := |entries| - 1;
    assert entries == entries[..n] + [entries[n]];
  }

  /** Old definitions stay, and each new name has its entry. */
  lemma {:induction false} WithEntries(created: Created, entries: Entries)
    requires FreshNames(created, entries)
    ensures forall n :: n in created ==> n !in Names(entries) && With(created, entries)[n] == created[n]
    ensures forall i :: 0 <= i < |entries| ==> With(created, entries)[entries[i].0] == entries[i].1
  {
    if entries != [] {
      var n := |entries| - 1;
      NamesLast(entries);
      WithEntries(created, entries[..n]);
    }
  }

  /** No definition mentions one of the new names already. */
  ghost predicate NotMentioned(created: Created, names: set<string>) {
    forall n, d :: DependsOn(created, n, d) ==> d !in names
  }

  /** The new names ranked below, the old ones above them. */
  lemma {:induction false} RankedWith(created: Created, rank: map<string, nat>, entries: Entries,
                                      part: set<string>, low: map<string, nat>, bound: nat)
    requires Ranked(created, rank) && FreshNames(created, entries)
    requires RankedOn(With(created, entries), part, low, bound) && Names(entries) <= part
    ensures Ranked(With(created, entries), Stacked(part, low, bound, rank))
  {
    var after, top := With(created, entries), Above(rank);
    WithEntries(created, entries);
    StackedRanks(after, part, low, bound, created.Keys, rank, top);
  }

  /** A number above every rank. */
  ghost function Above(rank: map<string, nat>): (top: nat)
    ensures forall n :: n in rank ==> rank[n] < top
    decreases |rank|
  {
    if rank == map[] then 0
    else
      var n :| n in rank;
      var rest := rank - {n};
      assert rank.Keys == rest.Keys + {n};
      var below := Above(rest);
      assert forall m :: m in rank && m != n ==> m in rest;
      if rank[n] < below then below else rank[n] + 1
  }

  // ---------------------------------------------------------------------------
  // The session
  // ---------------------------------------------------------------------------

  class VirtualSession {
    const wave: Wave
    var created: Created
    var cache: Cache
    var order: seq<Key>
    ghost var rank: map<string, nat>

    /** The definitions are acyclic and the cache is well-formed. */
    ghost predicate Valid()
      reads this
    {
      WaveSorted(wave) && Ranked(created, rank) && CacheValid(created, cache, order)
    }

    ghost predicate Coherent()
      reads this
    {
      Valid() && CacheCoherent(created, rank, wave, cache)
    }

    constructor (wave: Wave)
      requires WaveSorted(wave)
      ensures Coherent() && this.wave == wave && created == map[] && cache == map[]
    {
      this.wave := wave;
      created, cache, order, rank := map[], map[], [], map[];
    }

    /** Stores a list; a full cache first drops its oldest entry. */
    method CachePut(key: Key, h: History)
      requires Valid() && key.name in created && key.expression == created[key.name].expression && Sorted(h) &&
               InShape(key, h)
      modifies this`cache, this`order
      ensures Valid() && key in cache && cache[key] == h
      ensures forall k :: k in cache && k != key ==> k in old(cache) && cache[k] == old(cache)[k]
      ensures var kept := if old(|order|) == MaxCacheSize then old(order)[1..] else old(order);
              order == if key in kept then kept else kept + [key]
    {
      var kept, keptOrder := CacheRoom(cache, order), OrderRoom(order);
      RoomValid(created, cache, order);
      PutValid(created, kept, keptOrder, key, h);
      cache, order := kept[key := h], if key in kept then keptOrder else keptOrder + [key];
    }

    method CacheRight(key: Key, h: History, ghost right: bool)
      requires Valid() && key.name in created && key.expression == created[key.name].expression && Sorted(h) &&
               InShape(key, h)
      requires right ==> Coherent() && RightFor(created, rank, wave, key, h)
      modifies this`cache, this`order
      ensures Valid() && (right ==> Coherent()) && key in cache
    {
      ghost var before := cache;
      CachePut(key, h);
      if right {
        PutCoherent(created, rank, wave, before, cache, key);
      }
    }

    method CacheInvalidate(name: string)
      requires Valid()
      modifies this`cache, this`order
      ensures Valid()
      ensures forall k :: k in cache <==> k in old(cache) && k.name != name
      ensures forall k :: k in cache ==> cache[k] == old(cache)[k]
    {
      cache := map k | k in cache && k.name != name :: cache[k];
      order := Without(order, name);
    }

    /** Drops what is cached for a signal and everything that rests on it. */
    method CacheInvalidateAll(name: string) returns (ghost names: set<string>)
      requires Valid()
      modifies this`cache, this`order
      ensures Valid() && Affected(created, name, names)
      ensures forall k :: k in cache <==> k in old(cache) && k.name !in names
      ensures forall k :: k in cache ==> cache[k] == old(cache)[k]
    {
      var affected := ToInvalidate(created, name);
      names := affected;
      var todo := affected;
      while todo != {}
        invariant Valid() && todo <= names
        invariant forall k :: k in cache <==> k in old(cache) && (k.name in todo || k.name !in names)
        invariant forall k :: k in cache ==> cache[k] == old(cache)[k]
      {
        var n :| n in todo;
        todo := todo - {n};
        if n in created {
          CacheInvalidate(n);
        }
      }
    }

    // -------------------------------------------------------------------------
    // Changing definitions
    // -------------------------------------------------------------------------

    method FirstClash(entries: Entries) returns (clash: Option<string>)
      ensures clash.None? <==> FreshNames(created, entries)
    {
      for i := 0 to |entries|
        invariant FreshNames(created, entries[..i])
      {
        var name := entries[i].0;
        if name in created || name in Names(entries[..i]) {
          return Some(name);
        }
      }
      assert entries[..|entries|] == entries;
      clash := None;
    }

    /** Adds new definitions, all or none; only the new ones are checked for cycles. */
    method StoreEntries(entries: Entries) returns (r: Result<(), StoreError>)
      requires Valid()
      modifies this`created, this`rank
      ensures Valid()
      ensures r.Ok? ==> FreshNames(old(created), entries) && created == With(old(created), entries)
      ensures r.Err? ==> created == old(created)
      ensures r.Err? ==> r.error.AlreadyExists? || r.error.Rejected?
      ensures (r.Err? && r.error.AlreadyExists?) <==> !FreshNames(old(created), entries)
      ensures r == Err(Rejected(Circular)) ==> Cyclic(With(old(created), entries))
      ensures r == Err(Rejected(TooDeep)) ==> Deep(With(old(created), entries))
      ensures old(Coherent()) && NotMentioned(old(created), Names(entries)) ==> Coherent()
    {
      var clash := FirstClash(entries);
      if clash.Some? {
        return Err(AlreadyExists(clash.value));
      }
      var after := With(created, entries);
      var check, part, low, bound := CheckEach(after, entries);
      if check.Err? {
        return Err(Rejected(check.error));
      }
      RankedWith(created, rank, entries, part, low, bound);
      StoredCoherent(entries, Stacked(part, low, bound, rank));
      created, rank := after, Stacked(part, low, bound, rank);
      r := Ok(());
    }

    /** Adding names that nothing mentions leaves every cached list right. */
    lemma {:induction false} StoredCoherent(entries: Entries, q: map<string, nat>)
      requires Valid() && FreshNames(created, entries) && Ranked(With(created, entries), q)
      ensures CacheValid(With(created, entries), cache, order)
      ensures Coherent() && NotMentioned(created, Names(entries)) ==>
                CacheCoherent(With(created, entries), q, wave, cache)
    {
      WithEntries(created, entries);
      if Coherent() && NotMentioned(created, Names(entries)) {
        var after := With(created, entries);
        forall n, d | n in created && d in Refs(created[n].ast)
          ensures d in created <==> d in after
        {
          assert DependsOn(created, n, d);
        }
        CoherentFrame(created, rank, after, q, wave, created.Keys, cache, cache);
      }
    }

    /** Redefines a signal; `parsed` is the syntax tree of the new text, `width` its inferred width. */
    method Update(name: string, expression: Option<string>, parsed: Option<Expr>, width: Option<Width>)
      returns (r: Result<(), StoreError>)
      requires Valid()
      modifies this
      ensures Valid() && (old(Coherent()) ==> Coherent())
      ensures r.Err? ==> created == old(created) && cache == old(cache)
      ensures name !in old(created) <==> r == Err(NotFound(name))
      ensures name in old(created) ==>
        var info := old(created)[name];
        var changes := expression.Some? && expression.value != info.expression;
        && (changes && info.busOp <==> r == Err(FixedExpression))
        && (changes && !info.busOp && parsed.None? <==> r == Err(ParseFailed))
        && (!changes ==> r.Ok? && created == old(created) && cache == old(cache))
        && (changes && r.Ok? ==>
              && parsed.Some?
              && created == old(created)[name := Entry(parsed.value, expression.value, width, false)])
        && (r == Err(Rejected(Circular)) ==>
              parsed.Some? && Cyclic(old(created)[name := Entry(parsed.value, expression.value, width, false)]))
        && (r == Err(Rejected(TooDeep)) ==>
              parsed.Some? && Deep(old(created)[name := Entry(parsed.value, expression.value, width, false)]))
    {
      if name !in created {
        return Err(NotFound(name));
      }
      var info := created[name];
      if expression.None? || expression.value == info.expression {
        return Ok(());
      }
      if info.busOp {
        return Err(FixedExpression);
      }
      if parsed.None? {
        return Err(ParseFailed);
      }
      var entry := Entry(parsed.value, expression.value, width, false);
      var check, part, low, bound := Check(created[name := entry], name);
      if check.Err? {
        return Err(Rejected(check.error));
      }
      Redefine(name, entry, part, low, bound);
      r := Ok(());
    }

    /** Drops the stale lists, then commits the new definition. */
    method Redefine(name: string, entry: Entry, ghost part: set<string>, ghost low: map<string, nat>, ghost bound: nat)
      requires Valid() && name in created && name in part && RankedOn(created[name := entry], part, low, bound)
      modifies this
      ensures Valid() && (old(Coherent()) ==> Coherent())
      ensures created == old(created)[name := entry]
    {
      ghost var before := cache;
      ghost var names := CacheInvalidateAll(name);
      Redefined(created, rank, name, entry, part, low, bound, wave, names, before, cache, order);
      created, rank := created[name := entry], Stacked(part, low, bound, rank);
    }

    /** Removes a signal that no other created signal mentions. */
    method Delete(name: string) returns (r: Result<(), StoreError>)
      requires Valid()
      modifies this
      ensures Valid() && (old(Coherent()) ==> Coherent())
      ensures r.Err? ==> created == old(created) && cache == old(cache)
      ensures name !in old(created) <==> r == Err(NotFound(name))
      ensures r.Ok? ==> created == old(created) - {name}
      ensures r.Ok? <==> name in old(created) && forall n :: n != name ==> !DependsOn(old(created), n, name)
    {
      if name !in created {
        return Err(NotFound(name));
      }
      var dependents := DependentSignals(created, name);
      NoDependents(created, name, dependents + {name});
      if dependents != {} {
        return Err(StillReferenced(dependents));
      }
      assert dependents + {name} == {name};
      Remove(name);
      r := Ok(());
    }

    method Remove(name: string)
      requires Valid() && name in created && Affected(created, name, {name})
      modifies this
      ensures Valid() && (old(Coherent()) ==> Coherent())
      ensures created == old(created) - {name}
    {
      ghost var before := cache;
      ghost var names := CacheInvalidateAll(name);
      RemovedCoherent(created, rank, name, wave, before, cache);
      created := created - {name};
    }

    // -------------------------------------------------------------------------
    // Reading transitions
    // -------------------------------------------------------------------------

    /**
     The transitions of a signal over a window, from the cache or recomputed through all nested
     signals. With a right cache and a proper window the answer is the computation from scratch,
     or the truncation error exactly when some real signal below has too many events. A window
     that ends before it starts gives one value the first time and nothing from the cache.
     */
    method IterTransitions(name: string, start: nat, end: nat, limit: nat) returns (r: Result<History, StoreError>)
      requires Valid()
      modifies this`cache, this`order
      ensures Valid() && (old(Coherent()) ==> Coherent())
      ensures if name in created then r.Err? ==> r.error.Truncated? else r == Err(NotFound(name))
      ensures name in created ==>
                var key := Key(name, created[name].expression, start, end, limit);
                && (r.Ok? ==> Sorted(r.value) && key in cache)
                && (old(Coherent()) && start <= end ==> FreshAnswer(created, rank, wave, key, r))
                && (start > end ==>
                      && r.Ok?
                      && if key in old(cache) then r.value == []
                         else
                           && InShape(key, r.value)
                           && (OnReal(created, name) ==> FreshAnswer(created, rank, wave, key, r)))
      decreases if name in created then rank[name] else 0, 4
    {
      if name !in created {
        return Err(NotFound(name));
      }
      var key := Key(name, created[name].expression, start, end, limit);
      if key in cache {
        if start > end {
          SlicedNone(cache[key], start, end);
        } else if Coherent() {
          FreshSliced(created, rank, wave, name, start, end);
        }
        return Ok(Sliced(cache[key], start, end));
      }
      r := Recompute(key);
    }

    /** Computes a list that is not cached, and stores it. */
    method Recompute(key: Key) returns (r: Result<History, StoreError>)
      requires Valid() && key.name in created && key.expression == created[key.name].expression
      modifies this`cache, this`order
      ensures Valid() && (old(Coherent()) ==> Coherent())
      ensures if r.Ok? then Sorted(r.value) && InShape(key, r.value) && key in cache
              else r.error.Truncated? && key.start <= key.end
      ensures (old(Coherent()) && key.start <= key.end) || OnReal(created, key.name) ==>
                FreshAnswer(created, rank, wave, key, r)
      decreases rank[key.name], 3
    {
      ghost var right := Coherent();
      var resolved := ResolveDeps(key);
      if resolved.Err? {
        return Err(resolved.error);
      }
      var transitions := Transitions(key, resolved.value);
      CacheRight(key, transitions, right);
      r := Ok(transitions);
    }

    method Transitions(key: Key, ops: seq<Operand>) returns (out: History)
      requires Valid() && key.name in created && AllSorted(ops)
      ensures Sorted(out) && InShape(key, out)
      ensures FreshOperands(created, rank, wave, key, Ok(ops)) ==> Correct(created, rank, wave, key, out)
    {
      var info, refs := created[key.name], Dependencies(created[key.name]);
      var widths := Widths(created, rank, wave, refs, rank[key.name]);
      out := IterVirtualTransitions(info.ast, ops, key.start, key.end, widths);
      ChangesSorted(Sample(info.ast, ops, widths), key.start, key.end);
    }

    /** The histories of the references of a signal. */
    method ResolveDeps(key: Key) returns (r: Result<seq<Operand>, StoreError>)
      requires Valid() && key.name in created
      modifies this`cache, this`order
      ensures Valid() && (old(Coherent()) ==> Coherent())
      ensures if r.Ok? then AllSorted(r.value) else r.error.Truncated? && key.start <= key.end
      ensures (old(Coherent()) && key.start <= key.end) || OnReal(created, key.name) ==>
                FreshOperands(created, rank, wave, key, r)
      decreases rank[key.name], 2
    {
      r := Ok([]);
      var name, refs := key.name, Dependencies(created[key.name]);
      ghost var right := (Coherent() && key.start <= key.end) || OnReal(created, name);
      for i := 0 to |refs|
        invariant Valid() && (old(Coherent()) ==> Coherent())
        invariant r.Ok? && AllSorted(r.value)
        invariant right ==> (Coherent() && key.start <= key.end) || OnReal(created, name)
        invariant right ==>
          Resolved(created, rank, wave, rank[name], refs[..i], r.value, key.start, key.end, key.limit)
      {
        r := ResolveNext(name, refs, i, r.value, key.start, key.end, key.limit, right);
        if r.Err? {
          return;
        }
      }
      assert refs[..|refs|] == refs;
      if right {
        ResolvedFits(created, rank, wave, name, r.value, key.start, key.end, key.limit);
      }
    }

    /** The next reference, after the first `i`. */
    method ResolveNext(ghost name: string, refs: seq<string>, i: nat, ops: seq<Operand>, start: nat, end: nat,
                       limit: nat,
                       ghost right: bool)
      returns (r: Result<seq<Operand>, StoreError>)
      requires Valid() && name in created && refs == Dependencies(created[name]) && i < |refs| && AllSorted(ops)
      requires right ==> (Coherent() && start <= end) || OnReal(created, name)
      requires right ==> Resolved(created, rank, wave, rank[name], refs[..i], ops, start, end, limit)
      modifies this`cache, this`order
      ensures Valid() && (old(Coherent()) ==> Coherent())
      ensures r.Ok? ==> AllSorted(r.value)
      ensures r.Err? ==> r.error.Truncated? && start <= end
      ensures right ==>
                if r.Ok? then Resolved(created, rank, wave, rank[name], refs[..i + 1], r.value, start, end, limit)
                else !Fits(created, rank, wave, name, start, end, limit)
      decreases rank[name], 1
    {
      var ref := refs[i];
      assert refs[..i + 1] == refs[..i] + [ref] && ref in Refs(created[name].ast);
      var h := ResolveRef(name, ref, start, end, limit);
      if h.Err? {
        return Err(h.error);
      }
      if right {
        ResolvedStep(created, rank, wave, rank[name], refs[..i], ops, start, end, limit, ref, h.value);
      }
      AllSortedStep(ops, Operand(ref, h.value));
      r := Ok(if h.value != [] || ref !in created then ops + [Operand(ref, h.value)] else ops);
    }

    method ResolveRef(ghost name: string, ref: string, start: nat, end: nat, limit: nat)
      returns (r: Result<History, StoreError>)
      requires Valid() && name in created && ref in Refs(created[name].ast)
      modifies this`cache, this`order
      ensures Valid() && (old(Coherent()) ==> Coherent())
      ensures r.Ok? ==> Sorted(r.value)
      ensures r.Err? ==> r.error.Truncated? && start <= end
      ensures (old(Coherent()) && start <= end) || ref !in created ==>
                && (r.Ok? <==> RefFits(created, rank, wave, ref, start, end, limit))
                && (r.Ok? ==> r.value == RefHistory(created, rank, wave, ref, start, end))
      decreases rank[name], 0
    {
      if ref in created {
        r := IterTransitions(ref, start, end, limit);
      } else if !WindowFits(wave, ref, start, end, limit) {
        r := Err(Truncated(ref));
      } else {
        FetchSorted(wave, ref, start, end);
        r := Ok(FetchReal(wave, ref, start, end));
      }
    }

    /**
     The value at one time: the pointwise meaning, if every created reference whose width
     cannot be resolved has one bit.
     */
    method EvalLogicAtTime(name: string, t: nat) returns (r: Result<LogicValue, StoreError>)
      requires Valid()
      modifies this`cache, this`order
      ensures Valid() && (old(Coherent()) ==> Coherent())
      ensures if name in created then r.Err? ==> r.error.Truncated? else r == Err(NotFound(name))
      ensures old(Coherent()) && name in created ==>
                && (r.Ok? <==> Fits(created, rank, wave, name, t, t, DefaultLimit))
                && (r.Ok? ==> r.value == EvalAtTime(created, rank, wave, name, t))
                && (r.Ok? && UnresolvedAreBits(created, rank, wave, name, t) ==>
                      r.value == Denote(created, rank, wave, name, t))
    {
      if name !in created {
        return Err(NotFound(name));
      }
      var refs := Dependencies(created[name]);
      var resolved := ResolveDeps(Key(name, created[name].expression, t, t, DefaultLimit));
      if resolved.Err? {
        return Err(resolved.error);
      }
      if UnresolvedAreBits(created, rank, wave, name, t) {
        EvalAtTimeAgrees(created, rank, wave, name, t);
      }
      r := Ok(Evaluate(created[name].ast, LastEnv(resolved.value, Widths(created, rank, wave, refs, rank[name]))));
    }
  }

  /** No ranking of the signals exists: some signal rests on itself. */
  ghost predicate Cyclic(created: Created) {
    forall rank: map<string, nat> :: !Ranked(created, rank)
  }

  /** Some chain of dependencies is longer than the depth limit. */
  ghost predicate Deep(created: Created) {
    exists trail: seq<string> :: Explains(created, trail, TooDeep)
  }

  /** Checks one signal; on success everything it rests on is ranked. */
  method Check(created: Created, name: string)
    returns (r: Result<(), Problem>, ghost part: set<string>, ghost low: map<string, nat>, ghost bound: nat)
    ensures r.Ok? ==> name in part && RankedOn(created, part, low, bound)
    ensures r == Err(Circular) ==> Cyclic(created)
    ensures r == Err(TooDeep) ==> Deep(created)
  {
    var layers, seen, trail := LayersFor(created, name);
    if layers.Err? {
      if layers.error == Circular {
        forall q: map<string, nat>
          ensures !Ranked(created, q)
        {
          CircularHasNoRank(created, trail, q);
        }
      }
      part, low, bound := {}, map[], 0;
      return Err(layers.error), part, low, bound;
    }
    LayersRank(created, seen, layers.value);
    part, low, bound := seen, LayerRanks(created, seen, layers.value), |layers.value|;
    r := Ok(());
  }

  /** Checks the new entries one after the other. */
  method CheckEach(created: Created, entries: Entries)
    returns (r: Result<(), Problem>, ghost part: set<string>, ghost low: map<string, nat>, ghost bound: nat)
    ensures r.Ok? ==> Names(entries) <= part && RankedOn(created, part, low, bound)
    ensures r == Err(Circular) ==> Cyclic(created)
    ensures r == Err(TooDeep) ==> Deep(created)
  {
    part, low, bound := {}, map[], 0;
    for i := 0 to |entries|
      invariant RankedOn(created, part, low, bound) && Names(entries[..i]) <= part
    {
      ghost var seen, newLow, newBound;
      r, seen, newLow, newBound := Check(created, entries[i].0);
      if r.Err? {
        return;
      }
      StackedRanks(created, seen, newLow, newBound, part, low, bound);
      assert Names(entries[..i + 1]) == Names(entries[..i]) + {entries[i].0};
      part, low, bound := seen + part, Stacked(seen, newLow, newBound, low), newBound + bound;
    }
    assert entries[..|entries|] == entries;
    r := Ok(());
  }

  /** One redefinition checked from the redefined signal only. */
  lemma {:induction false} RankedUpdate(created: Created, rank: map<string, nat>, name: string, entry: Entry,
                                        part: set<string>, low: map<string, nat>, bound: nat)
    requires Ranked(created, rank) && name in created && name in part
    requires RankedOn(created[name := entry], part, low, bound)
    ensures Ranked(created[name := entry], Stacked(part, low, bound, rank))
  {
    StackedRanks(created[name := entry], part, low, bound, created.Keys, rank, Above(rank));
  }

  /** What does not rest on the redefined signal keeps its whole definition. */
  lemma {:induction false} RedefinedKeeps(created: Created, name: string, entry: Entry, names: set<string>)
    requires name in created && Affected(created, name, names)
    ensures SharedClosed(created, created[name := entry], created.Keys - names)
  {
    forall n, d | n in created.Keys - names && d in Refs(created[n].ast) && d in created
      ensures d !in names
    {
      assert DependsOn(created, n, d);
    }
  }

  lemma {:induction false} RedefinedCache(created: Created, name: string, entry: Entry, cache: Cache, order: seq<Key>)
    requires CacheValid(created, cache, order) && forall k :: k in cache ==> k.name != name
    ensures CacheValid(created[name := entry], cache, order)
  {}

  lemma {:induction false} Redefined(created: Created, rank: map<string, nat>, name: string, entry: Entry,
                                     part: set<string>, low: map<string, nat>, bound: nat, wave: Wave,
                                     names: set<string>, before: Cache, cache: Cache, order: seq<Key>)
    requires Ranked(created, rank) && name in created && name in part && Affected(created, name, names)
    requires RankedOn(created[name := entry], part, low, bound) && CacheValid(created, cache, order)
    requires forall k :: k in cache ==> k in before && cache[k] == before[k] && k.name !in names
    ensures var above := Stacked(part, low, bound, rank);
            && Ranked(created[name := entry], above)
            && CacheValid(created[name := entry], cache, order)
            && (CacheCoherent(created, rank, wave, before) ==>
                CacheCoherent(created[name := entry], above, wave, cache))
  {
    RankedUpdate(created, rank, name, entry, part, low, bound);
    RedefinedCoherent(created, rank, name, entry, Stacked(part, low, bound, rank), wave, names, before, cache);
    RedefinedCache(created, name, entry, cache, order);
  }

  lemma {:induction false} RedefinedCoherent(created: Created, rank: map<string, nat>, name: string, entry: Entry,
                                             above: map<string, nat>, wave: Wave, names: set<string>, before: Cache,
                                               cache: Cache)
    requires Ranked(created, rank) && Ranked(created[name := entry], above)
    requires name in created && Affected(created, name, names)
    requires forall k :: k in cache ==> k in before && cache[k] == before[k] && k.name !in names
    ensures CacheCoherent(created, rank, wave, before) ==> CacheCoherent(created[name := entry], above, wave, cache)
  {
    if CacheCoherent(created, rank, wave, before) {
      RedefinedKeeps(created, name, entry, names);
      CoherentFrame(created, rank, created[name := entry], above, wave, created.Keys - names, before, cache);
    }
  }

  lemma {:induction false} RemovedCoherent(created: Created, rank: map<string, nat>, name: string, wave: Wave,
                                           before: Cache, cache: Cache)
    requires Ranked(created, rank) && name in created && Affected(created, name, {name})
    requires forall k :: k in cache ==> k in before && cache[k] == before[k] && k.name != name
    ensures Ranked(created - {name}, rank)
    ensures CacheCoherent(created, rank, wave, before) ==> CacheCoherent(created - {name}, rank, wave, cache)
  {
    var after := created - {name};
    NoDependents(created, name, {name});
    if CacheCoherent(created, rank, wave, before) {
      forall n, d | n in after && d in Refs(created[n].ast)
        ensures d != name
      {
        assert DependsOn(created, n, d);
      }
      CoherentFrame(created, rank, after, rank, wave, after.Keys, before, cache);
    }
  }

  /** At every time of its window a cached list reads as the pointwise meaning of the signal. */
  lemma {:induction false} CachedReadsAsMeaning(created: Created, rank: map<string, nat>, wave: Wave, cache: Cache,
                                                key: Key, t: int)
    requires Ranked(created, rank) && WaveSorted(wave) && CacheCoherent(created, rank, wave, cache)
    requires key in cache && key.start <= t <= key.end
    ensures var h := cache[key];
            UpTo(h, t) > 0 && h[UpTo(h, t) - 1].v == ToRaw(Denote(created, rank, wave, key.name, t))
    ensures Stepwise(cache[key], key.start, key.end)
  {
    FreshIsMeaning(created, rank, wave, key.name, key.start, key.end);
    ChangesValue(Meaning(created, rank, wave, key.name), key.start, key.end, t);
    ChangesShape(Meaning(created, rank, wave, key.name), key.start, key.end);
  }

  lemma {:induction false} PointFresh(created: Created, rank: map<string, nat>, wave: Wave, name: string, t: nat)
    requires Ranked(created, rank) && WaveSorted(wave) && name in created
    ensures Fresh(created, rank, wave, name, t, t) == [Event(t, ToRaw(Denote(created, rank, wave, name, t)))]
  {
    FreshIsMeaning(created, rank, wave, name, t, t);
  }

  /**
   Why creation needs unmentioned names: with `a` defined as the waveform signal `b`, storing a
   constant `b` of another value than that of the waveform makes any cached point of `a` wrong.
   */
  lemma {:induction false} ShadowingGoesStale(before: Created, r: map<string, nat>, wave: Wave, cache: Cache, key: Key,
                                              b: string, entry: Entry, bit: Bit, q: map<string, nat>)
    requires Ranked(before, r) && WaveSorted(wave) && CacheCoherent(before, r, wave, cache)
    requires key in cache && key.start == key.end && before[key.name].ast == SignalRef(b) && b !in before && b in wave
    requires entry.ast == Literal(OneBit(bit)) && entry.width == Some(1)
    requires Ranked(With(before, [(b, entry)]), q)
    requires ToRaw(ValueAt(wave[b].history, wave[b].width, key.start)) != Scalar(bit)
    ensures !CacheCoherent(With(before, [(b, entry)]), q, wave, cache)
  {
    var a, t := key.name, key.start;
    WithOne(before, b, entry);
    var after := before[b := entry];
    PointFresh(before, r, wave, a, t);
    AliasMeans(before, r, wave, a, b, t);
    PointFresh(after, q, wave, a, t);
    AliasMeans(after, q, wave, a, b, t);
    ConstantReads(after, q, wave, b, bit, t, q[a]);
    assert Correct(before, r, wave, key, cache[key]);
    assert !Correct(after, q, wave, key, cache[key]);
  }

  lemma {:induction false} WithOne(created: Created, name: string, entry: Entry)
    ensures With(created, [(name, entry)]) == created[name := entry]
  {
    assert [(name, entry)][..0] == [];
  }

  lemma {:induction false} ConstantReads(created: Created, rank: map<string, nat>, wave: Wave, ref: string, bit: Bit,
                                         t: int, bound: nat)
    requires Ranked(created, rank) && ref in created && ref in rank && rank[ref] < bound
    requires created[ref].ast == Literal(OneBit(bit)) && created[ref].width == Some(1)
    ensures RefValue(created, rank, wave, ref, t, bound) == OneBit(bit)
  {
    assert Denote(created, rank, wave, ref, t) == OneBit(bit);
    HintedRoundTrip(OneBit(bit));
  }
}
