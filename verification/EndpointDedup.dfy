/**
 Stable in-place removal of repeated endpoints with an open-addressing table that is kept
 between lists.
 */
module EndpointDedup {
  import opened Endpoints
  import opened Division

  // ---------------------------------------------------------------------------
  // Specification
  // ---------------------------------------------------------------------------

  ghost predicate Repeats(s: seq<EndpointRecord>, k: nat)
    requires k < |s|
  {
    exists m :: 0 <= m < k && SameFields(s[m], s[k])
  }

  /** The first endpoint of each kind of equal endpoints, in order. */
  ghost function FirstOccurrences(s: seq<EndpointRecord>): (r: seq<EndpointRecord>)
    ensures |r| <= |s|
  {
    if s == [] then []
    else
      var n := |s| - 1;
      FirstOccurrences(s[..n]) + if Repeats(s, n) then [] else [s[n]]
  }

  lemma {:induction false} SurvivorsFromSource(s: seq<EndpointRecord>, e: EndpointRecord)
    requires e in FirstOccurrences(s)
    ensures e in s
  {
    if e !in [s[|s| - 1]] {
      SurvivorsFromSource(s[..|s| - 1], e);
    }
  }

  /** Nothing is lost: every endpoint has an equal survivor. */
  lemma {:induction false} SurvivorFor(s: seq<EndpointRecord>, k: nat) returns (i: nat)
    requires k < |s|
    ensures i < |FirstOccurrences(s)| && SameFields(FirstOccurrences(s)[i], s[k])
  {
    var n := |s| - 1;
    if k < n {
      i := SurvivorFor(s[..n], k);
    } else if Repeats(s, n) {
      var m :| 0 <= m < n && SameFields(s[m], s[n]);
      i := SurvivorFor(s[..n], m);
    } else {
      i := |FirstOccurrences(s[..n])|;
    }
  }

  /** Nothing is there twice. */
  lemma {:induction false} SurvivorsDistinct(s: seq<EndpointRecord>, i: nat, j: nat)
    requires i < j < |FirstOccurrences(s)|
    ensures !SameFields(FirstOccurrences(s)[i], FirstOccurrences(s)[j])
  {
    var n := |s| - 1;
    var front, r := FirstOccurrences(s[..n]), FirstOccurrences(s);
    if j < |front| {
      SurvivorsDistinct(s[..n], i, j);
    } else {
      SurvivorsFromSource(s[..n], front[i]);
      var m :| 0 <= m < n && s[..n][m] == front[i];
      assert s[m] == r[i] && s[n] == r[j];
    }
  }

  lemma {:induction false} RepeatsPrefix(s: seq<EndpointRecord>, n: nat, k: nat)
    requires k < n <= |s|
    ensures Repeats(s[..n], k) <==> Repeats(s, k)
  {
    assert s[..n][k] == s[k];
    assert forall m :: 0 <= m < k ==> s[..n][m] == s[m];
  }

  /** Each survivor is the first of its kind, and survivors keep their source order. */
  lemma {:induction false} FirstOccurrencesStable(s: seq<EndpointRecord>) returns (at: seq<nat>)
    ensures var r := FirstOccurrences(s);
            && |at| == |r|
            && (forall i :: 0 <= i < |r| ==> at[i] < |s| && s[at[i]] == r[i] && !Repeats(s, at[i]))
            && (forall i, j :: 0 <= i < j < |r| ==> at[i] < at[j])
  {
    if s == [] {
      at := [];
    } else {
      var n := |s| - 1;
      at := FirstOccurrencesStable(s[..n]);
      forall i | 0 <= i < |at|
        ensures !Repeats(s, at[i]) && s[at[i]] == FirstOccurrences(s[..n])[i]
      {
        RepeatsPrefix(s, n, at[i]);
      }
      if !Repeats(s, n) {
        at := at + [n];
      }
    }
  }

  lemma {:induction false} NothingRemoved(s: seq<EndpointRecord>)
    requires |FirstOccurrences(s)| == |s|
    ensures FirstOccurrences(s) == s
  {
    if s != [] {
      NothingRemoved(s[..|s| - 1]);
    }
  }

  lemma {:induction false} FirstOccurrencesStep(s: seq<EndpointRecord>, i: nat)
    requires i < |s|
    ensures FirstOccurrences(s[..i + 1]) == FirstOccurrences(s[..i]) + if Repeats(s, i) then [] else [s[i]]
  {
    assert s[..i + 1][..i] == s[..i];
    assert Repeats(s[..i + 1], i) <==> Repeats(s, i);
  }

  // ---------------------------------------------------------------------------
  // The table
  // ---------------------------------------------------------------------------

  datatype Slot = Empty | Full(index: nat, hash: nat)

  /** The position `d` steps after `home`, around the table. */
  function Step(size: nat, home: nat, d: nat): nat
    requires home < size && d < size
  {
    if home + d < size then home + d else home + d - size
  }

  function Distance(size: nat, home: nat, p: nat): (d: nat)
    requires home < size && p < size
    ensures d < size && Step(size, home, d) == p
  {
    if p >= home then p - home else p - home + size
  }

  /** Every position from `home` up to `p` is full. */
  ghost predicate Reached(slots: seq<Slot>, home: nat, p: nat)
    requires home < |slots| && p < |slots|
  {
    forall d :: 0 <= d <= Distance(|slots|, home, p) ==> slots[Step(|slots|, home, d)].Full?
  }

  ghost predicate SlotOk(slots: seq<Slot>, s: seq<EndpointRecord>, i: nat, hash: EndpointRecord -> nat, p: nat)
    requires 0 < |slots| && i <= |s| && p < |slots|
  {
    slots[p].Full? ==>
      && slots[p].index < i && slots[p].hash == hash(FullKey(s[slots[p].index]))
      && Reached(slots, slots[p].hash % |slots|, p)
  }

  /** The table holds one slot for every kind of endpoint among the first `i`. */
  ghost predicate Table(slots: seq<Slot>, s: seq<EndpointRecord>, i: nat, hash: EndpointRecord -> nat) {
    && 0 < |slots| && i <= |s|
    && (forall p :: 0 <= p < |slots| ==> SlotOk(slots, s, i, hash, p))
    && (forall k :: 0 <= k < i ==> Held(slots, s, k))
  }

  ghost predicate Held(slots: seq<Slot>, s: seq<EndpointRecord>, k: nat)
    requires k < |s|
  {
    exists p :: 0 <= p < |slots| && slots[p].Full? && slots[p].index < |s| && SameFields(s[slots[p].index], s[k])
  }

  /** The first empty position after `home` shows that no slot holds an equal endpoint. */
  ghost predicate Probed(slots: seq<Slot>, s: seq<EndpointRecord>, i: nat, key: nat, d: nat)
    requires 0 < |slots| && i < |s| && d < |slots|
  {
    forall c :: 0 <= c < d ==>
      var slot := slots[Step(|slots|, key % |slots|, c)];
      slot.Full? && slot.index < i && !(slot.hash == key && SameFields(s[slot.index], s[i]))
  }

  lemma {:induction false} ProbeMisses(slots: seq<Slot>, s: seq<EndpointRecord>, i: nat, hash: EndpointRecord -> nat,
                                       d: nat, p: nat)
    requires Table(slots, s, i, hash) && i < |s| && d < |slots| && p < |slots| && slots[p].Full?
    requires var key := hash(FullKey(s[i]));
             slots[Step(|slots|, key % |slots|, d)].Empty? && Probed(slots, s, i, key, d)
    ensures slots[p].index < i && !SameFields(s[slots[p].index], s[i])
  {
    var key := hash(FullKey(s[i]));
    assert SlotOk(slots, s, i, hash, p);
    if slots[p].hash == key {
      var c := Distance(|slots|, key % |slots|, p);
      assert Step(|slots|, key % |slots|, c) == p;
      assert c < d;
    }
  }

  lemma {:induction false} ProbedAll(slots: seq<Slot>, s: seq<EndpointRecord>, i: nat, hash: EndpointRecord -> nat,
                                     d: nat)
    requires Table(slots, s, i, hash) && i < |s| && d < |slots|
    requires var key := hash(FullKey(s[i]));
             slots[Step(|slots|, key % |slots|, d)].Empty? && Probed(slots, s, i, key, d)
    ensures !Repeats(s, i)
  {
    forall k | 0 <= k < i
      ensures !SameFields(s[k], s[i])
    {
      assert Held(slots, s, k);
      var p :| 0 <= p < |slots| && slots[p].Full? && slots[p].index < |s| && SameFields(s[slots[p].index], s[k]);
      ProbeMisses(slots, s, i, hash, d, p);
    }
  }

  /** A new endpoint in the first empty position. */
  lemma {:induction false} Inserted(slots: seq<Slot>, s: seq<EndpointRecord>, i: nat, hash: EndpointRecord -> nat,
                                    d: nat)
    requires Table(slots, s, i, hash) && i < |s| && d < |slots|
    requires var key := hash(FullKey(s[i]));
             slots[Step(|slots|, key % |slots|, d)].Empty? && Probed(slots, s, i, key, d)
    ensures var key := hash(FullKey(s[i]));
            Table(slots[Step(|slots|, key % |slots|, d) := Full(i, key)], s, i + 1, hash)
  {
    var key := hash(FullKey(s[i]));
    var at := Step(|slots|, key % |slots|, d);
    var out := slots[at := Full(i, key)];
    var n := i + 1;
    forall p | 0 <= p < |out|
      ensures SlotOk(out, s, n, hash, p)
    {
      assert SlotOk(slots, s, i, hash, p);
      if p == at {
        assert Distance(|slots|, key % |slots|, p) == d;
      }
    }
    forall k | 0 <= k < i + 1
      ensures Held(out, s, k)
    {
      if k < i {
        assert Held(slots, s, k);
        var p :| 0 <= p < |slots| && slots[p].Full? && slots[p].index < |s| && SameFields(s[slots[p].index], s[k]);
        assert out[p] == slots[p];
      } else {
        assert out[at].Full? && SameFields(s[out[at].index], s[k]);
      }
    }
  }

  /** A repeated endpoint leaves the table as it is. */
  lemma {:induction false} Skipped(slots: seq<Slot>, s: seq<EndpointRecord>, i: nat, hash: EndpointRecord -> nat,
                                   p: nat)
    requires Table(slots, s, i, hash) && i < |s| && p < |slots| && slots[p].Full? && slots[p].index < i
    requires SameFields(s[slots[p].index], s[i])
    ensures Table(slots, s, i + 1, hash) && Repeats(s, i)
  {
    var n := i + 1;
    forall q | 0 <= q < |slots|
      ensures SlotOk(slots, s, n, hash, q)
    {
      assert SlotOk(slots, s, i, hash, q);
    }
    forall k | 0 <= k < i + 1
      ensures Held(slots, s, k)
    {
      assert k < i ==> Held(slots, s, k);
    }
  }

  /** Fewer touched positions than the table has leave one free. */
  lemma {:induction false} SomeFree(touched: seq<nat>, size: nat) returns (p: nat)
    requires |touched| < size
    ensures p < size && p !in touched
    decreases size
  {
    var last := size - 1;
    if last !in touched {
      p := last;
    } else {
      var k :| 0 <= k < |touched| && touched[k] == last;
      var rest := touched[..k] + touched[k + 1..];
      p := SomeFree(rest, last);
      forall j | 0 <= j < |touched|
        ensures touched[j] != p
      {
        assert j < k ==> rest[j] == touched[j];
        assert j > k ==> rest[j - 1] == touched[j];
      }
    }
  }

  // ---------------------------------------------------------------------------
  // Masking
  // ---------------------------------------------------------------------------

  predicate PowerOfTwo(n: nat) {
    n == 1 || (n > 1 && n % 2 == 0 && PowerOfTwo(n / 2))
  }

  /** Bitwise and. */
  function And(a: nat, b: nat): nat {
    if a == 0 || b == 0 then 0 else 2 * And(a / 2, b / 2) + if a % 2 == 1 && b % 2 == 1 then 1 else 0
  }

  /** Masking with a power of two less one is the remainder. */
  lemma {:induction false} MaskIsRemainder(a: nat, n: nat)
    requires PowerOfTwo(n)
    ensures And(a, n - 1) == a % n
  {
    if n > 1 {
      var k := n / 2;
      assert n == 2 * k && (n - 1) / 2 == k - 1;
      MaskIsRemainder(a / 2, k);
      HalfRemainder(a, k);
    }
  }

  lemma {:induction false} HalfRemainder(a: nat, k: nat)
    requires k > 0
    ensures a % (2 * k) == 2 * ((a / 2) % k) + a % 2
  {
    var q, r := (a / 2) / k, (a / 2) % k;
    assert a / 2 == q * k + r;
    var low := 2 * r + a % 2;
    assert a == q * (2 * k) + low;
    QuotientOf(q, 2 * k, low);
  }

  // ---------------------------------------------------------------------------
  // The scratch state
  // ---------------------------------------------------------------------------

  class DedupScratch {
    const hash: EndpointRecord -> nat
    var slots: seq<Slot>
    var touched: seq<nat>
    var dropped: seq<bool>

    /** Every full slot is recorded as touched. */
    ghost predicate Valid()
      reads this
    {
      && (slots == [] || PowerOfTwo(|slots|))
      && (forall k :: 0 <= k < |touched| ==> touched[k] < |slots|)
      && (forall p :: 0 <= p < |slots| && slots[p].Full? ==> p in touched)
    }

    /** No slot is full. */
    ghost predicate Cleared()
      reads this
    {
      Valid() && touched == [] && forall p :: 0 <= p < |slots| ==> slots[p].Empty?
    }

    constructor (hash: EndpointRecord -> nat)
      ensures Cleared() && this.hash == hash
    {
      this.hash := hash;
      slots, touched, dropped := [], [], [];
    }

    method ClearTouched()
      requires Valid()
      modifies this`slots, this`touched
      ensures Cleared() && |slots| == old(|slots|)
    {
      for k := 0 to |touched|
        invariant |slots| == old(|slots|) && touched == old(touched)
        invariant forall p :: 0 <= p < |slots| && slots[p].Full? ==> p in touched[k..]
        invariant forall p :: p in touched[k..] ==> p in touched
      {
        slots := slots[touched[k] := Empty];
        assert touched[k..] == [touched[k]] + touched[k + 1..];
      }
      touched := [];
    }

    /** A table of at least twice `n` positions; a large enough one is kept. */
    method Reserve(n: nat)
      requires Cleared() && n > 0
      modifies this`slots
      ensures Cleared() && |slots| / 2 >= n
      ensures old(|slots|) / 2 >= n ==> slots == old(slots)
    {
      if |slots| / 2 < n {
        var capacity: nat := 8;
        assert PowerOfTwo(4) && PowerOfTwo(8);
        while capacity / 2 < n
          invariant capacity > 1 && PowerOfTwo(capacity)
          decreases n - capacity / 2
        {
          capacity := capacity * 2;
        }
        slots := seq(capacity, _ => Empty);
      }
    }

    /** Looks for an endpoint equal to a[i]: its slot, or the first empty position. */
    method Probe(a: array<EndpointRecord>, i: nat, ghost free: nat)
      returns (position: nat, key: nat, found: bool, ghost d: nat)
      requires i < a.Length && Table(slots, a[..], i, hash) && PowerOfTwo(|slots|)
      requires free < |slots| && slots[free].Empty?
      ensures position < |slots| && key == hash(FullKey(a[i]))
      ensures found ==> slots[position].Full? && slots[position].index < i && SameFields(a[slots[position].index], a[i])
      ensures !found ==> d < |slots| && position == Step(|slots|, key % |slots|, d) && slots[position].Empty? &&
                         Probed(slots, a[..], i, key, d)
    {
      key := hash(FullKey(a[i]));
      var mask := |slots| - 1;
      MaskIsRemainder(key, |slots|);
      position := And(key, mask);
      ghost var home := key % |slots|;
      ghost var last := Distance(|slots|, home, free);
      d := 0;
      while slots[position].Full?
        invariant d <= last && position == Step(|slots|, home, d)
        invariant Probed(slots, a[..], i, key, d)
        decreases last - d
      {
        var slot := slots[position];
        assert SlotOk(slots, a[..], i, hash, position);
        if slot.hash == key && SameFields(a[slot.index], a[i]) {
          found := true;
          return;
        }
        StepNext(|slots|, home, d);
        ProbedNext(slots, a[..], i, key, d);
        position := And(position + 1, mask);
        d := d + 1;
      }
      found := false;
    }

    /** Looks up one endpoint and stores it if it is new. */
    method MarkOne(a: array<EndpointRecord>, i: nat) returns (found: bool)
      requires Valid() && PowerOfTwo(|slots|) && i < a.Length <= |slots| / 2
      requires Table(slots, a[..], i, hash) && |touched| <= i
      modifies this`slots, this`touched
      ensures Valid() && |slots| == old(|slots|) && Table(slots, a[..], i + 1, hash) && |touched| <= i + 1
      ensures found == Repeats(a[..], i)
    {
      ghost var free := SomeFree(touched, |slots|);
      var position, key;
      ghost var d;
      position, key, found, d := Probe(a, i, free);
      if found {
        Skipped(slots, a[..], i, hash, position);
      } else {
        ProbedAll(slots, a[..], i, hash, d);
        Inserted(slots, a[..], i, hash, d);
        touched := touched + [position];
        slots := slots[position := Full(i, key)];
      }
    }

    /** Marks every endpoint that repeats an earlier one. */
    method MarkRepeats(a: array<EndpointRecord>) returns (removed: nat)
      requires Cleared() && |slots| / 2 >= a.Length > 0
      modifies this`slots, this`touched, this`dropped
      ensures Valid() && |dropped| == a.Length
      ensures forall k :: 0 <= k < a.Length ==> (dropped[k] <==> Repeats(a[..], k))
      ensures removed == a.Length - |FirstOccurrences(a[..])|
    {
      dropped := seq(a.Length, _ => false);
      removed := 0;
      for i := 0 to a.Length
        invariant Valid() && |slots| == old(|slots|) && Table(slots, a[..], i, hash) && |touched| <= i
        invariant Marked(a[..], i, dropped, removed)
      {
        var found := MarkOne(a, i);
        MarkedNext(a[..], i, dropped, removed);
        if found {
          dropped := dropped[i := true];
          removed := removed + 1;
        }
      }
      assert a[..][..a.Length] == a[..];
    }
  }

  /** The repetitions among the first i are marked and counted. */
  ghost predicate Marked(s: seq<EndpointRecord>, i: nat, dropped: seq<bool>, removed: nat) {
    && i <= |s| == |dropped|
    && (forall k :: 0 <= k < |s| ==> (dropped[k] <==> k < i && Repeats(s, k)))
    && removed == i - |FirstOccurrences(s[..i])|
  }

  lemma {:induction false} MarkedNext(s: seq<EndpointRecord>, i: nat, dropped: seq<bool>, removed: nat)
    requires Marked(s, i, dropped, removed) && i < |s|
    ensures Repeats(s, i) ==> Marked(s, i + 1, dropped[i := true], removed + 1)
    ensures !Repeats(s, i) ==> Marked(s, i + 1, dropped, removed)
  {
    FirstOccurrencesStep(s, i);
  }

  lemma {:induction false} StepNext(size: nat, home: nat, d: nat)
    requires home < size && d + 1 < size && PowerOfTwo(size)
    ensures And(Step(size, home, d) + 1, size - 1) == Step(size, home, d + 1)
  {
    var p := Step(size, home, d);
    MaskIsRemainder(p + 1, size);
    if p + 1 == size {
      QuotientOf(1, size, 0);
    } else {
      QuotientOf(0, size, p + 1);
    }
  }

  lemma {:induction false} ProbedNext(slots: seq<Slot>, s: seq<EndpointRecord>, i: nat, key: nat, d: nat)
    requires 0 < |slots| && i < |s| && d + 1 < |slots| && Probed(slots, s, i, key, d)
    requires var slot := slots[Step(|slots|, key % |slots|, d)];
             slot.Full? && slot.index < i && !(slot.hash == key && SameFields(s[slot.index], s[i]))
    ensures Probed(slots, s, i, key, d + 1)
  {}

  /** Moves the endpoints that stay to the front, in order. */
  method Compact(a: array<EndpointRecord>, dropped: seq<bool>) returns (out: nat)
    requires |dropped| == a.Length && forall k :: 0 <= k < a.Length ==> (dropped[k] <==> Repeats(a[..], k))
    modifies a
    ensures out <= a.Length && a[..out] == FirstOccurrences(old(a[..]))
  {
    ghost var s := a[..];
    out := 0;
    for i := 0 to a.Length
      invariant out <= i && a[..out] == FirstOccurrences(s[..i])
      invariant forall k :: i <= k < a.Length ==> a[k] == s[k]
    {
      FirstOccurrencesStep(s, i);
      if !dropped[i] {
        if out != i {
          a[out] := a[i];
        }
        out := out + 1;
      }
    }
    assert s[..a.Length] == s;
  }

  /**
   Removes repeated endpoints: what is left in front are the first occurrences in source order,
   whatever the hash function, and the table is empty again.
   */
  method DeduplicateInPlace(a: array<EndpointRecord>, scratch: DedupScratch) returns (removed: nat)
    requires scratch.Valid()
    modifies a, scratch
    ensures removed == a.Length - |FirstOccurrences(old(a[..]))|
    ensures a[..a.Length - removed] == FirstOccurrences(old(a[..]))
    ensures scratch.Valid() && (a.Length >= 2 || old(scratch.Cleared()) ==> scratch.Cleared())
    ensures a.Length < 2 ==> unchanged(scratch)
  {
    if a.Length < 2 {
      TooShort(a[..]);
      return 0;
    }
    scratch.ClearTouched();
    scratch.Reserve(a.Length);
    removed := scratch.MarkRepeats(a);
    scratch.ClearTouched();
    if removed == 0 {
      NothingRemoved(a[..]);
      assert a[..a.Length] == a[..];
      return 0;
    }
    var out := Compact(a, scratch.dropped);
    assert out == a.Length - removed;
  }

  lemma {:induction false} TooShort(s: seq<EndpointRecord>)
    requires |s| < 2
    ensures FirstOccurrences(s) == s
  {
    if s != [] {
      assert s[..0] == [] && !Repeats(s, 0);
    }
  }
}
