/** Bit ranges in groups: which ranges flow together into one covered block. */
module BitRuns {
  import opened Wrappers
  import opened Sorting

  /** A bit range of a group; `ascending` if it was written low end first. */
  datatype Member<K> = Member(key: K, lo: int, hi: int, ascending: bool)

  /** One entry per endpoint; nothing for an endpoint that takes no part. */
  type View<K> = seq<Option<Member<K>>>

  ghost predicate Proper<K>(v: View<K>) {
    forall k :: 0 <= k < |v| && v[k].Some? ==> v[k].value.lo <= v[k].value.hi
  }

  predicate In<K>(v: View<K>, k: int) {
    0 <= k < |v| && v[k].Some?
  }

  predicate Holds<K(==)>(v: View<K>, k: int, key: K, bit: int) {
    In(v, k) && v[k].value.key == key && v[k].value.lo <= bit <= v[k].value.hi
  }

  ghost predicate Covers<K>(v: View<K>, key: K, bit: int) {
    exists k :: Holds(v, k, key, bit)
  }

  function Min(a: int, b: int): int {
    if a < b then a else b
  }

  function Max(a: int, b: int): int {
    if a < b then b else a
  }

  /** Two ranges of a group with every bit from one to the other covered by the group. */
  ghost predicate Together<K>(v: View<K>, j: int, k: int) {
    && In(v, j) && In(v, k) && v[j].value.key == v[k].value.key
    && forall bit :: Min(v[j].value.lo, v[k].value.lo) <= bit <= Max(v[j].value.hi, v[k].value.hi) ==>
         Covers(v, v[k].value.key, bit)
  }

  ghost predicate Alone<K>(v: View<K>, k: int) {
    forall j :: Together(v, j, k) ==> j == k
  }

  /** The earliest of the ranges that flow together. */
  ghost predicate Survives<K>(v: View<K>, k: int) {
    forall j :: 0 <= j < k ==> !Together(v, j, k)
  }

  /** The maximal covered block around range k. */
  ghost predicate Block<K>(v: View<K>, k: int, lo: int, hi: int) {
    && In(v, k) && lo <= v[k].value.lo && v[k].value.hi <= hi
    && (forall bit :: lo <= bit <= hi ==> Covers(v, v[k].value.key, bit))
    && !Covers(v, v[k].value.key, lo - 1) && !Covers(v, v[k].value.key, hi + 1)
  }

  /** Some range flowing together with k is different from it. */
  ghost predicate Differs<K>(v: View<K>, k: int) {
    In(v, k) && exists j :: Together(v, j, k) && (v[j].value.lo != v[k].value.lo || v[j].value.hi != v[k].value.hi)
  }

  /** Every range of more than one bit that flows together with k is ascending, and there is one. */
  ghost predicate Ascending<K>(v: View<K>, k: int) {
    && (exists j :: Together(v, j, k) && v[j].value.ascending)
    && (forall j :: Together(v, j, k) && v[j].value.lo != v[j].value.hi ==> v[j].value.ascending)
  }

  /** The block of a range is unique. */
  lemma {:induction false} BlockUnique<K>(v: View<K>, k: int, lo: int, hi: int, lo2: int, hi2: int)
    requires Proper(v) && Block(v, k, lo, hi) && Block(v, k, lo2, hi2)
    ensures lo == lo2 && hi == hi2
  {}

  /** Ranges flow together exactly when they lie in the same block. */
  lemma {:induction false} BlockTogether<K>(v: View<K>, j: int, k: int, lo: int, hi: int)
    requires Proper(v) && Block(v, k, lo, hi) && In(v, j) && v[j].value.key == v[k].value.key
    ensures Together(v, j, k) <==> lo <= v[j].value.lo && v[j].value.hi <= hi
    ensures Together(v, j, k) || v[j].value.hi < lo - 1 || v[j].value.lo > hi + 1
  {
    var key := v[k].value.key;
    assert forall bit :: v[j].value.lo <= bit <= v[j].value.hi ==> Holds(v, j, key, bit);
    assert !Holds(v, j, key, lo - 1) && !Holds(v, j, key, hi + 1);
  }

  lemma {:induction false} TogetherTransitive<K>(v: View<K>, i: int, j: int, k: int)
    requires Proper(v) && Together(v, i, j) && Together(v, j, k)
    ensures Together(v, i, k)
  {
    forall bit | Min(v[i].value.lo, v[k].value.lo) <= bit <= Max(v[i].value.hi, v[k].value.hi)
      ensures Covers(v, v[k].value.key, bit)
    {
      assert (Min(v[i].value.lo, v[j].value.lo) <= bit <= Max(v[i].value.hi, v[j].value.hi)) ||
             (Min(v[j].value.lo, v[k].value.lo) <= bit <= Max(v[j].value.hi, v[k].value.hi));
    }
  }

  /** Ranges that flow together lie in one block. */
  lemma {:induction false} SameBlock<K>(v: View<K>, j: int, k: int, lo: int, hi: int)
    requires Proper(v) && Together(v, j, k) && Block(v, k, lo, hi)
    ensures Block(v, j, lo, hi)
  {
    BlockTogether(v, j, k, lo, hi);
  }

  /** Whether ranges differ is a matter of the block, not of its member. */
  lemma {:induction false} SameDiffers<K>(v: View<K>, j: int, k: int)
    requires Proper(v) && Together(v, j, k) && Differs(v, k)
    ensures Differs(v, j)
  {
    var i :| Together(v, i, k) && (v[i].value.lo != v[k].value.lo || v[i].value.hi != v[k].value.hi);
    TogetherSymmetric(v, j, k);
    TogetherTransitive(v, i, k, j);
  }

  lemma {:induction false} TogetherSymmetric<K>(v: View<K>, j: int, k: int)
    requires Together(v, j, k)
    ensures Together(v, k, j)
  {}

  /** The ranges overlap or follow each other without a gap. */
  predicate Touching(alo: int, ahi: int, blo: int, bhi: int) {
    alo <= bhi + 1 && blo <= ahi + 1
  }

  /** When two ranges flow together, some two ranges of their group touch. */
  lemma {:induction false} TouchingPair<K>(v: View<K>, i: int, j: int) returns (x: int, y: int)
    requires Proper(v) && Together(v, i, j) && i != j
    ensures x != y && In(v, x) && In(v, y) && v[x].value.key == v[y].value.key
    ensures Touching(v[x].value.lo, v[x].value.hi, v[y].value.lo, v[y].value.hi)
  {
    if Touching(v[i].value.lo, v[i].value.hi, v[j].value.lo, v[j].value.hi) {
      x, y := i, j;
    } else {
      x := if v[i].value.lo <= v[j].value.lo then i else j;
      assert Covers(v, v[j].value.key, v[x].value.hi + 1);
      y :| Holds(v, y, v[j].value.key, v[x].value.hi + 1);
    }
  }

  lemma {:induction false} TogetherSelf<K>(v: View<K>, k: int)
    requires In(v, k)
    ensures Together(v, k, k)
  {
    forall bit | v[k].value.lo <= bit <= v[k].value.hi
      ensures Covers(v, v[k].value.key, bit)
    {
      assert Holds(v, k, v[k].value.key, bit);
    }
  }

  /** The earliest range that flows together with `k` survives. */
  lemma {:induction false} SurvivorOf<K>(v: View<K>, k: int, from: int) returns (j: int)
    requires Proper(v) && In(v, k) && Together(v, from, k)
    ensures Together(v, j, k) && Survives(v, j)
    decreases from
  {
    if i :| 0 <= i < from && Together(v, i, from) {
      TogetherTransitive(v, i, from, k);
      j := SurvivorOf(v, k, i);
    } else {
      j := from;
    }
  }

  /** A range that flows together with no other is its own block. */
  lemma {:induction false} AloneIsBlock<K>(v: View<K>, k: int)
    requires Proper(v) && In(v, k) && Alone(v, k)
    ensures Block(v, k, v[k].value.lo, v[k].value.hi)
  {
    var m := v[k].value;
    TogetherSelf(v, k);
    forall j | In(v, j) && v[j].value.key == m.key
      ensures !Holds(v, j, m.key, m.lo - 1) && !Holds(v, j, m.key, m.hi + 1)
    {
      TouchingTogether(v, j, k);
    }
  }

  lemma {:induction false} TouchingTogether<K>(v: View<K>, j: int, k: int)
    requires Proper(v) && In(v, j) && In(v, k) && v[j].value.key == v[k].value.key
    ensures v[j].value.lo <= v[k].value.hi + 1 && v[k].value.lo <= v[j].value.hi + 1 ==> Together(v, j, k)
  {
    var key := v[k].value.key;
    forall bit | v[j].value.lo <= bit <= v[j].value.hi || v[k].value.lo <= bit <= v[k].value.hi
      ensures Covers(v, key, bit)
    {
      assert Holds(v, j, key, bit) || Holds(v, k, key, bit);
    }
  }

  /** Two blocks of a group that are not together have an uncovered bit between them. */
  lemma {:induction false} BlocksApart<K>(v: View<K>, j: int, k: int, jlo: int, jhi: int, klo: int, khi: int)
    returns (gap: int)
    requires Proper(v) && Block(v, j, jlo, jhi) && Block(v, k, klo, khi)
    requires v[j].value.key == v[k].value.key && !Together(v, j, k)
    ensures !Covers(v, v[k].value.key, gap) && (jhi < gap < klo || khi < gap < jlo)
  {
    BlockTogether(v, j, k, klo, khi);
    assert !(jlo <= klo - 1 <= jhi) && !(jlo <= khi + 1 <= jhi);
    gap := if v[j].value.hi < klo - 1 then klo - 1 else khi + 1;
  }

  // ---------------------------------------------------------------------------
  // Sorted items
  // ---------------------------------------------------------------------------

  datatype Item = Item(group: nat, lo: int, hi: int, index: nat, ascending: bool)

  /** The items are the ranges of the view. */
  ghost predicate Ranges<K>(items: seq<Item>, v: View<K>) {
    && (forall x :: 0 <= x < |items| ==>
          && In(v, items[x].index) && items[x].lo == v[items[x].index].value.lo
          && items[x].hi == v[items[x].index].value.hi && items[x].ascending == v[items[x].index].value.ascending)
    && (forall k :: In(v, k) ==> HasIndex(items, k))
  }

  /** Equal groups for equal keys. */
  ghost predicate Grouped<K>(items: seq<Item>, v: View<K>)
    requires Ranges(items, v)
  {
    forall x, y :: 0 <= x < |items| && 0 <= y < |items| ==>
      (items[x].group == items[y].group <==> v[items[x].index].value.key == v[items[y].index].value.key)
  }

  ghost predicate Lists<K>(items: seq<Item>, v: View<K>) {
    Ranges(items, v) && Grouped(items, v)
  }

  ghost predicate HasIndex(items: seq<Item>, k: int) {
    exists x :: 0 <= x < |items| && items[x].index == k
  }

  /** By group, then by low end. */
  ghost predicate Ordered(items: seq<Item>) {
    forall x, y :: 0 <= x < y < |items| ==>
      items[x].group < items[y].group || (items[x].group == items[y].group && items[x].lo <= items[y].lo)
  }

  /** What comes before position `i` ends before a gap when what comes after begins. */
  ghost predicate Separated(items: seq<Item>, i: int) {
    forall x, y :: 0 <= x < i <= y < |items| && items[x].group == items[y].group ==> items[x].hi + 1 < items[y].lo
  }

  ghost predicate InRun(items: seq<Item>, b: int, e: int, bit: int) {
    exists x :: b <= x < e && 0 <= x < |items| && items[x].lo <= bit <= items[x].hi
  }

  /** Items b, ..., e - 1 are one group and cover lo, ..., hi without a gap. */
  ghost predicate Chain(items: seq<Item>, b: int, e: int, lo: int, hi: int) {
    && 0 <= b < e <= |items|
    && (forall x :: b <= x < e ==> items[x].group == items[b].group && lo <= items[x].lo && items[x].hi <= hi)
    && (forall bit :: lo <= bit <= hi ==> InRun(items, b, e, bit))
  }

  /** A chain with a gap on both sides. */
  ghost predicate Run(items: seq<Item>, b: int, e: int, lo: int, hi: int) {
    Chain(items, b, e, lo, hi) && Separated(items, b) && Separated(items, e)
  }

  lemma {:induction false} ChainStart<K>(items: seq<Item>, v: View<K>, b: int)
    requires Lists(items, v) && Proper(v) && 0 <= b < |items|
    ensures Chain(items, b, b + 1, items[b].lo, items[b].hi)
  {
    var e := b + 1;
    assert forall bit :: items[b].lo <= bit <= items[b].hi ==> InRun(items, b, e, bit);
  }

  lemma {:induction false} ChainStep(items: seq<Item>, b: int, e: int, lo: int, hi: int)
    requires Ordered(items) && Chain(items, b, e, lo, hi) && e < |items| && lo == items[b].lo
    requires items[e].group == items[b].group && items[e].lo <= hi + 1
    ensures Chain(items, b, e + 1, lo, Max(hi, items[e].hi))
  {
    var next := e + 1;
    forall bit | lo <= bit <= Max(hi, items[e].hi)
      ensures InRun(items, b, next, bit)
    {
      if bit <= hi {
        assert InRun(items, b, e, bit);
      } else {
        assert items[e].lo <= bit <= items[e].hi;
      }
    }
  }

  /** The chain ends before a gap: what was separated stays so. */
  lemma {:induction false} ChainEnds(items: seq<Item>, b: int, e: int, lo: int, hi: int)
    requires Ordered(items) && Chain(items, b, e, lo, hi) && Separated(items, b)
    requires e < |items| ==> items[e].group != items[b].group || items[e].lo > hi + 1
    ensures Run(items, b, e, lo, hi)
  {
    forall x, y | 0 <= x < e <= y < |items| && items[x].group == items[y].group
      ensures items[x].hi + 1 < items[y].lo
    {
      if b <= x {
        assert items[x].hi <= hi && items[x].group == items[b].group;
        assert e == y || items[e].group <= items[y].group;
        assert items[b].group <= items[e].group || b == e;
      }
    }
  }

  lemma {:induction false} RunUncovered<K>(items: seq<Item>, v: View<K>, b: int, e: int, lo: int, hi: int, bit: int)
    requires Lists(items, v) && Run(items, b, e, lo, hi) && lo <= hi && (bit == lo - 1 || bit == hi + 1)
    requires items[b].lo == lo && exists x :: b <= x < e && items[x].hi == hi
    ensures !Covers(v, v[items[b].index].value.key, bit)
  {
    var key := v[items[b].index].value.key;
    forall k | In(v, k) && v[k].value.key == key
      ensures !Holds(v, k, key, bit)
    {
      assert HasIndex(items, k);
      var x :| 0 <= x < |items| && items[x].index == k;
      assert items[x].group == items[b].group;
      var z :| b <= z < e && items[z].hi == hi;
      assert items[z].group == items[b].group;
    }
  }

  /** A run is exactly one block of the view. */
  lemma {:induction false} RunIsBlock<K>(items: seq<Item>, v: View<K>, b: int, e: int, lo: int, hi: int, x: int)
    requires Lists(items, v) && Proper(v) && Run(items, b, e, lo, hi) && lo <= hi && b <= x < e
    requires items[b].lo == lo && exists z :: b <= z < e && items[z].hi == hi
    ensures Block(v, items[x].index, lo, hi)
  {
    var key := v[items[b].index].value.key;
    assert items[x].group == items[b].group;
    RunUncovered(items, v, b, e, lo, hi, lo - 1);
    RunUncovered(items, v, b, e, lo, hi, hi + 1);
    forall bit | lo <= bit <= hi
      ensures Covers(v, key, bit)
    {
      assert InRun(items, b, e, bit);
      var y :| b <= y < e && 0 <= y < |items| && items[y].lo <= bit <= items[y].hi;
      assert items[y].group == items[b].group;
      assert Holds(v, items[y].index, key, bit);
    }
  }

  /** What flows together with a member of a run is the run. */
  lemma {:induction false} RunTogether<K>(items: seq<Item>, v: View<K>, b: int, e: int, lo: int, hi: int, x: int,
                                          y: int)
    requires Lists(items, v) && Proper(v) && Run(items, b, e, lo, hi) && lo <= hi && b <= x < e && 0 <= y < |items|
    requires items[b].lo == lo && exists z :: b <= z < e && items[z].hi == hi
    ensures Together(v, items[y].index, items[x].index) <==> b <= y < e
  {
    RunIsBlock(items, v, b, e, lo, hi, x);
    assert items[x].group == items[b].group;
    assert b <= y < e ==> items[y].group == items[b].group;
    if v[items[y].index].value.key == v[items[x].index].value.key {
      BlockTogether(v, items[y].index, items[x].index, lo, hi);
      assert items[y].group == items[b].group;
      var z :| b <= z < e && items[z].hi == hi;
      assert items[z].group == items[b].group;
    }
  }

  // ---------------------------------------------------------------------------
  // Sorting the items
  // ---------------------------------------------------------------------------

  /** The sort order; items never share an index, so the last tie-break decides nothing. */
  const ItemLess: (Item, Item) -> bool := (a: Item, b: Item) =>
    if a.group != b.group then a.group < b.group
    else if a.lo != b.lo then a.lo < b.lo
    else if a.hi != b.hi then a.hi < b.hi
    else if a.index != b.index then a.index < b.index
    else !a.ascending && b.ascending

  lemma {:induction false} ItemStrictTotal()
    ensures StrictTotal(ItemLess)
  {}

  /** No item twice. */
  ghost predicate Once(items: seq<Item>) {
    forall x, y :: 0 <= x < y < |items| ==> items[x] != items[y]
  }

  lemma {:induction false} OnceCounts(items: seq<Item>)
    ensures Once(items) <==> forall z :: multiset(items)[z] <= 1
  {
    if items != [] {
      var rest, last := items[..|items| - 1], items[|items| - 1];
      assert items == rest + [last];
      OnceCounts(rest);
      if Once(items) {
        assert last !in rest;
      } else if Once(rest) {
        var x, y :| 0 <= x < y < |items| && items[x] == items[y];
        assert last in rest;
        assert multiset(items)[last] >= 2;
      } else {
        var z :| multiset(rest)[z] > 1;
        assert multiset(items)[z] > 1;
      }
    }
  }

  /** Sorting keeps the items and puts them in order. */
  lemma {:induction false} SortedItems<K>(items: seq<Item>, v: View<K>)
    requires Lists(items, v) && Once(items)
    ensures var sorted := Sort(ItemLess, items); Lists(sorted, v) && Once(sorted) && Ordered(sorted)
  {
    var sorted := Sort(ItemLess, items);
    ItemStrictTotal();
    SortCorrect(ItemLess, items);
    OnceCounts(items);
    OnceCounts(sorted);
    forall x | 0 <= x < |sorted|
      ensures sorted[x] in items
    {
      assert sorted[x] in multiset(sorted);
    }
    forall k | In(v, k)
      ensures HasIndex(sorted, k)
    {
      assert HasIndex(items, k);
      var x :| 0 <= x < |items| && items[x].index == k;
      assert items[x] in multiset(sorted);
    }
    GroupedSame(items, sorted, v);
  }

  lemma {:induction false} GroupedSame<K>(items: seq<Item>, sorted: seq<Item>, v: View<K>)
    requires Lists(items, v) && Ranges(sorted, v) && forall x :: 0 <= x < |sorted| ==> sorted[x] in items
    ensures Grouped(sorted, v)
  {}
}
