/**
 Merging the endpoints of one signal that come from the same assignment and whose exact bit
 ranges touch or overlap.
 */
module BitRangeMerge {
  import opened Wrappers
  import opened Sorting
  import opened Int32
  import opened Decimal
  import opened Endpoints
  import opened BitRuns

  // ---------------------------------------------------------------------------
  // Bit range text
  // ---------------------------------------------------------------------------

  /** A text that is exactly one `[N]` or `[L:R]`; anything else is rejected. */
  function ParseExactBitMapText(text: string): (r: Option<(int, int)>)
    ensures r.Some? ==> INT32_MIN <= r.value.0 <= INT32_MAX && INT32_MIN <= r.value.1 <= INT32_MAX
  {
    if |text| < 3 || text[0] != '[' || text[|text| - 1] != ']' then None
    else
      var inside := text[1..|text| - 1];
      var colon := Find(inside, ':');
      if colon == |inside| then
        match ParseInt32(inside)
        case None => None
        case Some(v) => Some((v, v))
      else
        match (ParseInt32(inside[..colon]), ParseInt32(inside[colon + 1..]))
        case (Some(l), Some(r)) => Some((l, r))
        case _ => None
  }

  function Bracketed(inside: string): string {
    ['['] + inside + [']']
  }

  function FormatBitRange(hi: int, lo: int): string {
    if hi == lo then Bracketed(IntText(hi)) else Bracketed(IntText(hi) + [':'] + IntText(lo))
  }

  /** The text of a merged range; ascending ranges keep their direction. */
  function RangeText(lo: int, hi: int, ascending: bool): string {
    if ascending && lo != hi then Bracketed(IntText(lo) + [':'] + IntText(hi)) else FormatBitRange(hi, lo)
  }

  lemma {:induction false} ParsePair(l: int, r: int)
    requires IsInt32(l) && IsInt32(r)
    ensures ParseExactBitMapText(Bracketed(IntText(l) + [':'] + IntText(r))) == Some((l, r))
  {
    var a, b := IntText(l), IntText(r);
    var inside := a + [':'] + b;
    assert Bracketed(inside)[1..|Bracketed(inside)| - 1] == inside;
    IntTextChars(l, ':');
    FindSplits(a, ':', b);
    assert inside[..|a|] == a && inside[|a| + 1..] == b;
    ParseIntText(l);
    ParseIntText(r);
  }

  lemma {:induction false} ParseSingle(v: int)
    requires IsInt32(v)
    ensures ParseExactBitMapText(Bracketed(IntText(v))) == Some((v, v))
  {
    var inside := IntText(v);
    assert Bracketed(inside)[1..|Bracketed(inside)| - 1] == inside;
    IntTextChars(v, ':');
    FindNone(inside, ':');
    ParseIntText(v);
  }

  /** The text of a range parses back to it. */
  lemma {:induction false} RangeTextParses(lo: int, hi: int, ascending: bool)
    requires IsInt32(lo) && IsInt32(hi) && lo <= hi
    ensures var r := ParseExactBitMapText(RangeText(lo, hi, ascending));
            r == Some(if ascending then (lo, hi) else (hi, lo))
  {
    if lo == hi {
      ParseSingle(lo);
    } else if ascending {
      ParsePair(lo, hi);
    } else {
      ParsePair(hi, lo);
    }
  }

  // ---------------------------------------------------------------------------
  // The view of a list of endpoints
  // ---------------------------------------------------------------------------

  /** Everything that must agree for two endpoints to merge. */
  function MergeKey(e: EndpointRecord): EndpointRecord {
    e.(bitMap := "", compactPortRoutes := [], portMappingConstant := false, portMappingUnresolved := false)
  }

  predicate Eligible(e: EndpointRecord) {
    && e.bitMap != ""
    && (e.legacyFallbackNativeMerge || (!e.bitMapApproximate && e.portQueryCoverage == []))
    && ParseExactBitMapText(e.bitMap).Some?
  }

  function MemberOf(e: EndpointRecord): Option<Member<EndpointRecord>> {
    if !Eligible(e) then None
    else
      var (l, r) := ParseExactBitMapText(e.bitMap).value;
      Some(Member(MergeKey(e), Min(l, r), Max(l, r), l < r))
  }

  function ViewOf(s: seq<EndpointRecord>): (v: View<EndpointRecord>)
    ensures |v| == |s| && Proper(v)
  {
    seq(|s|, i requires 0 <= i < |s| => MemberOf(s[i]))
  }

  // ---------------------------------------------------------------------------
  // What merging gives
  // ---------------------------------------------------------------------------

  /** What stands for endpoint k, if it survives. */
  ghost predicate Stands(s: seq<EndpointRecord>, k: nat, e: EndpointRecord)
    requires k < |s|
  {
    var v := ViewOf(s);
    if !In(v, k) || Alone(v, k) then e == s[k]
    else exists lo, hi :: Block(v, k, lo, hi) && e == Joined(s[k], lo, hi, Ascending(v, k), Differs(v, k))
  }

  function Joined(e: EndpointRecord, lo: int, hi: int, ascending: bool, differs: bool): EndpointRecord {
    e.(bitMap := RangeText(lo, hi, ascending), bitMapMerged := e.bitMapMerged || differs)
  }

  /** The surviving positions among the first n, in order. */
  ghost function Survivors<K>(v: View<K>, n: nat): (at: seq<nat>)
    ensures forall i :: 0 <= i < |at| ==> at[i] < n
  {
    if n == 0 then [] else Survivors(v, n - 1) + if Survives(v, n - 1) then [n - 1] else []
  }

  lemma {:induction false} SurvivorsSurvive<K>(v: View<K>, n: nat, i: nat)
    requires i < |Survivors(v, n)|
    ensures Survives(v, Survivors(v, n)[i])
  {
    if i < |Survivors(v, n - 1)| {
      SurvivorsSurvive(v, n - 1, i);
    }
  }

  lemma {:induction false} SurvivorsAscend<K>(v: View<K>, n: nat, i: nat, j: nat)
    requires i < j < |Survivors(v, n)|
    ensures Survivors(v, n)[i] < Survivors(v, n)[j]
  {
    if j < |Survivors(v, n - 1)| {
      SurvivorsAscend(v, n - 1, i, j);
    }
  }

  /** Every survivor is listed. */
  lemma {:induction false} SurvivorListed<K>(v: View<K>, n: nat, k: nat) returns (i: nat)
    requires k < n && Survives(v, k)
    ensures i < |Survivors(v, n)| && Survivors(v, n)[i] == k
  {
    if k == n - 1 {
      i := |Survivors(v, n - 1)|;
    } else {
      i := SurvivorListed(v, n - 1, k);
    }
  }

  /** The merged list: the survivors in source order, each standing for its block. */
  ghost predicate MergedTo(s: seq<EndpointRecord>, t: seq<EndpointRecord>) {
    var at := Survivors(ViewOf(s), |s|);
    |t| == |at| && forall i :: 0 <= i < |at| ==> Stands(s, at[i], t[i])
  }

  // ---------------------------------------------------------------------------
  // What merging keeps
  // ---------------------------------------------------------------------------

  lemma {:induction false} BlockInt32(s: seq<EndpointRecord>, k: nat, lo: int, hi: int)
    requires k < |s| && Block(ViewOf(s), k, lo, hi)
    ensures IsInt32(lo) && IsInt32(hi) && lo <= hi
  {
    var v := ViewOf(s);
    var key := v[k].value.key;
    assert Covers(v, key, lo) && Covers(v, key, hi);
    var i :| Holds(v, i, key, lo);
    var j :| Holds(v, j, key, hi);
    assert v[i] == MemberOf(s[i]) && v[j] == MemberOf(s[j]);
  }

  /** The text of a survivor parses back to its block; only the merged mark of its key may change. */
  lemma {:induction false} StandsForBlock(s: seq<EndpointRecord>, k: nat, e: EndpointRecord)
    requires k < |s| && Stands(s, k, e) && In(ViewOf(s), k)
    ensures Eligible(e) && Block(ViewOf(s), k, MemberOf(e).value.lo, MemberOf(e).value.hi)
    ensures MergeKey(e) == MergeKey(s[k]).(bitMapMerged := e.bitMapMerged)
  {
    var v := ViewOf(s);
    if Alone(v, k) {
      AloneIsBlock(v, k);
    } else {
      var lo, hi :| Block(v, k, lo, hi) && e == Joined(s[k], lo, hi, Ascending(v, k), Differs(v, k));
      BlockInt32(s, k, lo, hi);
      RangeTextParses(lo, hi, Ascending(v, k));
    }
  }

  /** The bit is in the range of the i-th merged endpoint, which stands for the group of `key`. */
  ghost predicate KeptBit(s: seq<EndpointRecord>, t: seq<EndpointRecord>, key: EndpointRecord, bit: int, i: nat) {
    var at := Survivors(ViewOf(s), |s|);
    && i < |t| && i < |at| && Eligible(s[at[i]]) && MergeKey(s[at[i]]) == key
    && Eligible(t[i]) && MemberOf(t[i]).value.lo <= bit <= MemberOf(t[i]).value.hi
  }

  /** Per group, merging covers exactly the bits that were covered. */
  lemma {:induction false} CoverageConserved(s: seq<EndpointRecord>, t: seq<EndpointRecord>, key: EndpointRecord,
                                             bit: int)
    requires MergedTo(s, t)
    ensures Covers(ViewOf(s), key, bit) <==> exists i: nat :: KeptBit(s, t, key, bit, i)
  {
    var v, at := ViewOf(s), Survivors(ViewOf(s), |s|);
    if Covers(v, key, bit) {
      var k :| Holds(v, k, key, bit);
      TogetherSelf(v, k);
      var j := SurvivorOf(v, k, k);
      var i := SurvivorListed(v, |s|, j);
      StandsForBlock(s, j, t[i]);
      var m := MemberOf(t[i]).value;
      assert Together(v, k, j);
      BlockTogether(v, k, j, m.lo, m.hi);
      assert KeptBit(s, t, key, bit, i);
    }
    if i: nat :| KeptBit(s, t, key, bit, i) {
      StandsForBlock(s, at[i], t[i]);
    }
  }

  /** Survivors of one group are separated by a bit the group does not cover. */
  lemma {:induction false} SurvivorsSeparated(s: seq<EndpointRecord>, t: seq<EndpointRecord>, i: nat, j: nat)
    returns (gap: int)
    requires MergedTo(s, t) && i < j < |t|
    requires var at := Survivors(ViewOf(s), |s|);
             Eligible(s[at[i]]) && Eligible(s[at[j]]) && MergeKey(s[at[i]]) == MergeKey(s[at[j]])
    ensures !Covers(ViewOf(s), MergeKey(s[Survivors(ViewOf(s), |s|)[i]]), gap)
    ensures Eligible(t[i]) && Eligible(t[j])
    ensures var (a, b) := (MemberOf(t[i]).value, MemberOf(t[j]).value); a.hi < gap < b.lo || b.hi < gap < a.lo
  {
    var v, at := ViewOf(s), Survivors(ViewOf(s), |s|);
    StandsForBlock(s, at[i], t[i]);
    StandsForBlock(s, at[j], t[j]);
    var a, b := MemberOf(t[i]).value, MemberOf(t[j]).value;
    SurvivorsSurvive(v, |s|, j);
    SurvivorsAscend(v, |s|, i, j);
    assert !Together(v, at[i], at[j]);
    gap := BlocksApart(v, at[i], at[j], a.lo, a.hi, b.lo, b.hi);
  }

  /** Endpoints of one assignment that may merge: they agree in all but range text, routes and mapping marks. */
  predicate MayMerge(a: EndpointRecord, b: EndpointRecord) {
    && SamePlace(a, b) && SameReferences(a, b)
    && a.bitMapApproximate == b.bitMapApproximate && a.bitMapLogicalAxes == b.bitMapLogicalAxes
    && a.bitMapMerged == b.bitMapMerged && a.legacyFallbackNativeMerge == b.legacyFallbackNativeMerge
    && a.portQueryCoverage == b.portQueryCoverage
  }

  lemma {:induction false} MergeKeyFields(a: EndpointRecord, b: EndpointRecord)
    ensures MergeKey(a) == MergeKey(b) <==> MayMerge(a, b)
  {
    var x, y := MergeKey(a), MergeKey(b);
    assert x == y <==> MayMerge(x, y);
  }

  /** What flows together agrees field by field. */
  lemma {:induction false} FlowingMayMerge(s: seq<EndpointRecord>, j: int, k: int)
    requires Together(ViewOf(s), j, k)
    ensures 0 <= j < |s| && 0 <= k < |s| && Eligible(s[j]) && Eligible(s[k]) && MayMerge(s[j], s[k])
    ensures s[j].bitMap != "" && ParseExactBitMapText(s[j].bitMap).Some?
    ensures s[j].bitMapApproximate || s[j].portQueryCoverage != [] ==> s[j].legacyFallbackNativeMerge
  {
    var v := ViewOf(s);
    assert v[j] == MemberOf(s[j]) && v[k] == MemberOf(s[k]);
    MergeKeyFields(s[j], s[k]);
  }

  /** Ranges of one assignment that touch or overlap flow together. */
  lemma {:induction false} TouchingFlow(s: seq<EndpointRecord>, j: nat, k: nat)
    requires j < |s| && k < |s| && MayMerge(s[j], s[k])
    requires ParseExactBitMapText(s[j].bitMap).Some? && ParseExactBitMapText(s[k].bitMap).Some?
    requires s[j].legacyFallbackNativeMerge || (!s[j].bitMapApproximate && s[j].portQueryCoverage == [])
    requires RangesTouch(s[j], s[k])
    ensures Together(ViewOf(s), j, k)
  {
    var v := ViewOf(s);
    assert v[j] == MemberOf(s[j]) && v[k] == MemberOf(s[k]);
    MergeKeyFields(s[j], s[k]);
    TouchingTogether(v, j, k);
  }

  /**
   Every endpoint that takes part is covered by a merged one: of an endpoint that agrees with it
   field by field, over a range that holds its own.
   */
  lemma {:induction false} MergedCovers(s: seq<EndpointRecord>, t: seq<EndpointRecord>, k: nat) returns (i: nat)
    requires MergedTo(s, t) && k < |s| && Eligible(s[k])
    ensures i < |t| && MayMerge(s[Survivors(ViewOf(s), |s|)[i]], s[k])
    ensures MayMerge(t[i].(bitMapMerged := s[k].bitMapMerged), s[k])
    ensures Eligible(t[i])
    ensures MemberOf(t[i]).value.lo <= MemberOf(s[k]).value.lo && MemberOf(s[k]).value.hi <= MemberOf(t[i]).value.hi
  {
    var v, at := ViewOf(s), Survivors(ViewOf(s), |s|);
    assert v[k] == MemberOf(s[k]);
    TogetherSelf(v, k);
    var j := SurvivorOf(v, k, k);
    i := SurvivorListed(v, |s|, j);
    assert Stands(s, j, t[i]);
    StandsForBlock(s, j, t[i]);
    FlowingMayMerge(s, j, k);
    TogetherSymmetric(v, j, k);
    SameBlock(v, k, j, MemberOf(t[i]).value.lo, MemberOf(t[i]).value.hi);
    MarkAside(t[i], s[j]);
  }

  lemma {:induction false} MarkAside(e: EndpointRecord, a: EndpointRecord)
    requires MergeKey(e) == MergeKey(a).(bitMapMerged := e.bitMapMerged)
    ensures MayMerge(e.(bitMapMerged := a.bitMapMerged), a)
  {
    assert MergeKey(e.(bitMapMerged := a.bitMapMerged)) == MergeKey(e).(bitMapMerged := a.bitMapMerged);
    MergeKeyFields(e.(bitMapMerged := a.bitMapMerged), a);
  }

  /** Endpoints that take no part stay as they are, in order. */
  lemma {:induction false} IneligibleKept(s: seq<EndpointRecord>, t: seq<EndpointRecord>, k: nat) returns (i: nat)
    requires MergedTo(s, t) && k < |s| && !Eligible(s[k])
    ensures i < |t| && Survivors(ViewOf(s), |s|)[i] == k && t[i] == s[k]
  {
    var v, at := ViewOf(s), Survivors(ViewOf(s), |s|);
    assert !In(v, k) && Survives(v, k);
    i := SurvivorListed(v, |s|, k);
    assert Stands(s, at[i], t[i]);
  }

  // ---------------------------------------------------------------------------
  // A second pass
  // ---------------------------------------------------------------------------

  /** The blocks of the two ranges touch. */
  ghost predicate BlocksTouch<K>(v: View<K>, k: int, l: int) {
    exists klo, khi, llo, lhi :: Block(v, k, klo, khi) && Block(v, l, llo, lhi) && Touching(klo, khi, llo, lhi)
  }

  /**
   A flagged endpoint k and an unflagged one l agree in all else, their blocks touch, and l is
   joined with a different range, so that it comes out flagged as well.
   */
  ghost predicate FlagsMeet(s: seq<EndpointRecord>, k: nat, l: nat) {
    && k < |s| && l < |s| && Eligible(s[k]) && Eligible(s[l])
    && s[k].bitMapMerged && !s[l].bitMapMerged
    && MergeKey(s[k]) == MergeKey(s[l]).(bitMapMerged := true)
    && Differs(ViewOf(s), l) && BlocksTouch(ViewOf(s), k, l)
  }

  /** The survivor behind an endpoint covers its block and is flagged if the endpoint was or differs. */
  lemma {:induction false} MergedFor(s: seq<EndpointRecord>, t: seq<EndpointRecord>, k: nat, lo: int, hi: int)
    returns (i: nat)
    requires MergedTo(s, t) && k < |s| && Block(ViewOf(s), k, lo, hi)
    ensures i < |t| && MergeKey(s[Survivors(ViewOf(s), |s|)[i]]) == MergeKey(s[k])
    ensures Eligible(t[i]) && MemberOf(t[i]).value.lo == lo && MemberOf(t[i]).value.hi == hi
    ensures MergeKey(t[i]) == MergeKey(s[k]).(bitMapMerged := s[k].bitMapMerged || Differs(ViewOf(s), k))
  {
    var v, at := ViewOf(s), Survivors(ViewOf(s), |s|);
    TogetherSelf(v, k);
    var j := SurvivorOf(v, k, k);
    i := SurvivorListed(v, |s|, j);
    assert Stands(s, j, t[i]);
    StandsForBlock(s, j, t[i]);
    SameBlock(v, j, k, lo, hi);
    BlockUnique(v, j, lo, hi, MemberOf(t[i]).value.lo, MemberOf(t[i]).value.hi);
    FlagOf(s, j, t[i]);
    SameKey(s, j, k);
    if Differs(v, k) { SameDiffers(v, j, k); }
    if Differs(v, j) {
      TogetherSymmetric(v, j, k);
      SameDiffers(v, k, j);
    }
  }

  lemma {:induction false} SameKey(s: seq<EndpointRecord>, j: nat, k: nat)
    requires Together(ViewOf(s), j, k)
    ensures j < |s| && k < |s| && MergeKey(s[j]) == MergeKey(s[k]) && s[j].bitMapMerged == s[k].bitMapMerged
  {
    var v := ViewOf(s);
    assert v[j] == MemberOf(s[j]) && v[k] == MemberOf(s[k]);
    assert MergeKey(s[j]).bitMapMerged == s[j].bitMapMerged && MergeKey(s[k]).bitMapMerged == s[k].bitMapMerged;
  }

  /** The mark of what stands for an endpoint. */
  lemma {:induction false} FlagOf(s: seq<EndpointRecord>, k: nat, e: EndpointRecord)
    requires k < |s| && Stands(s, k, e) && In(ViewOf(s), k)
    ensures e.bitMapMerged == (s[k].bitMapMerged || Differs(ViewOf(s), k))
  {
    var v := ViewOf(s);
    if Alone(v, k) {
      assert forall j :: Together(v, j, k) ==> j == k;
    }
  }

  lemma {:induction false} MeetingMergesAgain(s: seq<EndpointRecord>, t: seq<EndpointRecord>, k: nat, l: nat)
    requires MergedTo(s, t) && FlagsMeet(s, k, l)
    ensures exists i, j :: Together(ViewOf(t), i, j) && i != j
  {
    var v, w := ViewOf(s), ViewOf(t);
    var klo, khi, llo, lhi :| Block(v, k, klo, khi) && Block(v, l, llo, lhi) && Touching(klo, khi, llo, lhi);
    var i := MergedFor(s, t, k, klo, khi);
    var j := MergedFor(s, t, l, llo, lhi);
    assert MergeKey(s[k]).bitMapMerged && !MergeKey(s[l]).bitMapMerged;
    assert w[i] == MemberOf(t[i]) && w[j] == MemberOf(t[j]);
    TouchingTogether(w, i, j);
  }

  /** Merged endpoints of one group. */
  ghost predicate SameGroup(t: seq<EndpointRecord>, x: nat, y: nat) {
    && x < |t| && y < |t| && x != y && Eligible(t[x]) && Eligible(t[y]) && MergeKey(t[x]) == MergeKey(t[y])
  }

  ghost predicate RangesTouch(a: EndpointRecord, b: EndpointRecord)
    requires Eligible(a) && Eligible(b)
  {
    var (m, n) := (MemberOf(a).value, MemberOf(b).value);
    Touching(m.lo, m.hi, n.lo, n.hi)
  }

  /** If they came from endpoints with equal marks they do not touch. */
  lemma {:induction false} EqualMarksApart(s: seq<EndpointRecord>, t: seq<EndpointRecord>, x: nat, y: nat)
    requires MergedTo(s, t) && SameGroup(t, x, y)
    requires var at := Survivors(ViewOf(s), |s|); s[at[x]].bitMapMerged == s[at[y]].bitMapMerged
    ensures !RangesTouch(t[x], t[y])
  {
    var at := Survivors(ViewOf(s), |s|);
    CameFrom(s, t, x);
    CameFrom(s, t, y);
    SameUnmarked(s[at[x]], t[x], s[at[y]], t[y]);
    var gap := SurvivorsSeparated(s, t, Min(x, y), Max(x, y));
  }

  /** If a flagged and an unflagged one end in one group and touch, they met before. */
  lemma {:induction false} MarksMeet(s: seq<EndpointRecord>, t: seq<EndpointRecord>, x: nat, y: nat)
    requires MergedTo(s, t) && SameGroup(t, x, y) && RangesTouch(t[x], t[y])
    requires var at := Survivors(ViewOf(s), |s|); s[at[x]].bitMapMerged && !s[at[y]].bitMapMerged
    ensures var at := Survivors(ViewOf(s), |s|); FlagsMeet(s, at[x], at[y])
  {
    var at := Survivors(ViewOf(s), |s|);
    CameFrom(s, t, x);
    CameFrom(s, t, y);
    SameMark(t[x], t[y]);
    MarkedKeys(s[at[x]], t[x], s[at[y]], t[y]);
  }

  /** The range, key and mark of a merged endpoint, from the endpoint it stands for. */
  lemma {:induction false} CameFrom(s: seq<EndpointRecord>, t: seq<EndpointRecord>, i: nat)
    requires MergedTo(s, t) && i < |t| && Eligible(t[i])
    ensures var k := Survivors(ViewOf(s), |s|)[i];
            && Eligible(s[k]) && Block(ViewOf(s), k, MemberOf(t[i]).value.lo, MemberOf(t[i]).value.hi)
            && MergeKey(t[i]) == MergeKey(s[k]).(bitMapMerged := t[i].bitMapMerged)
            && t[i].bitMapMerged == (s[k].bitMapMerged || Differs(ViewOf(s), k))
  {
    var at := Survivors(ViewOf(s), |s|);
    KeptBefore(s, t, i);
    assert Stands(s, at[i], t[i]);
    StandsForBlock(s, at[i], t[i]);
    FlagOf(s, at[i], t[i]);
  }

  lemma {:induction false} TouchingMeets(s: seq<EndpointRecord>, t: seq<EndpointRecord>, x: nat, y: nat)
    requires MergedTo(s, t) && SameGroup(t, x, y) && RangesTouch(t[x], t[y])
    ensures exists k, l :: FlagsMeet(s, k, l)
  {
    var at := Survivors(ViewOf(s), |s|);
    if s[at[x]].bitMapMerged == s[at[y]].bitMapMerged {
      EqualMarksApart(s, t, x, y);
    } else if s[at[x]].bitMapMerged {
      MarksMeet(s, t, x, y);
    } else {
      MarksMeet(s, t, y, x);
    }
  }

  lemma {:induction false} SameMark(a: EndpointRecord, b: EndpointRecord)
    requires MergeKey(a) == MergeKey(b)
    ensures a.bitMapMerged == b.bitMapMerged
  {
    assert MergeKey(a).bitMapMerged == a.bitMapMerged && MergeKey(b).bitMapMerged == b.bitMapMerged;
  }

  lemma {:induction false} SameUnmarked(a: EndpointRecord, x: EndpointRecord, b: EndpointRecord, y: EndpointRecord)
    requires MergeKey(x) == MergeKey(a).(bitMapMerged := x.bitMapMerged)
    requires MergeKey(y) == MergeKey(b).(bitMapMerged := y.bitMapMerged)
    requires MergeKey(x) == MergeKey(y) && a.bitMapMerged == b.bitMapMerged
    ensures MergeKey(a) == MergeKey(b)
  {
    assert MergeKey(a) == MergeKey(x).(bitMapMerged := a.bitMapMerged);
    assert MergeKey(b) == MergeKey(y).(bitMapMerged := b.bitMapMerged);
  }

  lemma {:induction false} MarkedKeys(a: EndpointRecord, x: EndpointRecord, b: EndpointRecord, y: EndpointRecord)
    requires MergeKey(x) == MergeKey(a).(bitMapMerged := x.bitMapMerged)
    requires MergeKey(y) == MergeKey(b).(bitMapMerged := y.bitMapMerged)
    requires MergeKey(x) == MergeKey(y) && a.bitMapMerged && x.bitMapMerged
    ensures MergeKey(a) == MergeKey(b).(bitMapMerged := true)
  {
    assert MergeKey(a) == MergeKey(x);
    assert y.bitMapMerged by { SameMark(x, y); }
  }

  lemma {:induction false} KeptBefore(s: seq<EndpointRecord>, t: seq<EndpointRecord>, i: nat)
    requires MergedTo(s, t) && i < |t| && Eligible(t[i])
    ensures var e := s[Survivors(ViewOf(s), |s|)[i]];
            Eligible(e) && MergeKey(t[i]) == MergeKey(e).(bitMapMerged := t[i].bitMapMerged)
  {
    var at := Survivors(ViewOf(s), |s|);
    assert Stands(s, at[i], t[i]);
    if In(ViewOf(s), at[i]) {
      StandsForBlock(s, at[i], t[i]);
    }
  }

  /** A list in which every range is alone merges to itself only. */
  lemma {:induction false} AllAloneMerged(t: seq<EndpointRecord>, u: seq<EndpointRecord>)
    requires forall i, j :: Together(ViewOf(t), i, j) ==> i == j
    ensures MergedTo(t, u) <==> u == t
  {
    var w := ViewOf(t);
    AllSurvive(w, |t|);
    forall k | 0 <= k < |t| && k < |u|
      ensures Stands(t, k, u[k]) <==> u[k] == t[k]
    {
      assert In(w, k) ==> Alone(w, k);
    }
    if MergedTo(t, u) {
      forall k | 0 <= k < |t|
        ensures u[k] == t[k]
      {
        assert Stands(t, Survivors(w, |t|)[k], u[k]);
      }
    }
  }

  /** A list merges to itself exactly if no two of its ranges flow together. */
  lemma {:induction false} FixpointAlone(t: seq<EndpointRecord>)
    ensures MergedTo(t, t) <==> forall i, j :: Together(ViewOf(t), i, j) ==> i == j
  {
    var w := ViewOf(t);
    if forall i, j :: Together(w, i, j) ==> i == j {
      AllAloneMerged(t, t);
    }
    if MergedTo(t, t) {
      forall i, j | Together(w, i, j)
        ensures i == j
      {
        TogetherSymmetric(w, i, j);
        WholeSurvives(w, i);
        WholeSurvives(w, j);
      }
    }
  }

  lemma {:induction false} WholeSurvives<K>(v: View<K>, k: int)
    requires |Survivors(v, |v|)| == |v| && 0 <= k < |v|
    ensures Survives(v, k)
  {
    SurvivorsFewer(v, |v|, k);
  }

  lemma {:induction false} SurvivorsBound<K>(v: View<K>, n: nat)
    ensures |Survivors(v, n)| <= n
  {
    if n > 0 {
      SurvivorsBound(v, n - 1);
    }
  }

  lemma {:induction false} SurvivorsFewer<K>(v: View<K>, n: nat, k: int)
    requires 0 <= k < n <= |v|
    ensures |Survivors(v, n)| <= n && (!Survives(v, k) ==> |Survivors(v, n)| < n)
  {
    SurvivorsBound(v, n - 1);
    if k < n - 1 {
      SurvivorsFewer(v, n - 1, k);
    }
  }

  /**
   A second pass changes something exactly if the list had a flagged and an unflagged endpoint
   that agree in all else, with touching blocks, the latter of several ranges.
   */
  lemma {:induction false} SecondPass(s: seq<EndpointRecord>, t: seq<EndpointRecord>, u: seq<EndpointRecord>)
    requires MergedTo(s, t) && MergedTo(t, u)
    ensures u != t <==> exists k, l :: FlagsMeet(s, k, l)
  {
    if k: nat, l: nat :| FlagsMeet(s, k, l) {
      MeetingMergesAgain(s, t, k, l);
    }
    FixpointAlone(t);
    if exists i, j :: Together(ViewOf(t), i, j) && i != j {
      TogetherMeets(s, t);
    } else {
      AllAloneMerged(t, u);
    }
  }

  lemma {:induction false} TogetherMeets(s: seq<EndpointRecord>, t: seq<EndpointRecord>)
    requires MergedTo(s, t) && exists i, j :: Together(ViewOf(t), i, j) && i != j
    ensures exists k, l :: FlagsMeet(s, k, l)
  {
    var w := ViewOf(t);
    var i, j :| Together(w, i, j) && i != j;
    var x, y := TouchingPair(w, i, j);
    assert w[x] == MemberOf(t[x]) && w[y] == MemberOf(t[y]);
    TouchingMeets(s, t, x, y);
  }

  lemma {:induction false} AllSurvive<K>(v: View<K>, n: nat)
    requires n <= |v| && forall i, j :: Together(v, i, j) ==> i == j
    ensures |Survivors(v, n)| == n && forall k :: 0 <= k < n ==> Survivors(v, n)[k] == k
  {
    if n > 0 {
      AllSurvive(v, n - 1);
    }
  }

  function Bit(e: EndpointRecord, bit: int, merged: bool): EndpointRecord {
    e.(bitMap := RangeText(bit, bit, false), bitMapMerged := merged, bitMapApproximate := false,
       portQueryCoverage := [])
  }

  lemma {:induction false} BitMember(e: EndpointRecord, bit: int, merged: bool)
    requires IsInt32(bit)
    ensures MemberOf(Bit(e, bit, merged)) == Some(Member(MergeKey(Bit(e, 0, merged)), bit, bit, false))
  {
    RangeTextParses(bit, bit, false);
  }

  /**
   Why the condition is there: bit 0 comes in flagged as merged, bits 1 and 2 do not. The first
   pass joins the latter two, which flags them; now all three are one group and touch.
   */
  lemma {:induction false} FlaggedMergesAgain(e: EndpointRecord, t: seq<EndpointRecord>)
    requires MergedTo([Bit(e, 0, true), Bit(e, 1, false), Bit(e, 2, false)], t)
    ensures !MergedTo(t, t)
  {
    var s := [Bit(e, 0, true), Bit(e, 1, false), Bit(e, 2, false)];
    var one, two := MergeKey(s[0]), MergeKey(s[1]);
    BitMember(e, 0, true);
    BitMember(e, 1, false);
    BitMember(e, 2, false);
    assert one.bitMapMerged && !two.bitMapMerged;
    assert ViewOf(s) == ThreeBits(one, two);
    BlocksOfThree(one, two);
    assert FlagsMeet(s, 0, 1);
    MeetingMergesAgain(s, t, 0, 1);
    FixpointAlone(t);
  }

  function ThreeBits<K>(one: K, two: K): View<K> {
    [Some(Member(one, 0, 0, false)), Some(Member(two, 1, 1, false)), Some(Member(two, 2, 2, false))]
  }

  lemma {:induction false} BlocksOfThree<K>(one: K, two: K)
    requires one != two
    ensures var v := ThreeBits(one, two); Differs(v, 1) && BlocksTouch(v, 0, 1)
  {
    var v := ThreeBits(one, two);
    TouchingTogether(v, 2, 1);
    assert Holds(v, 0, one, 0) && Holds(v, 1, two, 1) && Holds(v, 2, two, 2);
    assert Block(v, 0, 0, 0) && Block(v, 1, 1, 2);
  }

  // ---------------------------------------------------------------------------
  // The pass
  // ---------------------------------------------------------------------------

  /** The ranges of the first i endpoints, in order. */
  ghost predicate Collected(items: seq<Item>, v: View<EndpointRecord>, i: nat) {
    && (forall x :: 0 <= x < |items| ==> items[x].index < i && RangeOf(items[x], v))
    && (forall k :: 0 <= k < i && In(v, k) ==> HasIndex(items, k))
    && (forall x, y :: 0 <= x < y < |items| ==> items[x].index < items[y].index)
  }

  lemma {:induction false} CollectStep(items: seq<Item>, v: View<EndpointRecord>, i: nat, last: Item)
    requires Collected(items, v, i) && last.index == i && RangeOf(last, v)
    ensures Collected(items + [last], v, i + 1)
  {
    KeepsIndex(items, last, i);
  }

  /** The ranges of the eligible endpoints, in source order, not yet grouped. */
  method CollectItems(a: array<EndpointRecord>) returns (items: seq<Item>)
    ensures Collected(items, ViewOf(a[..]), a.Length)
  {
    items := [];
    ghost var v := ViewOf(a[..]);
    for i := 0 to a.Length
      invariant Collected(items, v, i)
    {
      CollectNext(items, v, i, a[i]);
      if Eligible(a[i]) {
        var (l, r) := ParseExactBitMapText(a[i].bitMap).value;
        items := items + [Item(0, Min(l, r), Max(l, r), i, l < r)];
      }
    }
  }

  lemma {:induction false} CollectNext(items: seq<Item>, v: View<EndpointRecord>, i: nat, e: EndpointRecord)
    requires Collected(items, v, i) && i < |v| && v[i] == MemberOf(e)
    ensures if !Eligible(e) then Collected(items, v, i + 1)
            else
              var (l, r) := ParseExactBitMapText(e.bitMap).value;
              Collected(items + [Item(0, Min(l, r), Max(l, r), i, l < r)], v, i + 1)
  {
    if Eligible(e) {
      var (l, r) := ParseExactBitMapText(e.bitMap).value;
      CollectStep(items, v, i, Item(0, Min(l, r), Max(l, r), i, l < r));
    }
  }

  ghost predicate RangeOf(item: Item, v: View<EndpointRecord>) {
    && In(v, item.index) && item.lo == v[item.index].value.lo
    && item.hi == v[item.index].value.hi && item.ascending == v[item.index].value.ascending
  }

  lemma {:induction false} KeepsIndex(items: seq<Item>, last: Item, i: nat)
    requires last.index == i
    ensures HasIndex(items + [last], i)
    ensures forall k :: HasIndex(items, k) ==> HasIndex(items + [last], k)
  {
    assert (items + [last])[|items|].index == i;
    forall k | HasIndex(items, k)
      ensures HasIndex(items + [last], k)
    {
      var x :| 0 <= x < |items| && items[x].index == k;
      assert (items + [last])[x].index == k;
    }
  }

  /** The first i items carry the numbers of their keys. */
  ghost predicate Assigned(s: seq<EndpointRecord>, items: seq<Item>, grouped: seq<Item>,
                           groupOf: map<EndpointRecord, nat>, i: nat)
    requires forall x :: 0 <= x < |items| ==> items[x].index < |s|
  {
    && i <= |items| && |grouped| == i && |groupOf| <= i
    && (forall x :: 0 <= x < i ==> grouped[x] == items[x].(group := grouped[x].group))
    && (forall x :: 0 <= x < i ==>
          MergeKey(s[items[x].index]) in groupOf && grouped[x].group == groupOf[MergeKey(s[items[x].index])])
    && Numbered(groupOf)
    && (|groupOf| == i ==> forall x, y :: 0 <= x < y < i ==> grouped[x].group != grouped[y].group)
  }

  /** Different keys have different numbers. */
  ghost predicate Numbered(groupOf: map<EndpointRecord, nat>) {
    && (forall key :: key in groupOf ==> groupOf[key] < |groupOf|)
    && (forall key, other :: key in groupOf && other in groupOf && groupOf[key] == groupOf[other] ==> key == other)
  }

  lemma {:induction false} NumberNew(groupOf: map<EndpointRecord, nat>, key: EndpointRecord)
    requires Numbered(groupOf) && key !in groupOf
    ensures Numbered(groupOf[key := |groupOf|]) && |groupOf[key := |groupOf|]| == |groupOf| + 1
  {
    var next := groupOf[key := |groupOf|];
    assert next.Keys == groupOf.Keys + {key};
  }

  lemma {:induction false} AssignKnown(s: seq<EndpointRecord>, items: seq<Item>, grouped: seq<Item>,
                                       groupOf: map<EndpointRecord, nat>,
                                       i: nat, key: EndpointRecord)
    requires forall x :: 0 <= x < |items| ==> items[x].index < |s|
    requires Assigned(s, items, grouped, groupOf, i) && i < |items|
    requires key == MergeKey(s[items[i].index]) && key in groupOf
    ensures Assigned(s, items, grouped + [items[i].(group := groupOf[key])], groupOf, i + 1)
  {}

  lemma {:induction false} AssignNew(s: seq<EndpointRecord>, items: seq<Item>, grouped: seq<Item>,
                                     groupOf: map<EndpointRecord, nat>,
                                     i: nat, key: EndpointRecord)
    requires forall x :: 0 <= x < |items| ==> items[x].index < |s|
    requires Assigned(s, items, grouped, groupOf, i) && i < |items|
    requires key == MergeKey(s[items[i].index]) && key !in groupOf
    ensures Assigned(s, items, grouped + [items[i].(group := |groupOf|)], groupOf[key := |groupOf|], i + 1)
  {
    NumberNew(groupOf, key);
    forall x | 0 <= x < i
      ensures grouped[x].group < |groupOf|
    {
      assert MergeKey(s[items[x].index]) in groupOf;
    }
  }

  /** Group numbers in order of first appearance. */
  method AssignGroups(a: array<EndpointRecord>, items: seq<Item>) returns (grouped: seq<Item>, groups: nat)
    requires Collected(items, ViewOf(a[..]), a.Length)
    ensures Lists(grouped, ViewOf(a[..])) && Once(grouped) && |grouped| == |items|
    ensures groups == |items| ==> forall x, y :: 0 <= x < y < |grouped| ==> grouped[x].group != grouped[y].group
  {
    grouped := [];
    var groupOf: map<EndpointRecord, nat> := map[];
    for i := 0 to |items|
      invariant Assigned(a[..], items, grouped, groupOf, i)
    {
      assert RangeOf(items[i], ViewOf(a[..]));
      var key := MergeKey(a[items[i].index]);
      if key in groupOf {
        AssignKnown(a[..], items, grouped, groupOf, i, key);
      } else {
        AssignNew(a[..], items, grouped, groupOf, i, key);
        groupOf := groupOf[key := |groupOf|];
      }
      grouped := grouped + [items[i].(group := groupOf[key])];
    }
    groups := |groupOf|;
    GroupsList(a[..], items, grouped, groupOf);
  }

  lemma {:induction false} GroupsList(s: seq<EndpointRecord>, items: seq<Item>, grouped: seq<Item>,
                                      groupOf: map<EndpointRecord, nat>)
    requires Collected(items, ViewOf(s), |s|) && Assigned(s, items, grouped, groupOf, |items|)
    ensures Lists(grouped, ViewOf(s)) && Once(grouped)
  {
    var v := ViewOf(s);
    forall x | 0 <= x < |grouped|
      ensures RangeOf(grouped[x], v) && v[grouped[x].index].value.key == MergeKey(s[items[x].index])
    {
      assert RangeOf(items[x], v);
      assert v[items[x].index] == MemberOf(s[items[x].index]);
    }
    forall k | In(v, k)
      ensures HasIndex(grouped, k)
    {
      assert HasIndex(items, k);
      var x :| 0 <= x < |items| && items[x].index == k;
      assert grouped[x].index == k;
    }
  }

  /** Ranges with different keys, or fewer than two of them, are all alone. */
  lemma {:induction false} DistinctGroupsAlone(s: seq<EndpointRecord>, items: seq<Item>)
    requires Lists(items, ViewOf(s)) && forall x, y :: 0 <= x < y < |items| ==> items[x].group != items[y].group
    ensures MergedTo(s, s)
  {
    var v := ViewOf(s);
    forall i, j | Together(v, i, j)
      ensures i == j
    {
      assert HasIndex(items, i) && HasIndex(items, j);
      var x :| 0 <= x < |items| && items[x].index == i;
      var y :| 0 <= y < |items| && items[y].index == j;
      assert items[x].group == items[y].group;
    }
    AllAloneMerged(s, s);
  }

  /** What the scan of one run found. */
  datatype Found = Found(end: nat, lo: int, hi: int, first: nat, ascending: bool, descending: bool)

  predicate Descending(item: Item) {
    item.lo != item.hi && !item.ascending
  }

  /** The scan has read items b, ..., f.end - 1. */
  ghost predicate Scanned(items: seq<Item>, b: nat, f: Found) {
    && b < f.end <= |items| && f.lo == items[b].lo <= f.hi && Chain(items, b, f.end, f.lo, f.hi)
    && Gathered(items, b, f)
  }

  /** High end, earliest member and directions are those of items b, ..., f.end - 1. */
  ghost predicate Gathered(items: seq<Item>, b: nat, f: Found)
    requires b < f.end <= |items|
  {
    && (exists z :: b <= z < f.end && items[z].hi == f.hi)
    && (exists z :: b <= z < f.end && items[z].index == f.first)
    && (forall x :: b <= x < f.end ==> f.first <= items[x].index)
    && (f.ascending <==> exists z :: b <= z < f.end && items[z].ascending)
    && (f.descending <==> exists z :: b <= z < f.end && Descending(items[z]))
  }

  ghost predicate RunFound(items: seq<Item>, b: nat, f: Found) {
    Scanned(items, b, f) && Run(items, b, f.end, f.lo, f.hi)
  }

  function Started(items: seq<Item>, b: nat): Found
    requires b < |items|
  {
    Found(b + 1, items[b].lo, items[b].hi, items[b].index, items[b].ascending, Descending(items[b]))
  }

  /** The run with one more item. */
  function Extended(f: Found, item: Item): Found {
    Found(f.end + 1, f.lo, Max(f.hi, item.hi), if item.index < f.first then item.index else f.first,
          f.ascending || item.ascending, f.descending || Descending(item))
  }

  lemma {:induction false} ScanStart(items: seq<Item>, b: nat, v: View<EndpointRecord>)
    requires Lists(items, v) && Proper(v) && b < |items|
    ensures Scanned(items, b, Started(items, b))
  {
    ChainStart(items, v, b);
    assert items[b].lo <= items[b].hi;
  }

  lemma {:induction false} ScanStep(items: seq<Item>, b: nat, f: Found)
    requires Ordered(items) && Scanned(items, b, f)
    requires f.end < |items| && items[f.end].group == items[b].group && items[f.end].lo <= f.hi + 1
    ensures Scanned(items, b, Extended(f, items[f.end]))
  {
    ChainStep(items, b, f.end, f.lo, f.hi);
    GatherStep(items, b, f);
  }

  lemma {:induction false} GatherStep(items: seq<Item>, b: nat, f: Found)
    requires b < f.end < |items| && Gathered(items, b, f)
    ensures Gathered(items, b, Extended(f, items[f.end]))
  {
    var i := f.end;
    var z :| b <= z < i && items[z].hi == f.hi;
    var w :| b <= w < i && items[w].index == f.first;
    var next := Extended(f, items[i]);
    assert items[if f.hi < items[i].hi then i else z].hi == next.hi;
    assert items[if items[i].index < f.first then i else w].index == next.first;
  }

  /** The longest chain of touching ranges from `b` on. */
  method ScanRun(items: seq<Item>, b: nat, ghost v: View<EndpointRecord>) returns (f: Found)
    requires Lists(items, v) && Proper(v) && Ordered(items) && b < |items| && Separated(items, b)
    ensures RunFound(items, b, f)
  {
    f := Started(items, b);
    ScanStart(items, b, v);
    while f.end < |items| && items[f.end].group == items[b].group && items[f.end].lo <= f.hi + 1
      invariant Scanned(items, b, f)
      decreases |items| - f.end
    {
      ScanStep(items, b, f);
      f := Extended(f, items[f.end]);
    }
    ChainEnds(items, b, f.end, f.lo, f.hi);
  }

  // ---------------------------------------------------------------------------
  // One run
  // ---------------------------------------------------------------------------

  /** The items, the list they come from, and that they are sorted. */
  ghost predicate Sorted(s: seq<EndpointRecord>, items: seq<Item>) {
    Lists(items, ViewOf(s)) && Once(items) && Ordered(items)
  }

  lemma {:induction false} SameIndexSameItem(s: seq<EndpointRecord>, items: seq<Item>, x: int, y: int)
    requires Sorted(s, items) && 0 <= x < |items| && 0 <= y < |items| && items[x].index == items[y].index
    ensures x == y
  {
    assert items[x].group == items[y].group;
    assert items[x] == items[y];
  }

  ghost predicate RunHas(items: seq<Item>, b: nat, e: nat, j: int) {
    exists y :: b <= y < e && y < |items| && items[y].index == j
  }

  /** What flows together with a member of the run. */
  lemma {:induction false} TogetherInRun(s: seq<EndpointRecord>, items: seq<Item>, b: nat, f: Found, x: nat, j: int)
    requires Sorted(s, items) && RunFound(items, b, f) && b <= x < f.end
    ensures Together(ViewOf(s), j, items[x].index) <==> RunHas(items, b, f.end, j)
  {
    var v := ViewOf(s);
    assert RunHas(items, b, f.end, j) ==> In(v, j);
    if In(v, j) {
      assert HasIndex(items, j);
      var y :| 0 <= y < |items| && items[y].index == j;
      RunTogether(items, v, b, f.end, f.lo, f.hi, x, y);
      if z :| b <= z < f.end && items[z].index == j {
        SameIndexSameItem(s, items, y, z);
      }
    }
  }

  /** A member of the run and what flows together with it. */
  ghost predicate InBlock<K>(v: View<K>, items: seq<Item>, b: nat, f: Found, k: int) {
    && RunFound(items, b, f) && Ranges(items, v) && RunHas(items, b, f.end, k)
    && forall j :: Together(v, j, k) <==> RunHas(items, b, f.end, j)
  }

  lemma {:induction false} MemberInBlock(s: seq<EndpointRecord>, items: seq<Item>, b: nat, f: Found, k: int)
    requires Sorted(s, items) && RunFound(items, b, f) && RunHas(items, b, f.end, k)
    ensures InBlock(ViewOf(s), items, b, f, k)
  {
    var x :| b <= x < f.end && items[x].index == k;
    forall j
      ensures Together(ViewOf(s), j, k) <==> RunHas(items, b, f.end, j)
    {
      TogetherInRun(s, items, b, f, x, j);
    }
  }

  /** Of a run only the earliest endpoint survives. */
  lemma {:induction false} RunSurvivor<K>(v: View<K>, items: seq<Item>, b: nat, f: Found, k: int)
    requires InBlock(v, items, b, f, k)
    ensures Survives(v, k) <==> k == f.first
  {
    assert RunHas(items, b, f.end, f.first);
    assert Together(v, f.first, k);
    assert forall j :: RunHas(items, b, f.end, j) ==> f.first <= j;
  }

  ghost predicate Different(items: seq<Item>, b: nat, e: nat)
    requires b < e <= |items|
  {
    exists z :: b <= z < e && (items[z].lo != items[b].lo || items[z].hi != items[b].hi)
  }

  lemma {:induction false} RunAscending<K>(v: View<K>, items: seq<Item>, b: nat, f: Found, k: int)
    requires InBlock(v, items, b, f, k)
    ensures Ascending(v, k) <==> f.ascending && !f.descending
  {
    if f.ascending {
      var z :| b <= z < f.end && items[z].ascending;
      assert RunHas(items, b, f.end, items[z].index) && Together(v, items[z].index, k);
    }
    if f.descending {
      var z :| b <= z < f.end && Descending(items[z]);
      assert RunHas(items, b, f.end, items[z].index) && Together(v, items[z].index, k);
    }
  }

  lemma {:induction false} RunDiffers<K>(v: View<K>, items: seq<Item>, b: nat, f: Found, k: int)
    requires InBlock(v, items, b, f, k)
    ensures Differs(v, k) <==> Different(items, b, f.end)
  {
    assert RunHas(items, b, f.end, items[b].index) && Together(v, items[b].index, k);
    var x :| b <= x < f.end && items[x].index == k;
    if Different(items, b, f.end) {
      var z :| b <= z < f.end && (items[z].lo != items[b].lo || items[z].hi != items[b].hi);
      assert RunHas(items, b, f.end, items[z].index) && Together(v, items[z].index, k);
    }
    if Differs(v, k) {
      var j :| Together(v, j, k) && (v[j].value.lo != v[k].value.lo || v[j].value.hi != v[k].value.hi);
      assert RunHas(items, b, f.end, j);
    }
  }

  lemma {:induction false} SingleHas(items: seq<Item>, b: nat, f: Found, k: int)
    requires Scanned(items, b, f) && f.end == b + 1
    ensures RunHas(items, b, f.end, k) <==> k == f.first
  {
    assert items[b].index == f.first;
  }

  lemma {:induction false} SingleAlone<K>(v: View<K>, items: seq<Item>, b: nat, f: Found)
    requires InBlock(v, items, b, f, f.first) && f.end == b + 1
    ensures Alone(v, f.first)
  {
    forall j | Together(v, j, f.first)
      ensures j == f.first
    {
      SingleHas(items, b, f, j);
    }
  }

  /** A run of one leaves its endpoint as it is. */
  lemma {:induction false} SingleStands(s: seq<EndpointRecord>, items: seq<Item>, b: nat, f: Found)
    requires Sorted(s, items) && RunFound(items, b, f) && f.end == b + 1
    ensures f.first < |s| && Stands(s, f.first, s[f.first])
  {
    SingleHas(items, b, f, f.first);
    MemberInBlock(s, items, b, f, f.first);
    SingleAlone(ViewOf(s), items, b, f);
  }

  /** A longer run gives its block to its earliest endpoint. */
  lemma {:induction false} RunStands(s: seq<EndpointRecord>, items: seq<Item>, b: nat, f: Found)
    requires Sorted(s, items) && RunFound(items, b, f) && f.end - b >= 2
    ensures f.first < |s|
    ensures Stands(s, f.first, Joined(s[f.first], f.lo, f.hi, f.ascending && !f.descending, Different(items, b, f.end)))
  {
    var v := ViewOf(s);
    var x :| b <= x < f.end && items[x].index == f.first;
    var y := if x == b then b + 1 else b;
    assert RunHas(items, b, f.end, f.first) && RunHas(items, b, f.end, items[y].index);
    MemberInBlock(s, items, b, f, f.first);
    if items[y].index == f.first {
      SameIndexSameItem(s, items, x, y);
    }
    assert Together(v, items[y].index, f.first) && !Alone(v, f.first);
    RunIsBlock(items, v, b, f.end, f.lo, f.hi, x);
    RunAscending(v, items, b, f, f.first);
    RunDiffers(v, items, b, f, f.first);
  }

  // ---------------------------------------------------------------------------
  // All runs
  // ---------------------------------------------------------------------------

  /** The endpoint of an item among the first i: dropped, or standing for its block. */
  ghost predicate Settled(s: seq<EndpointRecord>, k: nat, e: EndpointRecord, dropped: bool)
    requires k < |s|
  {
    if dropped then !Survives(ViewOf(s), k) else Survives(ViewOf(s), k) && Stands(s, k, e)
  }

  /** The runs of the first i items are settled; other endpoints are untouched. */
  ghost predicate Processed(s: seq<EndpointRecord>, items: seq<Item>, i: nat, now: seq<EndpointRecord>,
                            dropped: seq<bool>) {
    && |now| == |dropped| == |s|
    && (forall k: nat :: k < |s| && RunHas(items, 0, i, k) ==> Settled(s, k, now[k], dropped[k]))
    && (forall k: nat :: k < |s| && !RunHas(items, 0, i, k) ==> !dropped[k] && now[k] == s[k])
  }

  lemma {:induction false} RunIsNew(s: seq<EndpointRecord>, items: seq<Item>, b: nat, f: Found, k: int)
    requires Sorted(s, items) && RunFound(items, b, f)
    ensures RunHas(items, 0, f.end, k) <==> RunHas(items, 0, b, k) || RunHas(items, b, f.end, k)
    ensures !(RunHas(items, 0, b, k) && RunHas(items, b, f.end, k))
  {
    if x :| 0 <= x < f.end && x < |items| && items[x].index == k {
      assert RunHas(items, 0, b, k) || RunHas(items, b, f.end, k);
    }
    forall x, y | 0 <= x < b <= y < f.end
      ensures items[x].index != items[y].index
    {
      if items[x].index == items[y].index {
        SameIndexSameItem(s, items, x, y);
      }
    }
  }

  /** The next run: its members other than the first are dropped, the first gets the block. */
  lemma {:induction false} RunProcessed(s: seq<EndpointRecord>, items: seq<Item>, b: nat, f: Found,
                                        now: seq<EndpointRecord>,
                                        dropped: seq<bool>, next: seq<EndpointRecord>, marked: seq<bool>)
    requires Sorted(s, items) && RunFound(items, b, f) && Processed(s, items, b, now, dropped) && f.first < |s|
    requires |next| == |marked| == |s| && Stands(s, f.first, next[f.first])
    requires forall k :: 0 <= k < |s| && k != f.first ==> next[k] == now[k]
    requires forall k :: 0 <= k < |s| ==> (marked[k] <==> dropped[k] || (k != f.first && RunHas(items, b, f.end, k)))
    ensures Processed(s, items, f.end, next, marked)
  {
    assert RunHas(items, b, f.end, f.first);
    forall k: nat | k < |s|
      ensures RunHas(items, 0, f.end, k) ==> Settled(s, k, next[k], marked[k])
      ensures !RunHas(items, 0, f.end, k) ==> !marked[k] && next[k] == s[k]
    {
      RunIsNew(s, items, b, f, k);
      if RunHas(items, b, f.end, k) {
        MemberInBlock(s, items, b, f, k);
        RunSurvivor(ViewOf(s), items, b, f, k);
      }
    }
  }

  /** After the last run every endpoint is settled. */
  lemma {:induction false} AllSettled(s: seq<EndpointRecord>, items: seq<Item>, now: seq<EndpointRecord>,
                                      dropped: seq<bool>, k: nat)
    requires Sorted(s, items) && Processed(s, items, |items|, now, dropped) && k < |s|
    ensures Settled(s, k, now[k], dropped[k])
  {
    if In(ViewOf(s), k) {
      assert HasIndex(items, k);
      assert RunHas(items, 0, |items|, k);
    }
  }

  method MarkRun(items: seq<Item>, b: nat, f: Found, dropped: seq<bool>) returns (marked: seq<bool>)
    requires RunFound(items, b, f) && forall x :: 0 <= x < |items| ==> items[x].index < |dropped|
    ensures |marked| == |dropped|
    ensures forall k :: 0 <= k < |dropped| ==>
              (marked[k] <==> dropped[k] || (k != f.first && RunHas(items, b, f.end, k)))
  {
    marked := dropped;
    for x := b to f.end
      invariant |marked| == |dropped|
      invariant forall k :: 0 <= k < |dropped| ==>
                  (marked[k] <==> dropped[k] || (k != f.first && RunHas(items, b, x, k)))
    {
      forall k
        ensures RunHas(items, b, x + 1, k) <==> RunHas(items, b, x, k) || items[x].index == k
      {
        HasNext(items, b, x, k);
      }
      if items[x].index != f.first {
        marked := marked[items[x].index := true];
      }
    }
  }

  lemma {:induction false} HasNext(items: seq<Item>, b: nat, x: nat, k: int)
    requires b <= x < |items|
    ensures RunHas(items, b, x + 1, k) <==> RunHas(items, b, x, k) || items[x].index == k
  {
    if RunHas(items, b, x, k) || items[x].index == k {
      var y :| b <= y < x + 1 && items[y].index == k;
    }
  }

  /** Some member of the run has other coordinates than the first in sort order. */
  method AnyDifferent(items: seq<Item>, b: nat, e: nat) returns (different: bool)
    requires b < e <= |items|
    ensures different <==> Different(items, b, e)
  {
    for x := b to e
      invariant forall z :: b <= z < x ==> items[z].lo == items[b].lo && items[z].hi == items[b].hi
    {
      if items[x].lo != items[b].lo || items[x].hi != items[b].hi {
        return true;
      }
    }
    different := false;
  }

  /** Joins every run into its earliest endpoint and marks the others. */
  method JoinRuns(a: array<EndpointRecord>, items: seq<Item>) returns (dropped: seq<bool>, any: bool)
    requires Sorted(a[..], items)
    modifies a
    ensures |dropped| == a.Length && Processed(old(a[..]), items, |items|, a[..], dropped)
    ensures !any ==> a[..] == old(a[..]) && forall k :: 0 <= k < a.Length ==> !dropped[k]
  {
    ghost var s := a[..];
    dropped := seq(a.Length, _ => false);
    any := false;
    var i := 0;
    while i < |items|
      invariant i <= |items| && Separated(items, i) && Processed(s, items, i, a[..], dropped)
      invariant !any ==> a[..] == s && forall k :: 0 <= k < a.Length ==> !dropped[k]
      decreases |items| - i
    {
      var f := ScanRun(items, i, ViewOf(s));
      ghost var now := a[..];
      if f.end - i < 2 {
        SingleStands(s, items, i, f);
        SingleProcessed(s, items, i, f, now, dropped);
      } else {
        RunStands(s, items, i, f);
        RunIsNew(s, items, i, f, f.first);
        assert RunHas(items, i, f.end, f.first) && a[f.first] == s[f.first];
        var marked := MarkRun(items, i, f, dropped);
        var different := AnyDifferent(items, i, f.end);
        a[f.first] := Joined(a[f.first], f.lo, f.hi, f.ascending && !f.descending, different);
        RunProcessed(s, items, i, f, now, dropped, a[..], marked);
        dropped, any := marked, true;
      }
      i := f.end;
    }
  }

  lemma {:induction false} SingleProcessed(s: seq<EndpointRecord>, items: seq<Item>, b: nat, f: Found,
                                           now: seq<EndpointRecord>, dropped: seq<bool>)
    requires Sorted(s, items) && RunFound(items, b, f) && f.end == b + 1 && Processed(s, items, b, now, dropped)
    ensures Processed(s, items, f.end, now, dropped)
  {
    SingleStands(s, items, b, f);
    RunIsNew(s, items, b, f, f.first);
    forall k
      ensures RunHas(items, b, f.end, k) <==> k == f.first
    {
      SingleHas(items, b, f, k);
    }
    RunProcessed(s, items, b, f, now, dropped, now, dropped);
  }

  /** What is not dropped of the first k, in order. */
  function Undropped<T>(now: seq<T>, dropped: seq<bool>, k: nat): seq<T>
    requires k <= |now| == |dropped|
  {
    if k == 0 then [] else Undropped(now, dropped, k - 1) + if dropped[k - 1] then [] else [now[k - 1]]
  }

  /** Moves what is not dropped to the front. */
  method MoveUndropped<T>(a: array<T>, dropped: seq<bool>) returns (out: nat)
    requires |dropped| == a.Length
    modifies a
    ensures out <= a.Length && a[..out] == Undropped(old(a[..]), dropped, a.Length)
  {
    ghost var now := a[..];
    out := 0;
    for k := 0 to a.Length
      invariant out <= k && a[..out] == Undropped(now, dropped, k)
      invariant forall m :: k <= m < a.Length ==> a[m] == now[m]
    {
      if !dropped[k] {
        if out != k {
          a[out] := a[k];
        }
        out := out + 1;
      }
    }
  }

  /** The survivors move to the front. */
  method CompactSurvivors(a: array<EndpointRecord>, dropped: seq<bool>, ghost s: seq<EndpointRecord>) returns (out: nat)
    requires |dropped| == a.Length == |s| && Decided(s, a[..], dropped)
    modifies a
    ensures out <= a.Length && MergedTo(s, a[..out])
  {
    UndroppedMerged(s, a[..], dropped);
    out := MoveUndropped(a, dropped);
  }

  ghost predicate Decided(s: seq<EndpointRecord>, now: seq<EndpointRecord>, dropped: seq<bool>)
    requires |now| == |dropped| == |s|
  {
    forall k :: 0 <= k < |s| ==> Settled(s, k, now[k], dropped[k])
  }

  function Positions(n: nat): seq<nat> {
    seq(n, i => i)
  }

  lemma {:induction false} SurvivorsUndropped<K>(v: View<K>, dropped: seq<bool>, k: nat)
    requires k <= |dropped| && forall m :: 0 <= m < |dropped| ==> (Survives(v, m) <==> !dropped[m])
    ensures Survivors(v, k) == Undropped(Positions(|dropped|), dropped, k)
  {
    if k > 0 {
      SurvivorsUndropped(v, dropped, k - 1);
    }
  }

  /** Undropped values and undropped positions go in step. */
  lemma {:induction false} UndroppedInStep<T>(now: seq<T>, dropped: seq<bool>, k: nat, i: nat) returns (m: nat)
    requires k <= |now| == |dropped| && i < |Undropped(now, dropped, k)|
    ensures |Undropped(Positions(|now|), dropped, k)| == |Undropped(now, dropped, k)|
    ensures m < k && !dropped[m]
    ensures Undropped(now, dropped, k)[i] == now[m] && Undropped(Positions(|now|), dropped, k)[i] == m
  {
    UndroppedCount(now, dropped, k - 1);
    if i < |Undropped(now, dropped, k - 1)| {
      m := UndroppedInStep(now, dropped, k - 1, i);
    } else {
      m := k - 1;
    }
  }

  lemma {:induction false} UndroppedCount<T>(now: seq<T>, dropped: seq<bool>, k: nat)
    requires k <= |now| == |dropped|
    ensures |Undropped(Positions(|now|), dropped, k)| == |Undropped(now, dropped, k)|
  {
    if k > 0 {
      UndroppedCount(now, dropped, k - 1);
    }
  }

  lemma {:induction false} UndroppedMerged(s: seq<EndpointRecord>, now: seq<EndpointRecord>, dropped: seq<bool>)
    requires |now| == |dropped| == |s| && Decided(s, now, dropped)
    ensures MergedTo(s, Undropped(now, dropped, |s|))
  {
    var v, t := ViewOf(s), Undropped(now, dropped, |s|);
    forall m | 0 <= m < |s|
      ensures Survives(v, m) <==> !dropped[m]
    {
      assert Settled(s, m, now[m], dropped[m]);
    }
    SurvivorsUndropped(v, dropped, |s|);
    UndroppedCount(now, dropped, |s|);
    forall i | 0 <= i < |t|
      ensures Stands(s, Survivors(v, |s|)[i], t[i])
    {
      var m := UndroppedInStep(now, dropped, |s|, i);
      assert Settled(s, m, now[m], dropped[m]);
    }
  }

  /** The whole pass: the merged endpoints are the first `out`. */
  method MergeEndpointBitRangesInPlace(a: array<EndpointRecord>) returns (out: nat)
    modifies a
    ensures out <= a.Length && MergedTo(old(a[..]), a[..out])
  {
    ghost var s := a[..];
    assert a[..a.Length] == s;
    if a.Length < 2 {
      FewAlone(s);
      return a.Length;
    }
    var items := CollectItems(a);
    var grouped, groups := AssignGroups(a, items);
    if |items| < 2 || groups == |items| {
      DistinctGroupsAlone(s, grouped);
      return a.Length;
    }
    SortedItems(grouped, ViewOf(s));
    var sorted := Sort(ItemLess, grouped);
    var dropped, any := JoinRuns(a, sorted);
    forall k: nat | k < a.Length
      ensures Settled(s, k, a[k], dropped[k])
    {
      AllSettled(s, sorted, a[..], dropped, k);
    }
    if !any {
      NoneDropped(s, dropped);
      return a.Length;
    }
    out := CompactSurvivors(a, dropped, s);
  }

  lemma {:induction false} FewAlone(s: seq<EndpointRecord>)
    requires |s| < 2
    ensures MergedTo(s, s)
  {
    AllAloneMerged(s, s);
  }

  lemma {:induction false} NoneDropped(s: seq<EndpointRecord>, dropped: seq<bool>)
    requires |dropped| == |s| && forall k :: 0 <= k < |s| ==> !dropped[k] && Settled(s, k, s[k], dropped[k])
    ensures MergedTo(s, s)
  {
    SurvivorsAll(ViewOf(s), |s|);
  }

  lemma {:induction false} SurvivorsAll<K>(v: View<K>, n: nat)
    requires forall k :: 0 <= k < n ==> Survives(v, k)
    ensures Survivors(v, n) == seq(n, k => k)
  {
    if n > 0 {
      SurvivorsAll(v, n - 1);
    }
  }
}
