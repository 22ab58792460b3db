/** Splitting the hierarchy into partitions under a signal budget, and sorting signals into them. */
module Partitions {
  import opened Sorting
  import opened Names
  import opened Hierarchy

  datatype Partition = Partition(root: string, count: nat, depth: nat)

  /** Instances and their children. */
  type Tree = map<string, seq<string>>

  predicate DistinctNames(names: seq<string>) {
    forall i, j :: 0 <= i < j < |names| ==> names[i] != names[j]
  }

  /** The children of an instance are the instances whose parent it is, once each. */
  ghost predicate WellFormed(tree: Tree) {
    forall node :: node in tree ==>
      && DistinctNames(tree[node])
      && forall c :: c in tree[node] <==> node != "" && c in tree && ParentPath(c) == node
  }

  /** The children that hold signals. */
  function Active(counts: map<string, nat>, children: seq<string>): (out: seq<string>)
    ensures forall c :: c in out <==> c in children && CountOf(counts, c) > 0
    ensures DistinctNames(children) ==> DistinctNames(out)
  {
    if children == [] then []
    else
      var n := |children| - 1;
      assert children == children[..n] + [children[n]];
      Active(counts, children[..n]) + if CountOf(counts, children[n]) > 0 then [children[n]] else []
  }

  function ActiveChildren(tree: Tree, counts: map<string, nat>, node: string): seq<string> {
    if node in tree then Active(counts, tree[node]) else []
  }

  function Covered(counts: map<string, nat>, children: seq<string>): nat {
    if children == [] then 0
    else Covered(counts, children[..|children| - 1]) + CountOf(counts, children[|children| - 1])
  }

  // ---------------------------------------------------------------------------
  // Termination: paths get longer
  // ---------------------------------------------------------------------------

  ghost function Longer(tree: Tree, node: string): set<string> {
    set k | k in tree && |k| > |node|
  }

  lemma {:induction false} ChildDeeper(tree: Tree, node: string, c: string)
    requires c in tree && ParentPath(c) == node && node != ""
    ensures |Longer(tree, c)| < |Longer(tree, node)|
  {
    assert c != "";
    assert Longer(tree, node) == (Longer(tree, node) - Longer(tree, c)) + Longer(tree, c);
    assert c in Longer(tree, node) - Longer(tree, c);
  }

  // ---------------------------------------------------------------------------
  // The plan
  // ---------------------------------------------------------------------------

  ghost predicate ChildrenOf(tree: Tree, children: seq<string>, parent: string) {
    DistinctNames(children) && forall c :: c in children ==> c in tree && c != "" && ParentPath(c) == parent
  }

  ghost predicate Within(tree: Tree, children: seq<string>, bound: nat) {
    forall c :: c in children ==> |Longer(tree, c)| < bound
  }

  lemma {:induction false} ActiveWithin(tree: Tree, counts: map<string, nat>, node: string)
    requires WellFormed(tree)
    ensures ChildrenOf(tree, ActiveChildren(tree, counts, node), node)
    ensures Within(tree, ActiveChildren(tree, counts, node), |Longer(tree, node)|)
  {
    forall c | c in ActiveChildren(tree, counts, node)
      ensures |Longer(tree, c)| < |Longer(tree, node)|
    {
      ChildDeeper(tree, node, c);
    }
  }

  /** The partitions of one instance. */
  ghost function Plan(tree: Tree, counts: map<string, nat>, budget: nat, node: string, depth: nat): seq<Partition>
    requires WellFormed(tree)
    decreases |Longer(tree, node)|, 1, 0
  {
    var count := CountOf(counts, node);
    if count == 0 then []
    else
      var active := ActiveChildren(tree, counts, node);
      ActiveWithin(tree, counts, node);
      if count <= budget || active == [] then [Partition(node, count, depth)]
      else
        PlanAll(tree, counts, budget, active, depth + 1, |Longer(tree, node)|) +
        Remainder(node, count, Covered(counts, active), depth)
  }

  ghost function PlanAll(tree: Tree, counts: map<string, nat>, budget: nat, children: seq<string>, depth: nat,
                         bound: nat): seq<Partition>
    requires WellFormed(tree) && Within(tree, children, bound)
    decreases bound, 0, |children|
  {
    if children == [] then []
    else
      var n := |children| - 1;
      PlanAll(tree, counts, budget, children[..n], depth, bound) + Plan(tree, counts, budget, children[n], depth)
  }

  ghost predicate Splits(tree: Tree, counts: map<string, nat>, budget: nat, node: string) {
    CountOf(counts, node) > budget && CountOf(counts, node) > 0 && ActiveChildren(tree, counts, node) != []
  }

  function Remainder(node: string, count: nat, covered: nat, depth: nat): seq<Partition> {
    if count > covered then [Partition(node, count - covered, depth)] else []
  }

  lemma {:induction false} PlanSplits(tree: Tree, counts: map<string, nat>, budget: nat, node: string, depth: nat)
    requires WellFormed(tree) && Splits(tree, counts, budget, node)
    ensures var active, bound := ActiveChildren(tree, counts, node), |Longer(tree, node)|;
            && Within(tree, active, bound)
            && Plan(tree, counts, budget, node, depth) ==
               PlanAll(tree, counts, budget, active, depth + 1, bound) +
               Remainder(node, CountOf(counts, node), Covered(counts, active), depth)
  {
    ActiveWithin(tree, counts, node);
  }

  lemma {:induction false} PlanWhole(tree: Tree, counts: map<string, nat>, budget: nat, node: string, depth: nat)
    requires WellFormed(tree) && !Splits(tree, counts, budget, node)
    ensures Plan(tree, counts, budget, node, depth) ==
            if CountOf(counts, node) == 0 then [] else [Partition(node, CountOf(counts, node), depth)]
  {}

  /** The plans of the first i children, and what they hold. */
  ghost predicate Planned(tree: Tree, counts: map<string, nat>, budget: nat, children: seq<string>, i: nat,
                          depth: nat, bound: nat,
                          planned: seq<Partition>, covered: nat)
    requires WellFormed(tree) && Within(tree, children, bound) && i <= |children|
  {
    && Within(tree, children[..i], bound)
    && covered == Covered(counts, children[..i])
    && planned == PlanAll(tree, counts, budget, children[..i], depth, bound)
  }

  lemma {:induction false} PlannedNext(tree: Tree, counts: map<string, nat>, budget: nat, children: seq<string>,
                                       i: nat, depth: nat,
                                       bound: nat, planned: seq<Partition>, covered: nat)
    requires WellFormed(tree) && Within(tree, children, bound) && i < |children|
    requires Planned(tree, counts, budget, children, i, depth, bound, planned, covered)
    ensures |Longer(tree, children[i])| < bound
    ensures Planned(tree, counts, budget, children, i + 1, depth, bound,
                    planned + Plan(tree, counts, budget, children[i], depth), covered + CountOf(counts, children[i]))
  {
    assert children[..i + 1][..i] == children[..i];
    assert children[i] in children;
  }

  lemma {:induction false} PlannedAll(tree: Tree, counts: map<string, nat>, budget: nat, children: seq<string>,
                                      depth: nat,
                                      bound: nat, planned: seq<Partition>, covered: nat)
    requires WellFormed(tree) && Within(tree, children, bound)
    requires Planned(tree, counts, budget, children, |children|, depth, bound, planned, covered)
    ensures covered == Covered(counts, children) && planned == PlanAll(tree, counts, budget, children, depth, bound)
  {
    assert children[..|children|] == children;
  }

  /** Collects partitions while it recurses. */
  class Planner {
    const tree: Tree
    const counts: map<string, nat>
    const budget: nat
    var out: seq<Partition>

    constructor (tree: Tree, counts: map<string, nat>, budget: nat)
      ensures this.tree == tree && this.counts == counts && this.budget == budget && out == []
    {
      this.tree, this.counts, this.budget, out := tree, counts, budget, [];
    }

    method Split(node: string, depth: nat)
      requires WellFormed(tree)
      modifies this
      ensures out == old(out) + Plan(tree, counts, budget, node, depth)
      decreases |Longer(tree, node)|, 1
    {
      var count := CountOf(counts, node);
      var active := ActiveChildren(tree, counts, node);
      if count == 0 || count <= budget || active == [] {
        PlanWhole(tree, counts, budget, node, depth);
        if count > 0 {
          out := out + [Partition(node, count, depth)];
        }
        return;
      }
      PlanSplits(tree, counts, budget, node, depth);
      var covered := SplitAll(active, depth + 1, |Longer(tree, node)|);
      if count > covered {
        out := out + [Partition(node, count - covered, depth)];
      }
    }

    /** Splits the children in turn and adds up what they hold. */
    method SplitAll(children: seq<string>, depth: nat, ghost bound: nat) returns (covered: nat)
      requires WellFormed(tree) && Within(tree, children, bound)
      modifies this
      ensures covered == Covered(counts, children)
      ensures out == old(out) + PlanAll(tree, counts, budget, children, depth, bound)
      decreases bound, 0
    {
      covered := 0;
      ghost var planned: seq<Partition> := [];
      for i := 0 to |children|
        invariant Planned(tree, counts, budget, children, i, depth, bound, planned, covered)
        invariant out == old(out) + planned
      {
        PlannedNext(tree, counts, budget, children, i, depth, bound, planned, covered);
        covered := covered + CountOf(counts, children[i]);
        planned := planned + Plan(tree, counts, budget, children[i], depth);
        Split(children[i], depth);
      }
      PlannedAll(tree, counts, budget, children, depth, bound, planned, covered);
    }
  }

  // ---------------------------------------------------------------------------
  // Which partition a signal belongs to
  // ---------------------------------------------------------------------------

  /** The partition with the longest root that contains the signal. */
  ghost predicate Chooses(parts: seq<Partition>, sig: string, p: Partition) {
    && p in parts && p.root in Ancestors(sig)
    && forall d :: d in parts && d.root in Ancestors(sig) ==> |d.root| <= |p.root|
  }

  ghost function Chosen(parts: seq<Partition>, p: Partition): string -> bool {
    (sig: string) => Chooses(parts, sig, p)
  }

  ghost predicate Contains(parts: seq<Partition>, sig: string) {
    exists p :: p in parts && p.root in Ancestors(sig)
  }

  predicate InAny(tops: seq<string>, sig: string) {
    exists c :: c in tops && c in Ancestors(sig)
  }

  /** The signals in any of several instances. */
  ghost function Area(tops: seq<string>): string -> bool {
    (sig: string) => InAny(tops, sig)
  }

  /** Different instances with the same parent. */
  predicate Siblings(tops: seq<string>) {
    DistinctNames(tops) && forall c, d :: c in tops && d in tops ==> ParentPath(c) == ParentPath(d)
  }

  predicate AtOrBelow(tops: seq<string>, root: string) {
    exists c :: c in tops && (root == c || c in Ancestors(root))
  }

  predicate DistinctRoots(parts: seq<Partition>) {
    forall i, j :: 0 <= i < j < |parts| ==> parts[i].root != parts[j].root
  }

  function SumCounts(parts: seq<Partition>): nat {
    if parts == [] then 0 else SumCounts(parts[..|parts| - 1]) + parts[|parts| - 1].count
  }

  lemma {:induction false} SumCountsAdd(a: seq<Partition>, b: seq<Partition>)
    ensures SumCounts(a + b) == SumCounts(a) + SumCounts(b)
  {
    if b == [] {
      assert a + b == a;
    } else {
      assert (a + b)[..|a + b| - 1] == a + b[..|b| - 1];
      SumCountsAdd(a, b[..|b| - 1]);
    }
  }

  /** Every planned count is the number of signals that choose the partition. */
  ghost predicate Sized(paths: seq<string>, parts: seq<Partition>) {
    forall p :: p in parts ==> p.count == Tally(paths, Chosen(parts, p))
  }

  /** The partitions divide the signals in the area of some sibling instances. */
  ghost predicate Divides(paths: seq<string>, parts: seq<Partition>, tops: seq<string>) {
    && DistinctRoots(parts)
    && (forall p :: p in parts ==> AtOrBelow(tops, p.root))
    && (forall sig :: sig in paths && InAny(tops, sig) ==> Contains(parts, sig))
    && Sized(paths, parts)
    && SumCounts(parts) == Tally(paths, Area(tops))
  }

  /** A signal in a partition is in the area. */
  lemma {:induction false} PartInArea(tops: seq<string>, root: string, sig: string)
    requires AtOrBelow(tops, root) && root in Ancestors(sig)
    ensures InAny(tops, sig)
  {
    var c :| c in tops && (root == c || c in Ancestors(root));
    if root != c {
      AncestorTransitive(sig, root, c);
    }
  }

  lemma {:induction false} SiblingsDiffer(a: seq<string>, b: seq<string>, c: string, d: string)
    requires Siblings(a + b) && c in a && d in b
    ensures c != d && ParentPath(c) == ParentPath(d)
  {
    assert c in a + b && d in a + b;
    var i :| 0 <= i < |a| && a[i] == c;
    var j :| 0 <= j < |b| && b[j] == d;
    assert (a + b)[i] == c && (a + b)[|a| + j] == d;
  }

  /** Areas of different siblings do not meet. */
  lemma {:induction false} AreasApart(a: seq<string>, b: seq<string>, sig: string)
    requires Siblings(a + b)
    ensures !(InAny(a, sig) && InAny(b, sig))
  {
    if InAny(a, sig) && InAny(b, sig) {
      var c :| c in a && c in Ancestors(sig);
      var d :| d in b && d in Ancestors(sig);
      SiblingsDiffer(a, b, c, d);
      OneChild(sig, c, d);
    }
  }

  /** No root lies in both. */
  lemma {:induction false} RootsApart(a: seq<string>, b: seq<string>, root: string)
    requires Siblings(a + b)
    ensures !(AtOrBelow(a, root) && AtOrBelow(b, root))
  {
    if AtOrBelow(a, root) && AtOrBelow(b, root) {
      var c :| c in a && (root == c || c in Ancestors(root));
      var d :| d in b && (root == d || d in Ancestors(root));
      SiblingsDiffer(a, b, c, d);
      NotBelowSibling(c, d);
      NotBelowSibling(d, c);
      if c in Ancestors(root) && d in Ancestors(root) {
        OneChild(root, c, d);
      }
    }
  }

  lemma {:induction false} ChoiceInJoin(a: seq<Partition>, b: seq<Partition>, sig: string, p: Partition)
    requires p in a
    requires p.root in Ancestors(sig) ==> forall d :: d in b && d.root in Ancestors(sig) ==> |d.root| <= |p.root|
    ensures Chooses(a + b, sig, p) == Chooses(a, sig, p)
    ensures Chooses(b + a, sig, p) == Chooses(a, sig, p)
  {}

  lemma {:induction false} JoinSized(paths: seq<string>, a: seq<Partition>, atops: seq<string>, b: seq<Partition>,
                                     btops: seq<string>)
    requires Divides(paths, a, atops) && Divides(paths, b, btops) && Siblings(atops + btops)
    ensures Sized(paths, a + b)
  {
    forall p | p in a + b
      ensures p.count == Tally(paths, Chosen(a + b, p))
    {
      forall sig
        ensures p in a ==> Chooses(a + b, sig, p) == Chooses(a, sig, p)
        ensures p in b ==> Chooses(a + b, sig, p) == Chooses(b, sig, p)
      {
        AreasApart(atops, btops, sig);
        forall d | d in a && d.root in Ancestors(sig)
          ensures InAny(atops, sig)
        {
          PartInArea(atops, d.root, sig);
        }
        forall e | e in b && e.root in Ancestors(sig)
          ensures InAny(btops, sig)
        {
          PartInArea(btops, e.root, sig);
        }
        if p in a {
          ChoiceInJoin(a, b, sig, p);
        }
        if p in b {
          ChoiceInJoin(b, a, sig, p);
        }
      }
      if p in a {
        TallySame(paths, Chosen(a + b, p), Chosen(a, p));
      } else {
        TallySame(paths, Chosen(a + b, p), Chosen(b, p));
      }
    }
  }

  lemma {:induction false} JoinTally(paths: seq<string>, atops: seq<string>, btops: seq<string>)
    requires Siblings(atops + btops)
    ensures Tally(paths, Area(atops + btops)) == Tally(paths, Area(atops)) + Tally(paths, Area(btops))
    ensures forall sig :: InAny(atops + btops, sig) <==> InAny(atops, sig) || InAny(btops, sig)
  {
    forall sig
      ensures !(InAny(atops, sig) && InAny(btops, sig))
      ensures InAny(atops + btops, sig) <==> InAny(atops, sig) || InAny(btops, sig)
    {
      AreasApart(atops, btops, sig);
    }
    TallyAdds(paths, Area(atops), Area(btops), Area(atops + btops));
  }

  lemma {:induction false} JoinRoots(a: seq<Partition>, atops: seq<string>, b: seq<Partition>, btops: seq<string>)
    requires Siblings(atops + btops) && DistinctRoots(a) && DistinctRoots(b)
    requires forall p :: p in a ==> AtOrBelow(atops, p.root)
    requires forall p :: p in b ==> AtOrBelow(btops, p.root)
    ensures DistinctRoots(a + b) && forall p :: p in a + b ==> AtOrBelow(atops + btops, p.root)
  {
    forall i, j | 0 <= i < |a| && 0 <= j < |b|
      ensures a[i].root != b[j].root
    {
      RootsApart(atops, btops, a[i].root);
    }
    forall root | AtOrBelow(atops, root) || AtOrBelow(btops, root)
      ensures AtOrBelow(atops + btops, root)
    {
      if c :| c in atops && (root == c || c in Ancestors(root)) {
        assert c in atops + btops;
      } else {
        var c :| c in btops && (root == c || c in Ancestors(root));
        assert c in atops + btops;
      }
    }
  }

  lemma {:induction false} JoinContains(a: seq<Partition>, b: seq<Partition>, sig: string)
    requires Contains(a, sig) || Contains(b, sig)
    ensures Contains(a + b, sig)
  {
    if p :| p in a && p.root in Ancestors(sig) {
      assert p in a + b;
    } else {
      var p :| p in b && p.root in Ancestors(sig);
      assert p in a + b;
    }
  }

  /** Plans of different siblings put together. */
  lemma {:induction false} JoinDivides(paths: seq<string>, a: seq<Partition>, atops: seq<string>, b: seq<Partition>,
                                       btops: seq<string>)
    requires Divides(paths, a, atops) && Divides(paths, b, btops) && Siblings(atops + btops)
    ensures Divides(paths, a + b, atops + btops)
  {
    JoinSized(paths, a, atops, b, btops);
    JoinRoots(a, atops, b, btops);
    JoinTally(paths, atops, btops);
    SumCountsAdd(a, b);
    forall sig | sig in paths && InAny(atops + btops, sig)
      ensures Contains(a + b, sig)
    {
      JoinContains(a, b, sig);
    }
  }

  // ---------------------------------------------------------------------------
  // One instance
  // ---------------------------------------------------------------------------

  lemma {:induction false} AreaOfOne(paths: seq<string>, node: string)
    ensures forall sig :: InAny([node], sig) <==> node in Ancestors(sig)
    ensures Tally(paths, Area([node])) == Count(paths, node)
  {
    TallySame(paths, Area([node]), Below(node));
  }

  /** An instance kept whole, or one without signals. */
  lemma {:induction false} WholeDivides(paths: seq<string>, node: string, depth: nat)
    ensures var parts := if Count(paths, node) == 0 then [] else [Partition(node, Count(paths, node), depth)];
            Divides(paths, parts, [node])
  {
    var parts := if Count(paths, node) == 0 then [] else [Partition(node, Count(paths, node), depth)];
    AreaOfOne(paths, node);
    TallyNone(paths, Below(node));
    if parts != [] {
      var p := parts[0];
      TallySame(paths, Chosen(parts, p), Below(node));
      assert SumCounts(parts) == p.count;
      forall sig | node in Ancestors(sig)
        ensures Contains(parts, sig)
      {
        assert p in parts;
      }
    }
  }

  /** Signals of an instance outside its planned children. */
  ghost function Outside(node: string, tops: seq<string>): string -> bool {
    (sig: string) => node in Ancestors(sig) && !InAny(tops, sig)
  }

  lemma {:induction false} OutsideTally(paths: seq<string>, node: string, tops: seq<string>)
    requires node != "" && forall c :: c in tops ==> ParentPath(c) == node
    ensures forall sig :: InAny(tops, sig) ==> node in Ancestors(sig)
    ensures Count(paths, node) == Tally(paths, Area(tops)) + Tally(paths, Outside(node, tops))
  {
    forall sig | InAny(tops, sig)
      ensures node in Ancestors(sig)
    {
      var c :| c in tops && c in Ancestors(sig);
      ParentIsAncestor(sig, c);
    }
    TallyAdds(paths, Area(tops), Outside(node, tops), Below(node));
  }

  /** The remainder of a split is chosen by exactly the signals outside the children. */
  lemma {:induction false} RestChosen(paths: seq<string>, parts: seq<Partition>, tops: seq<string>, node: string,
                                      rest: Partition, sig: string)
    requires Divides(paths, parts, tops) && node != "" && rest.root == node && sig in paths
    requires forall c :: c in tops ==> ParentPath(c) == node
    ensures Chooses(parts + [rest], sig, rest) <==> Outside(node, tops)(sig)
    ensures forall p :: p in parts ==> p != rest && Chooses(parts + [rest], sig, p) == Chooses(parts, sig, p)
  {
    forall p | p in parts
      ensures |node| < |p.root| && (p.root in Ancestors(sig) ==> InAny(tops, sig))
    {
      BelowLonger(tops, node, p.root);
      if p.root in Ancestors(sig) {
        PartInArea(tops, p.root, sig);
      }
    }
    forall p | p in parts
      ensures Chooses(parts + [rest], sig, p) == Chooses(parts, sig, p)
    {
      ChoiceInJoin(parts, [rest], sig, p);
    }
    if InAny(tops, sig) {
      var p :| p in parts && p.root in Ancestors(sig);
      assert p in parts + [rest];
    }
    assert rest in parts + [rest];
  }

  lemma {:induction false} BelowLonger(tops: seq<string>, node: string, root: string)
    requires node != "" && AtOrBelow(tops, root) && forall c :: c in tops ==> ParentPath(c) == node
    ensures |node| < |root|
  {
    var c :| c in tops && (root == c || c in Ancestors(root));
    assert c != "";
    if root != c {
      AncestorShorter(root, c);
    }
  }

  lemma {:induction false} RestSized(paths: seq<string>, parts: seq<Partition>, tops: seq<string>, node: string,
                                     rest: Partition)
    requires Divides(paths, parts, tops) && node != "" && rest.root == node
    requires forall c :: c in tops ==> ParentPath(c) == node
    requires rest.count == Tally(paths, Outside(node, tops))
    ensures Sized(paths, parts + [rest])
  {
    forall sig | sig in paths
      ensures Chooses(parts + [rest], sig, rest) <==> Outside(node, tops)(sig)
      ensures forall p :: p in parts ==> p != rest && Chooses(parts + [rest], sig, p) == Chooses(parts, sig, p)
    {
      RestChosen(paths, parts, tops, node, rest, sig);
    }
    forall p | p in parts + [rest]
      ensures p.count == Tally(paths, Chosen(parts + [rest], p))
    {
      if p in parts {
        TallySame(paths, Chosen(parts + [rest], p), Chosen(parts, p));
      } else {
        TallySame(paths, Chosen(parts + [rest], p), Outside(node, tops));
      }
    }
  }

  lemma {:induction false} LiftRoots(parts: seq<Partition>, tops: seq<string>, node: string)
    requires node != "" && forall c :: c in tops ==> ParentPath(c) == node
    requires forall p :: p in parts ==> AtOrBelow(tops, p.root)
    ensures forall p :: p in parts ==> AtOrBelow([node], p.root) && p.root != node
  {
    forall p | p in parts
      ensures AtOrBelow([node], p.root) && p.root != node
    {
      BelowLonger(tops, node, p.root);
      var c :| c in tops && (p.root == c || c in Ancestors(p.root));
      if p.root != c {
        ParentIsAncestor(p.root, c);
      }
      assert node in [node] && node in Ancestors(p.root);
    }
  }

  /** A split instance whose children hold all its signals. */
  lemma {:induction false} CoveredDivides(paths: seq<string>, parts: seq<Partition>, tops: seq<string>, node: string)
    requires Divides(paths, parts, tops) && node != "" && forall c :: c in tops ==> ParentPath(c) == node
    requires Tally(paths, Outside(node, tops)) == 0
    ensures Divides(paths, parts, [node])
  {
    AreaOfOne(paths, node);
    OutsideTally(paths, node, tops);
    LiftRoots(parts, tops, node);
    TallyNone(paths, Outside(node, tops));
    forall sig | sig in paths && node in Ancestors(sig)
      ensures Contains(parts, sig)
    {
      assert !Outside(node, tops)(sig);
    }
  }

  /** A split instance with signals outside its children. */
  lemma {:induction false} RestDivides(paths: seq<string>, parts: seq<Partition>, tops: seq<string>, node: string,
                                       rest: Partition)
    requires Divides(paths, parts, tops) && node != "" && forall c :: c in tops ==> ParentPath(c) == node
    requires rest.root == node && rest.count == Tally(paths, Outside(node, tops))
    ensures Divides(paths, parts + [rest], [node])
  {
    AreaOfOne(paths, node);
    OutsideTally(paths, node, tops);
    LiftRoots(parts, tops, node);
    RestSized(paths, parts, tops, node, rest);
    assert (parts + [rest])[..|parts|] == parts;
    forall sig | sig in paths && node in Ancestors(sig)
      ensures Contains(parts + [rest], sig)
    {
      assert rest in parts + [rest];
    }
  }

  // ---------------------------------------------------------------------------
  // The whole plan
  // ---------------------------------------------------------------------------

  lemma {:induction false} CoveredIsTally(counts: map<string, nat>, paths: seq<string>, children: seq<string>)
    requires Counts(counts, paths) && Siblings(children)
    ensures Covered(counts, children) == Tally(paths, Area(children))
  {
    if children == [] {
      TallyNone(paths, Area(children));
    } else {
      var n := |children| - 1;
      assert children == children[..n] + [children[n]];
      CoveredIsTally(counts, paths, children[..n]);
      JoinTally(paths, children[..n], [children[n]]);
      AreaOfOne(paths, children[n]);
    }
  }

  lemma {:induction false} RemainderDivides(paths: seq<string>, parts: seq<Partition>, tops: seq<string>, node: string,
                                            count: nat, covered: nat, depth: nat)
    requires Divides(paths, parts, tops) && node != "" && forall c :: c in tops ==> ParentPath(c) == node
    requires count == Count(paths, node) && covered == Tally(paths, Area(tops))
    ensures Divides(paths, parts + Remainder(node, count, covered, depth), [node])
  {
    OutsideTally(paths, node, tops);
    assert Remainder(node, count, covered, depth) ==
           if count > covered then [Partition(node, count - covered, depth)] else [];
    if count > covered {
      RestDivides(paths, parts, tops, node, Partition(node, count - covered, depth));
    } else {
      CoveredDivides(paths, parts, tops, node);
      assert parts + [] == parts;
    }
  }

  /** The partitions of an instance divide its signals. */
  lemma {:induction false} PlanDivides(tree: Tree, counts: map<string, nat>, budget: nat, node: string, depth: nat,
                                       paths: seq<string>)
    requires WellFormed(tree) && Counts(counts, paths)
    ensures Divides(paths, Plan(tree, counts, budget, node, depth), [node])
    decreases |Longer(tree, node)|, 1, 0
  {
    if Splits(tree, counts, budget, node) {
      var active, bound := ActiveChildren(tree, counts, node), |Longer(tree, node)|;
      PlanSplits(tree, counts, budget, node, depth);
      ActiveWithin(tree, counts, node);
      PlanAllDivides(tree, counts, budget, active, depth + 1, bound, paths);
      CoveredIsTally(counts, paths, active);
      CountedNotEmpty(paths, node);
      RemainderDivides(paths, PlanAll(tree, counts, budget, active, depth + 1, bound), active, node,
                       CountOf(counts, node), Covered(counts, active), depth);
    } else {
      PlanWhole(tree, counts, budget, node, depth);
      WholeDivides(paths, node, depth);
    }
  }

  lemma {:induction false} CountedNotEmpty(paths: seq<string>, node: string)
    requires Count(paths, node) > 0
    ensures node != ""
  {
    TallyNone(paths, Below(node));
    var sig :| sig in paths && node in Ancestors(sig);
    AncestorShorter(sig, node);
  }

  lemma {:induction false} PlanAllDivides(tree: Tree, counts: map<string, nat>, budget: nat, children: seq<string>,
                                          depth: nat, bound: nat,
                                          paths: seq<string>)
    requires WellFormed(tree) && Within(tree, children, bound) && Siblings(children) && Counts(counts, paths)
    ensures Divides(paths, PlanAll(tree, counts, budget, children, depth, bound), children)
    decreases bound, 0, |children|
  {
    if children == [] {
      TallyNone(paths, Area(children));
    } else {
      var n := |children| - 1;
      assert children == children[..n] + [children[n]];
      PlanAllDivides(tree, counts, budget, children[..n], depth, bound, paths);
      PlanDivides(tree, counts, budget, children[n], depth, paths);
      JoinDivides(paths, PlanAll(tree, counts, budget, children[..n], depth, bound), children[..n],
                  Plan(tree, counts, budget, children[n], depth), [children[n]]);
    }
  }

  /** A partition is an instance that was not split, or the remainder of one that was. */
  ghost predicate Explained(tree: Tree, counts: map<string, nat>, budget: nat, p: Partition) {
    var active := ActiveChildren(tree, counts, p.root);
    if Splits(tree, counts, budget, p.root)
    then CountOf(counts, p.root) > Covered(counts, active) &&
      p.count == CountOf(counts, p.root) - Covered(counts, active)
    else p.count == CountOf(counts, p.root) && (p.count > budget ==> active == [])
  }

  lemma {:induction false} PlanExplained(tree: Tree, counts: map<string, nat>, budget: nat, node: string, depth: nat)
    requires WellFormed(tree)
    ensures forall p :: p in Plan(tree, counts, budget, node, depth) ==>
              p.count > 0 && Explained(tree, counts, budget, p)
    decreases |Longer(tree, node)|, 1, 0
  {
    if Splits(tree, counts, budget, node) {
      PlanSplits(tree, counts, budget, node, depth);
      PlanAllExplained(tree, counts, budget, ActiveChildren(tree, counts, node), depth + 1, |Longer(tree, node)|);
    } else {
      PlanWhole(tree, counts, budget, node, depth);
    }
  }

  lemma {:induction false} PlanAllExplained(tree: Tree, counts: map<string, nat>, budget: nat, children: seq<string>,
                                            depth: nat, bound: nat)
    requires WellFormed(tree) && Within(tree, children, bound)
    ensures forall p :: p in PlanAll(tree, counts, budget, children, depth, bound) ==>
              p.count > 0 && Explained(tree, counts, budget, p)
    decreases bound, 0, |children|
  {
    if children != [] {
      var n := |children| - 1;
      assert children[n] in children;
      PlanAllExplained(tree, counts, budget, children[..n], depth, bound);
      PlanExplained(tree, counts, budget, children[n], depth);
    }
  }

  /**
   A partition `p` of the plan of an instance: its depth grows by one per level, and every instance
   above its root, down from the planned one, holds more signals than the budget.
   */
  ghost predicate Placed(counts: map<string, nat>, budget: nat, above: seq<string>, depth: nat, p: Partition) {
    && p.depth + |above| == depth + |Ancestors(p.root)|
    && forall a :: a in Ancestors(p.root) && a !in above ==> CountOf(counts, a) > budget
  }

  lemma {:induction false} PlanPlaced(tree: Tree, counts: map<string, nat>, budget: nat, node: string, depth: nat,
                                      p: Partition)
    requires WellFormed(tree) && p in Plan(tree, counts, budget, node, depth)
    ensures Placed(counts, budget, Ancestors(node), depth, p)
    decreases |Longer(tree, node)|, 1, 0
  {
    if p.root == node && p.depth == depth {
      TopPlaced(counts, budget, node, depth, p);
    } else {
      InSplit(tree, counts, budget, node, depth, p);
      var c := PlanAllPlaced(tree, counts, budget, ActiveChildren(tree, counts, node), depth +
                             1, |Longer(tree, node)|, p);
      ActiveIsChild(tree, counts, node, c);
      ChildPlaced(counts, budget, node, c, depth, p);
    }
  }

  lemma {:induction false} TopPlaced(counts: map<string, nat>, budget: nat, node: string, depth: nat, p: Partition)
    requires p.root == node && p.depth == depth
    ensures Placed(counts, budget, Ancestors(node), depth, p)
  {}

  /** What is not the instance itself comes from its children, and only if it is split. */
  lemma {:induction false} InSplit(tree: Tree, counts: map<string, nat>, budget: nat, node: string, depth: nat,
                                   p: Partition)
    requires WellFormed(tree) && p in Plan(tree, counts, budget, node, depth) && (p.root != node || p.depth != depth)
    ensures Within(tree, ActiveChildren(tree, counts, node), |Longer(tree, node)|)
    ensures p in PlanAll(tree, counts, budget, ActiveChildren(tree, counts, node), depth + 1, |Longer(tree, node)|)
    ensures CountOf(counts, node) > budget
  {
    if Splits(tree, counts, budget, node) {
      PlanSplits(tree, counts, budget, node, depth);
    } else {
      PlanWhole(tree, counts, budget, node, depth);
    }
  }

  lemma {:induction false} ActiveIsChild(tree: Tree, counts: map<string, nat>, node: string, c: string)
    requires WellFormed(tree) && c in ActiveChildren(tree, counts, node)
    ensures node != "" && ParentPath(c) == node
  {}

  lemma {:induction false} ChildPlaced(counts: map<string, nat>, budget: nat, node: string, c: string, depth: nat,
                                       p: Partition)
    requires node != "" && ParentPath(c) == node && CountOf(counts, node) > budget
    requires Placed(counts, budget, Ancestors(c), depth + 1, p)
    ensures Placed(counts, budget, Ancestors(node), depth, p)
  {
    assert Ancestors(c) == [node] + Ancestors(node);
  }

  lemma {:induction false} PlanAllPlaced(tree: Tree, counts: map<string, nat>, budget: nat, children: seq<string>,
                                         depth: nat, bound: nat, p: Partition) returns (c: string)
    requires WellFormed(tree) && Within(tree, children, bound)
    requires p in PlanAll(tree, counts, budget, children, depth, bound)
    ensures c in children && Placed(counts, budget, Ancestors(c), depth, p)
    decreases bound, 0, |children|
  {
    var n := |children| - 1;
    assert children == children[..n] + [children[n]];
    if p in Plan(tree, counts, budget, children[n], depth) {
      c := children[n];
      PlanPlaced(tree, counts, budget, c, depth, p);
    } else {
      c := PlanAllPlaced(tree, counts, budget, children[..n], depth, bound, p);
    }
  }

  // ---------------------------------------------------------------------------
  // The planner's result
  // ---------------------------------------------------------------------------

  /** By root, then by depth; roots differ, so the last tie-break decides nothing. */
  const PartLess: (Partition, Partition) -> bool := (a: Partition, b: Partition) =>
    if a.root != b.root then LexLess(a.root, b.root)
    else if a.depth != b.depth then a.depth < b.depth
    else a.count < b.count

  lemma {:induction false} InsertNames(x: string, names: seq<string>)
    ensures forall y :: y in Insert(NameLess, x, names) <==> y == x || y in names
    ensures DistinctNames(names) && x !in names ==> DistinctNames(Insert(NameLess, x, names))
  {
    if names != [] && NameLess(names[0], x) {
      var rest := Insert(NameLess, x, names[1..]);
      InsertNames(x, names[1..]);
      assert names == [names[0]] + names[1..];
      forall j | 0 <= j < |rest|
        ensures DistinctNames(names) && x !in names ==> rest[j] != names[0]
      {
        assert rest[j] == x || rest[j] in names[1..];
      }
    }
  }

  /** The instances without a parent, in order. */
  method CollectRoots(tree: Tree) returns (roots: seq<string>)
    ensures Siblings(roots) && forall r :: r in roots <==> r in tree && ParentPath(r) == ""
  {
    roots := [];
    var todo := tree.Keys;
    while todo != {}
      invariant todo <= tree.Keys && DistinctNames(roots)
      invariant forall r :: r in roots <==> r in tree && r !in todo && ParentPath(r) == ""
    {
      var path :| path in todo;
      todo := todo - {path};
      if ParentPath(path) == "" {
        InsertNames(path, roots);
        roots := Insert(NameLess, path, roots);
      }
    }
  }

  lemma {:induction false} InsertPart(x: Partition, s: seq<Partition>)
    ensures forall y :: y in Insert(PartLess, x, s) <==> y == x || y in s
  {
    if s != [] && PartLess(s[0], x) {
      InsertPart(x, s[1..]);
      assert s == [s[0]] + s[1..];
    }
  }

  lemma {:induction false} InsertSum(x: Partition, s: seq<Partition>)
    ensures SumCounts(Insert(PartLess, x, s)) == x.count + SumCounts(s)
  {
    assert SumCounts([x]) == x.count;
    if s == [] || !PartLess(s[0], x) {
      SumCountsAdd([x], s);
    } else {
      var rest := s[1..];
      InsertSum(x, rest);
      assert s == [s[0]] + rest;
      SumCountsAdd([s[0]], rest);
      SumCountsAdd([s[0]], Insert(PartLess, x, rest));
    }
  }

  lemma {:induction false} InsertDistinct(x: Partition, s: seq<Partition>)
    requires DistinctRoots(s) && forall y :: y in s ==> y.root != x.root
    ensures DistinctRoots(Insert(PartLess, x, s))
  {
    if s != [] && PartLess(s[0], x) {
      var rest := Insert(PartLess, x, s[1..]);
      InsertDistinct(x, s[1..]);
      InsertPart(x, s[1..]);
      forall j | 0 <= j < |rest|
        ensures rest[j].root != s[0].root
      {
        assert rest[j] == x || rest[j] in s[1..];
      }
    }
  }

  lemma {:induction false} SortParts(s: seq<Partition>)
    ensures forall y :: y in Sort(PartLess, s) <==> y in s
    ensures SumCounts(Sort(PartLess, s)) == SumCounts(s)
  {
    if s != [] {
      SortParts(s[1..]);
      InsertPart(s[0], Sort(PartLess, s[1..]));
      InsertSum(s[0], Sort(PartLess, s[1..]));
      assert s == [s[0]] + s[1..] && SumCounts([s[0]]) == s[0].count;
      SumCountsAdd([s[0]], s[1..]);
    }
  }

  lemma {:induction false} SortDistinct(s: seq<Partition>)
    requires DistinctRoots(s)
    ensures DistinctRoots(Sort(PartLess, s))
  {
    if s != [] {
      SortDistinct(s[1..]);
      SortParts(s[1..]);
      InsertDistinct(s[0], Sort(PartLess, s[1..]));
    }
  }

  /** The order of the partitions does not matter. */
  lemma {:induction false} SortDivides(paths: seq<string>, parts: seq<Partition>, tops: seq<string>)
    requires Divides(paths, parts, tops)
    ensures Divides(paths, Sort(PartLess, parts), tops)
  {
    var sorted := Sort(PartLess, parts);
    SortParts(parts);
    SortDistinct(parts);
    forall p | p in sorted
      ensures p.count == Tally(paths, Chosen(sorted, p))
    {
      TallySame(paths, Chosen(sorted, p), Chosen(parts, p));
    }
    forall sig | Contains(parts, sig)
      ensures Contains(sorted, sig)
    {
      var p :| p in parts && p.root in Ancestors(sig);
      assert p in sorted;
    }
  }

  lemma {:induction false} AllWithin(tree: Tree, names: seq<string>)
    ensures Within(tree, names, |tree| + 1)
  {
    forall c | c in names
      ensures |Longer(tree, c)| < |tree| + 1
    {
      assert tree.Keys == (tree.Keys - Longer(tree, c)) + Longer(tree, c);
    }
  }

  /** The sorted partitions of all roots. */
  ghost function WholePlan(tree: Tree, counts: map<string, nat>, budget: nat, roots: seq<string>): seq<Partition>
    requires WellFormed(tree)
  {
    AllWithin(tree, roots);
    Sort(PartLess, PlanAll(tree, counts, budget, roots, 0, |tree| + 1))
  }

  /** Every partition of the plan has signals and is explained. */
  ghost predicate AllExplained(tree: Tree, counts: map<string, nat>, budget: nat, parts: seq<Partition>) {
    forall p :: p in parts ==> p.count > 0 && Explained(tree, counts, budget, p)
  }

  lemma {:induction false} PartStrictTotal()
    ensures StrictTotal(PartLess)
  {
    forall a: Partition, b: Partition, c: Partition
      ensures !PartLess(a, a) && (PartLess(a, b) && PartLess(b, c) ==> PartLess(a, c))
      ensures a == b || PartLess(a, b) || PartLess(b, a)
    {
      LexIrreflexive(a.root);
      LexTransitive(a.root, b.root, c.root);
      LexTotal(a.root, b.root);
      if LexLess(b.root, a.root) { LexTransitive(a.root, b.root, a.root); }
      if LexLess(a.root, b.root) && LexLess(b.root, c.root) { assert a.root != c.root by { LexIrreflexive(a.root); } }
    }
  }

  /** The roots are in order. */
  ghost predicate InOrder(parts: seq<Partition>) {
    forall i, j :: 0 <= i < j < |parts| ==> LexLess(parts[i].root, parts[j].root)
  }

  lemma {:induction false} SortInOrder(parts: seq<Partition>)
    requires DistinctRoots(parts)
    ensures InOrder(Sort(PartLess, parts))
  {
    var sorted := Sort(PartLess, parts);
    PartStrictTotal();
    SortCorrect(PartLess, parts);
    SortDistinct(parts);
    forall i, j | 0 <= i < j < |sorted|
      ensures LexLess(sorted[i].root, sorted[j].root)
    {
      assert !PartLess(sorted[j], sorted[i]) && sorted[i].root != sorted[j].root;
      LexTotal(sorted[i].root, sorted[j].root);
    }
  }

  /** Every partition lies as deep as it has instances above it, all of them over the budget. */
  ghost predicate AllPlaced(counts: map<string, nat>, budget: nat, parts: seq<Partition>) {
    forall p :: p in parts ==>
      p.depth == |Ancestors(p.root)| && forall a :: a in Ancestors(p.root) ==> CountOf(counts, a) > budget
  }

  lemma {:induction false} WholePlanPlaced(tree: Tree, counts: map<string, nat>, budget: nat, roots: seq<string>)
    requires WellFormed(tree) && forall r :: r in roots ==> ParentPath(r) == ""
    ensures AllPlaced(counts, budget, WholePlan(tree, counts, budget, roots))
  {
    AllWithin(tree, roots);
    var parts := PlanAll(tree, counts, budget, roots, 0, |tree| + 1);
    SortParts(parts);
    forall p | p in parts
      ensures p.depth == |Ancestors(p.root)| && forall a :: a in Ancestors(p.root) ==> CountOf(counts, a) > budget
    {
      var c := PlanAllPlaced(tree, counts, budget, roots, 0, |tree| + 1, p);
      assert Ancestors(c) == [];
    }
  }

  lemma {:induction false} WholePlanDivides(tree: Tree, counts: map<string, nat>, budget: nat, roots: seq<string>,
                                            paths: seq<string>)
    requires WellFormed(tree) && Counts(counts, paths) && Siblings(roots)
    ensures Divides(paths, WholePlan(tree, counts, budget, roots), roots)
    ensures AllExplained(tree, counts, budget, WholePlan(tree, counts, budget, roots))
    ensures InOrder(WholePlan(tree, counts, budget, roots))
  {
    AllWithin(tree, roots);
    var parts := PlanAll(tree, counts, budget, roots, 0, |tree| + 1);
    PlanAllDivides(tree, counts, budget, roots, 0, |tree| + 1, paths);
    PlanAllExplained(tree, counts, budget, roots, 0, |tree| + 1);
    SortDivides(paths, parts, roots);
    SortInOrder(parts);
    SortParts(parts);
  }

  /** The partitions of the whole hierarchy: they divide the signals below its roots. */
  method PlanHierarchyPartitions(tree: Tree, counts: map<string, nat>, budget: nat, ghost paths: seq<string>)
    returns (parts: seq<Partition>, roots: seq<string>)
    requires WellFormed(tree) && Counts(counts, paths)
    ensures Siblings(roots) && forall r :: r in roots <==> r in tree && ParentPath(r) == ""
    ensures Divides(paths, parts, roots) && AllExplained(tree, counts, budget, parts)
    ensures InOrder(parts) && AllPlaced(counts, budget, parts)
  {
    roots := CollectRoots(tree);
    parts := PlanRoots(tree, counts, budget, roots);
    WholePlanDivides(tree, counts, budget, roots, paths);
    WholePlanPlaced(tree, counts, budget, roots);
  }

  method PlanRoots(tree: Tree, counts: map<string, nat>, budget: nat, roots: seq<string>)
    returns (parts: seq<Partition>)
    requires WellFormed(tree)
    ensures parts == WholePlan(tree, counts, budget, roots)
  {
    AllWithin(tree, roots);
    var planner := new Planner(tree, counts, budget);
    var _ := planner.SplitAll(roots, 0, |tree| + 1);
    assert planner.out == PlanAll(tree, counts, budget, roots, 0, |tree| + 1);
    parts := Sort(PartLess, planner.out);
  }

  /** When every signal lies below a root, the planned counts add up to all signals. */
  lemma {:induction false} CountsConserved(paths: seq<string>, parts: seq<Partition>, roots: seq<string>)
    requires Divides(paths, parts, roots) && forall sig :: sig in paths ==> InAny(roots, sig)
    ensures SumCounts(parts) == |paths|
  {
    TallyAll(paths, Area(roots));
  }

  // ---------------------------------------------------------------------------
  // Buckets
  // ---------------------------------------------------------------------------

  predicate IsUnderHierarchyRoot(signal: string, root: string) {
    root == "" || signal == root || Extends(signal, root)
  }

  /** Longer roots first, equally long ones by name. */
  predicate BucketOrder(parts: seq<Partition>, a: nat, b: nat)
    requires a < |parts| && b < |parts|
  {
    if |parts[a].root| != |parts[b].root| then |parts[a].root| > |parts[b].root|
    else LexLess(parts[a].root, parts[b].root)
  }

  function InsertIndex(parts: seq<Partition>, x: nat, order: seq<nat>): (out: seq<nat>)
    requires x < |parts| && forall i :: 0 <= i < |order| ==> order[i] < |parts|
    ensures forall y :: y in out <==> y == x || y in order
    ensures forall i :: 0 <= i < |out| ==> out[i] < |parts|
  {
    if order == [] || !BucketOrder(parts, order[0], x) then [x] + order
    else
      assert order == [order[0]] + order[1..];
      [order[0]] + InsertIndex(parts, x, order[1..])
  }

  ghost predicate ByLength(parts: seq<Partition>, order: seq<nat>) {
    && (forall i :: 0 <= i < |order| ==> order[i] < |parts|)
    && (forall i, j :: 0 <= i < j < |order| ==> |parts[order[i]].root| >= |parts[order[j]].root|)
  }

  lemma {:induction false} InsertByLength(parts: seq<Partition>, x: nat, order: seq<nat>)
    requires x < |parts| && ByLength(parts, order)
    ensures ByLength(parts, InsertIndex(parts, x, order))
  {
    if order != [] && BucketOrder(parts, order[0], x) {
      var rest := order[1..];
      InsertByLength(parts, x, rest);
      var out := InsertIndex(parts, x, rest);
      forall j | 0 <= j < |out|
        ensures |parts[order[0]].root| >= |parts[out[j]].root|
      {
        assert out[j] == x || out[j] in rest;
      }
    }
  }

  /** The index of the partition a signal goes to. */
  ghost predicate GoesTo(parts: seq<Partition>, signal: string, k: nat) {
    if parts == [] || forall p :: p in parts ==> !IsUnderHierarchyRoot(signal, p.root) then k == 0
    else
      && k < |parts| && IsUnderHierarchyRoot(signal, parts[k].root)
      && forall p :: p in parts && IsUnderHierarchyRoot(signal, p.root) ==> |p.root| <= |parts[k].root|
  }

  /** The first partition of the order the signal is under. */
  method ChooseBucket(parts: seq<Partition>, order: seq<nat>, signal: string) returns (k: nat)
    requires parts != [] && ByLength(parts, order) && forall x: nat :: x < |parts| ==> x in order
    ensures k < |parts| && GoesTo(parts, signal, k)
  {
    for i := 0 to |order|
      invariant forall j :: 0 <= j < i ==> !IsUnderHierarchyRoot(signal, parts[order[j]].root)
    {
      if IsUnderHierarchyRoot(signal, parts[order[i]].root) {
        forall p | p in parts && IsUnderHierarchyRoot(signal, p.root)
          ensures |p.root| <= |parts[order[i]].root|
        {
          var x: nat :| x < |parts| && parts[x] == p;
          assert x in order;
          var j :| 0 <= j < |order| && order[j] == x;
          assert j >= i;
        }
        return order[i];
      }
    }
    k := 0;
    forall p | p in parts
      ensures !IsUnderHierarchyRoot(signal, p.root)
    {
      var x: nat :| x < |parts| && parts[x] == p;
      assert x in order;
      var j :| 0 <= j < |order| && order[j] == x;
    }
  }

  /** The positions that hold `k`, in order. */
  ghost function Having(choice: seq<nat>, k: nat): seq<nat> {
    if choice == [] then []
    else
      var n := |choice| - 1;
      Having(choice[..n], k) + if choice[n] == k then [n] else []
  }

  /** Every signal index lands in exactly one bucket, the one it chose. */
  lemma {:induction false} HavingExact(choice: seq<nat>, k: nat, i: nat)
    ensures i in Having(choice, k) <==> i < |choice| && choice[i] == k
  {
    if choice != [] {
      HavingExact(choice[..|choice| - 1], k, i);
    }
  }

  /** All partitions, longer roots first. */
  method OrderByLength(parts: seq<Partition>) returns (order: seq<nat>)
    ensures ByLength(parts, order) && forall x: nat :: x < |parts| ==> x in order
  {
    order := [];
    for x := 0 to |parts|
      invariant ByLength(parts, order) && forall y: nat :: y < x ==> y in order
    {
      InsertByLength(parts, x, order);
      order := InsertIndex(parts, x, order);
    }
  }

  /** Each bucket holds the signals that chose it, in order. */
  ghost predicate Distributed(paths: seq<string>, parts: seq<Partition>, buckets: seq<seq<nat>>, choice: seq<nat>) {
    && |buckets| == (if parts == [] then 1 else |parts|)
    && |choice| == |paths|
    && (forall i :: 0 <= i < |paths| ==> choice[i] < |buckets| && GoesTo(parts, paths[i], choice[i]))
    && (forall k :: 0 <= k < |buckets| ==> buckets[k] == Having(choice, k))
  }

  lemma {:induction false} DistributeNext(paths: seq<string>, parts: seq<Partition>, buckets: seq<seq<nat>>,
                                          choice: seq<nat>,
                                          signal: string, k: nat)
    requires Distributed(paths, parts, buckets, choice) && k < |buckets| && GoesTo(parts, signal, k)
    ensures Distributed(paths + [signal], parts, buckets[k := buckets[k] + [|paths|]], choice + [k])
  {
    assert (choice + [k])[..|choice|] == choice;
  }

  /** Distributes the signals, in order, to the partitions with the longest root above them. */
  method BucketSignalsByPartitions(paths: seq<string>, parts: seq<Partition>)
    returns (buckets: seq<seq<nat>>, ghost choice: seq<nat>)
    ensures Distributed(paths, parts, buckets, choice)
    ensures |buckets| == (if parts == [] then 1 else |parts|) && EachInOne(paths, parts, buckets)
  {
    var order := OrderByLength(parts);
    buckets := seq(if parts == [] then 1 else |parts|, _ => []);
    choice := [];
    for i := 0 to |paths|
      invariant Distributed(paths[..i], parts, buckets, choice)
    {
      var k: nat := 0;
      if parts != [] {
        k := ChooseBucket(parts, order, paths[i]);
      }
      DistributeNext(paths[..i], parts, buckets, choice, paths[i], k);
      assert paths[..i + 1] == paths[..i] + [paths[i]];
      buckets := buckets[k := buckets[k] + [i]];
      choice := choice + [k];
    }
    assert paths[..|paths|] == paths;
    InOneBucket(paths, parts, buckets, choice);
  }

  predicate InBucket(buckets: seq<seq<nat>>, k: nat, i: nat) {
    k < |buckets| && i in buckets[k]
  }

  ghost predicate Landed(buckets: seq<seq<nat>>, i: nat) {
    exists k: nat :: InBucket(buckets, k, i)
  }

  /** Every signal is in a bucket, and every bucket holds only signals that go there. */
  ghost predicate EachInOne(paths: seq<string>, parts: seq<Partition>, buckets: seq<seq<nat>>) {
    && (forall i: nat :: i < |paths| ==> Landed(buckets, i))
    && (forall i: nat, k: nat :: InBucket(buckets, k, i) ==> i < |paths| && GoesTo(parts, paths[i], k))
  }

  lemma {:induction false} InOneBucket(paths: seq<string>, parts: seq<Partition>, buckets: seq<seq<nat>>,
                                       choice: seq<nat>)
    requires Distributed(paths, parts, buckets, choice)
    ensures EachInOne(paths, parts, buckets)
  {
    forall i: nat, k: nat | InBucket(buckets, k, i)
      ensures i < |paths| && GoesTo(parts, paths[i], k)
    {
      HavingExact(choice, k, i);
    }
    forall i: nat | i < |paths|
      ensures Landed(buckets, i)
    {
      HavingExact(choice, choice[i], i);
      assert InBucket(buckets, choice[i], i);
    }
  }

  lemma {:induction false} HavingTally(paths: seq<string>, choice: seq<nat>, k: nat, f: string -> bool)
    requires |choice| == |paths| && forall i :: 0 <= i < |paths| ==> (choice[i] == k <==> f(paths[i]))
    ensures |Having(choice, k)| == Tally(paths, f)
  {
    if paths != [] {
      HavingTally(paths[..|paths| - 1], choice[..|choice| - 1], k, f);
    }
  }

  /** A signal below the roots goes to the partition it chooses. */
  lemma {:induction false} GoesWhereItChooses(parts: seq<Partition>, signal: string, k: nat, l: nat)
    requires DistinctRoots(parts) && GoesTo(parts, signal, k) && Contains(parts, signal) && l < |parts|
    requires forall p :: p in parts ==> p.root != signal
    ensures l == k <==> Chooses(parts, signal, parts[l])
  {
    forall p | p in parts
      ensures p.root in Ancestors(signal) <==> p.root != "" && IsUnderHierarchyRoot(signal, p.root)
    {
      AncestorExtends(signal, p.root);
    }
    var q :| q in parts && q.root in Ancestors(signal);
    assert k < |parts| && parts[k] in parts;
    if Chooses(parts, signal, parts[l]) {
      SameLengthSame(signal, parts[k].root, parts[l].root);
    }
  }

  /** When no signal is itself a partition root, every bucket has exactly its planned size. */
  lemma {:induction false} BucketsHavePlannedSize(paths: seq<string>, parts: seq<Partition>, roots: seq<string>,
                                                  choice: seq<nat>, k: nat)
    requires Divides(paths, parts, roots) && forall sig :: sig in paths ==> InAny(roots, sig)
    requires forall p :: p in parts ==> p.root !in paths
    requires |choice| == |paths| && forall i :: 0 <= i < |paths| ==> GoesTo(parts, paths[i], choice[i])
    requires k < |parts|
    ensures |Having(choice, k)| == parts[k].count
  {
    forall i | 0 <= i < |paths|
      ensures choice[i] == k <==> Chosen(parts, parts[k])(paths[i])
    {
      assert paths[i] in paths;
      GoesWhereItChooses(parts, paths[i], choice[i], k);
    }
    HavingTally(paths, choice, k, Chosen(parts, parts[k]));
  }
}
