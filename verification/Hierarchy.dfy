/** Dotted hierarchy paths and how many signals lie below each instance. */
module Hierarchy {

  /** The position of the last dot, or -1. */
  function LastDot(path: string): (k: int)
    ensures -1 <= k < |path| && (k >= 0 ==> path[k] == '.')
    ensures forall i :: k < i < |path| ==> path[i] != '.'
  {
    if path == [] then -1
    else if path[|path| - 1] == '.' then |path| - 1
    else LastDot(path[..|path| - 1])
  }

  function ParentPath(path: string): (p: string)
    ensures path != "" ==> |p| < |path|
  {
    if LastDot(path) < 0 then "" else path[..LastDot(path)]
  }

  /** The instances a path lies in, innermost first. */
  function Ancestors(path: string): (out: seq<string>)
    decreases |path|
  {
    var p := ParentPath(path);
    if p == "" then [] else [p] + Ancestors(p)
  }

  /** The path continues the instance path after a dot. */
  predicate Extends(path: string, node: string) {
    |node| < |path| && path[..|node|] == node && path[|node|] == '.'
  }

  /** An instance is an ancestor exactly if the path continues it after a dot. */
  lemma {:induction false} AncestorExtends(path: string, node: string)
    ensures node in Ancestors(path) <==> node != "" && Extends(path, node)
    decreases |path|
  {
    var p, k := ParentPath(path), LastDot(path);
    if p != "" {
      AncestorExtends(p, node);
      assert path[..k] == p;
      if Extends(path, node) {
        if |node| < k {
          assert p[..|node|] == path[..|node|];
        }
      }
      if Extends(p, node) {
        assert path[..|node|] == p[..|node|];
      }
    }
  }

  lemma {:induction false} AncestorShorter(path: string, node: string)
    requires node in Ancestors(path)
    ensures 0 < |node| < |path| && |ParentPath(node)| < |node|
  {
    AncestorExtends(path, node);
  }

  lemma {:induction false} AncestorTransitive(path: string, mid: string, node: string)
    requires mid in Ancestors(path) && node in Ancestors(mid)
    ensures node in Ancestors(path)
  {
    AncestorExtends(path, mid);
    AncestorExtends(mid, node);
    AncestorExtends(path, node);
    assert path[..|node|] == path[..|mid|][..|node|];
  }

  lemma {:induction false} ParentIsAncestor(path: string, child: string)
    requires child in Ancestors(path) && ParentPath(child) != ""
    ensures ParentPath(child) in Ancestors(path)
  {
    AncestorTransitive(path, child, ParentPath(child));
  }

  /** A path lies in at most one of the children of an instance. */
  lemma {:induction false} OneChild(path: string, a: string, b: string)
    requires a in Ancestors(path) && b in Ancestors(path) && ParentPath(a) == ParentPath(b)
    ensures a == b
    decreases |path|
  {
    var p := ParentPath(path);
    if a != p && b != p {
      OneChild(p, a, b);
    } else if a != p {
      NotBelowSibling(b, a);
    } else if b != p {
      NotBelowSibling(a, b);
    }
  }

  /** An instance with the same parent is not an ancestor. */
  lemma {:induction false} NotBelowSibling(a: string, b: string)
    requires ParentPath(a) == ParentPath(b)
    ensures b !in Ancestors(a)
  {
    if b in Ancestors(a) {
      AncestorShorter(a, b);
      if b != ParentPath(a) {
        AncestorShorter(ParentPath(a), b);
      }
    }
  }

  /** Ancestors of the same length are the same. */
  lemma {:induction false} SameLengthSame(path: string, a: string, b: string)
    requires a in Ancestors(path) && b in Ancestors(path) && |a| == |b|
    ensures a == b
  {
    AncestorExtends(path, a);
    AncestorExtends(path, b);
  }

  // ---------------------------------------------------------------------------
  // Counting signals
  // ---------------------------------------------------------------------------

  /** How many paths have a property. */
  ghost function Tally(paths: seq<string>, f: string -> bool): (n: nat)
    ensures n <= |paths|
  {
    if paths == [] then 0 else Tally(paths[..|paths| - 1], f) + if f(paths[|paths| - 1]) then 1 else 0
  }

  lemma {:induction false} TallySame(paths: seq<string>, f: string -> bool, g: string -> bool)
    requires forall p :: p in paths ==> f(p) == g(p)
    ensures Tally(paths, f) == Tally(paths, g)
  {
    if paths != [] {
      TallySame(paths[..|paths| - 1], f, g);
    }
  }

  /** Properties that exclude each other add up. */
  lemma {:induction false} TallyAdds(paths: seq<string>, f: string -> bool, g: string -> bool, h: string -> bool)
    requires forall p :: p in paths ==> !(f(p) && g(p)) && (h(p) <==> f(p) || g(p))
    ensures Tally(paths, h) == Tally(paths, f) + Tally(paths, g)
  {
    if paths != [] {
      TallyAdds(paths[..|paths| - 1], f, g, h);
    }
  }

  lemma {:induction false} TallyNone(paths: seq<string>, f: string -> bool)
    ensures Tally(paths, f) == 0 <==> forall p :: p in paths ==> !f(p)
  {
    if paths != [] {
      TallyNone(paths[..|paths| - 1], f);
      assert paths == paths[..|paths| - 1] + [paths[|paths| - 1]];
    }
  }

  lemma {:induction false} TallyAll(paths: seq<string>, f: string -> bool)
    requires forall p :: p in paths ==> f(p)
    ensures Tally(paths, f) == |paths|
  {
    if paths != [] {
      TallyAll(paths[..|paths| - 1], f);
    }
  }

  ghost function Below(node: string): string -> bool {
    (path: string) => node in Ancestors(path)
  }

  /** How many signals lie in an instance. */
  ghost function Count(paths: seq<string>, node: string): nat {
    Tally(paths, Below(node))
  }

  /** The count table: an entry for every instance that holds a signal, and no other. */
  ghost predicate Counts(counts: map<string, nat>, paths: seq<string>) {
    && (forall node :: node in counts <==> Count(paths, node) > 0)
    && (forall node :: node in counts ==> counts[node] == Count(paths, node))
  }

  function CountOf(counts: map<string, nat>, node: string): nat {
    if node in counts then counts[node] else 0
  }

  /** The instance itself and its ancestors. */
  function UpFrom(inst: string): seq<string> {
    if inst == "" then [] else [inst] + Ancestors(inst)
  }

  /** The ancestors of the path below `inst` have been counted once more. */
  ghost predicate Walked(counts: map<string, nat>, before: map<string, nat>, path: string, inst: string) {
    && (inst == "" || inst in Ancestors(path))
    && (forall node :: node in counts ==> counts[node] > 0)
    && (forall node :: CountOf(counts, node) ==
                       CountOf(before, node) + if node in Ancestors(path) && node !in UpFrom(inst) then 1 else 0)
  }

  lemma {:induction false} WalkStep(counts: map<string, nat>, before: map<string, nat>, path: string, inst: string)
    requires Walked(counts, before, path, inst) && inst != ""
    ensures Walked(counts[inst := CountOf(counts, inst) + 1], before, path, ParentPath(inst))
  {
    NotOwnAncestor(inst);
    if ParentPath(inst) != "" {
      AncestorTransitive(path, inst, ParentPath(inst));
    }
    var next := counts[inst := CountOf(counts, inst) + 1];
    forall node
      ensures CountOf(next, node) == CountOf(counts, node) + if node == inst then 1 else 0
      ensures node in UpFrom(inst) <==> node == inst || node in UpFrom(ParentPath(inst))
    {}
    assert inst !in UpFrom(ParentPath(inst));
  }

  lemma {:induction false} WalkedAll(counts: map<string, nat>, before: map<string, nat>, paths: seq<string>, i: nat)
    requires i < |paths| && Counts(before, paths[..i]) && Walked(counts, before, paths[i], "")
    ensures Counts(counts, paths[..i + 1])
  {
    assert paths[..i + 1][..i] == paths[..i];
    forall node
      ensures CountOf(counts, node) == Count(paths[..i + 1], node)
    {}
  }

  /** Walks up from every signal and counts it at each instance on the way. */
  method BuildSubtreeSignalCounts(paths: seq<string>) returns (counts: map<string, nat>)
    ensures Counts(counts, paths)
  {
    counts := map[];
    for i := 0 to |paths|
      invariant Counts(counts, paths[..i])
    {
      ghost var before := counts;
      var inst := ParentPath(paths[i]);
      while inst != ""
        invariant Walked(counts, before, paths[i], inst)
        decreases |inst|
      {
        WalkStep(counts, before, paths[i], inst);
        counts := counts[inst := CountOf(counts, inst) + 1];
        inst := ParentPath(inst);
      }
      WalkedAll(counts, before, paths, i);
    }
    assert paths[..|paths|] == paths;
  }

  lemma {:induction false} NotOwnAncestor(path: string)
    ensures path !in Ancestors(path)
  {
    if path in Ancestors(path) {
      AncestorShorter(path, path);
    }
  }
}
