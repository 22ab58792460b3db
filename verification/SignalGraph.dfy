/** The dependency graph of the created signals: layering, cycle checks and dependents. */
module SignalGraph {
  import opened Wrappers
  import opened Expressions
  import opened VirtualSignals

  const MaxDepth: nat := 16

  datatype Problem = TooDeep | Circular

  ghost predicate DependsOn(created: Created, n: string, d: string) {
    n in created && d in Refs(created[n].ast)
  }

  /** Each name depends on the next one. */
  ghost predicate Chain(created: Created, names: seq<string>) {
    forall i, j :: 0 <= i && j == i + 1 && j < |names| ==> DependsOn(created, names[i], names[j])
  }

  /** Why the search stopped: a chain that is too long, or one that comes back to itself. */
  ghost predicate Explains(created: Created, trail: seq<string>, p: Problem) {
    && trail != []
    && Chain(created, trail)
    && match p
       case TooDeep => |trail| == MaxDepth + 2
       case Circular => trail[|trail| - 1] in trail[..|trail| - 1]
  }

  lemma {:induction false} ChainExtends(created: Created, names: seq<string>, next: string)
    requires Chain(created, names) && names != [] && DependsOn(created, names[|names| - 1], next)
    ensures Chain(created, names + [next])
  {}

  ghost predicate AllIn(names: seq<string>, visited: set<string>) {
    forall i :: 0 <= i < |names| ==> names[i] in visited
  }

  lemma {:induction false} AllInNext(names: seq<string>, k: nat, visited: set<string>)
    requires k < |names| && AllIn(names[..k], visited) && names[k] in visited
    ensures AllIn(names[..k + 1], visited)
  {
    assert names[..k + 1] == names[..k] + [names[k]];
  }

  lemma {:induction false} NextDependency(created: Created, trail: seq<string>, name: string, deps: seq<string>, k: nat)
    requires Chain(created, trail) && trail != [] && trail[|trail| - 1] == name
    requires name in created && deps == Dependencies(created[name]) && k < |deps|
    ensures Chain(created, trail + [deps[k]])
  {
    assert deps[k] in deps;
    ChainExtends(created, trail, deps[k]);
  }

  lemma {:induction false} ChainDescends(created: Created, rank: map<string, nat>, names: seq<string>, i: nat, j: nat)
    requires Ranked(created, rank) && Chain(created, names) && i < j < |names| && names[j] in created
    ensures names[i] in created && rank[names[j]] < rank[names[i]]
    decreases j - i
  {
    assert DependsOn(created, names[i], names[i + 1]);
    if i + 1 < j {
      ChainDescends(created, rank, names, i + 1, j);
    }
  }

  /** A reported cycle is a real one: no ranking of the signals exists. */
  lemma {:induction false} CircularHasNoRank(created: Created, trail: seq<string>, rank: map<string, nat>)
    requires Explains(created, trail, Circular)
    ensures !Ranked(created, rank)
  {
    var last := |trail| - 1;
    var i :| 0 <= i < last && trail[i] == trail[last];
    assert DependsOn(created, trail[i], trail[i + 1]);
    if Ranked(created, rank) {
      ChainDescends(created, rank, trail, i, last);
    }
  }

  /** The first layer holding a name; the number of layers if there is none. */
  function LayerOf(layers: seq<seq<string>>, name: string): (i: nat)
    ensures i <= |layers|
    ensures i < |layers| ==> name in layers[i]
    ensures forall j :: 0 <= j < i ==> name !in layers[j]
  {
    if layers == [] || name in layers[0] then 0 else 1 + LayerOf(layers[1..], name)
  }

  /** The visited part is closed, and its created signals are layered leaves first, each once. */
  ghost predicate Layered(created: Created, visited: set<string>, layers: seq<seq<string>>) {
    && (forall n, d :: n in visited && DependsOn(created, n, d) ==> d in visited)
    && (forall n :: n in visited && n in created <==> LayerOf(layers, n) < |layers|)
    && (forall n, d :: n in visited && DependsOn(created, n, d) && d in created ==>
        LayerOf(layers, d) < LayerOf(layers, n))
    && (forall i, n :: 0 <= i < |layers| && n in layers[i] ==> LayerOf(layers, n) == i)
    && (forall i :: 0 <= i < |layers| ==> Distinct(layers[i]))
  }

  function Padded(layers: seq<seq<string>>, k: nat): (out: seq<seq<string>>)
    ensures |out| > k && layers <= out && forall i :: |layers| <= i < |out| ==> out[i] == []
    ensures |layers| > k ==> out == layers
    decreases k + 1 - |layers|
  {
    if |layers| > k then layers else Padded(layers + [[]], k)
  }

  function Added(layers: seq<seq<string>>, k: nat, name: string): seq<seq<string>> {
    var padded := Padded(layers, k);
    padded[k := padded[k] + [name]]
  }

  /** Adding a new name to one layer, with empty layers added up to it. */
  lemma {:induction false} PlacedLayers(layers: seq<seq<string>>, k: nat, name: string, other: string)
    requires LayerOf(layers, name) == |layers| && k <= |layers|
    ensures var out := Added(layers, k, name);
            && LayerOf(out, name) == k
            && (other != name && LayerOf(layers, other) < |layers| ==> LayerOf(out, other) == LayerOf(layers, other))
            && (other != name && LayerOf(layers, other) == |layers| ==> LayerOf(out, other) == |out|)
            && (k < |layers| ==> name !in layers[k])
  {
    var padded := Padded(layers, k);
    var out := Added(layers, k, name);
    assert name in out[k];
    assert forall i :: 0 <= i < |out| && i != k ==> out[i] == padded[i];
  }

  class TopologicalSort {
    const created: Created
    var visited: set<string>
    var path: set<string>
    var layers: seq<seq<string>>
    ghost var trail: seq<string>

    ghost predicate Valid()
      reads this
    {
      && Layered(created, visited, layers)
      && visited !! path
      && (forall n :: n in path <==> n in trail)
      && Chain(created, trail)
    }

    constructor (created: Created)
      ensures Valid() && this.created == created && trail == [] && visited == {}
    {
      this.created := created;
      visited, path, layers, trail := {}, {}, [], [];
    }

    /** Depth-first visit: dependencies first, then the name goes one layer above the highest of them. */
    method Visit(name: string, depth: nat) returns (r: Result<(), Problem>)
      requires Valid() && depth == |trail| <= MaxDepth + 1 && Chain(created, trail + [name])
      modifies this
      ensures r.Ok? ==> Valid() && trail == old(trail) && old(visited) + {name} <= visited
      ensures r.Err? ==> old(trail) + [name] <= trail && Explains(created, trail, r.error)
      decreases MaxDepth + 1 - depth, 0
    {
      if depth > MaxDepth {
        trail := trail + [name];
        return Err(TooDeep);
      }
      if name in path {
        trail := trail + [name];
        return Err(Circular);
      }
      if name in visited {
        return Ok(());
      }
      if name !in created {
        VisitLeaf(name);
        return Ok(());
      }
      ghost var before, above := visited, trail;
      path := path + {name};
      trail := trail + [name];
      var deps := Dependencies(created[name]);
      r := VisitAll(name, deps, depth + 1);
      if r.Ok? {
        assert name in path;
        Place(name, deps, above);
      }
    }

    method VisitAll(ghost name: string, deps: seq<string>, depth: nat) returns (r: Result<(), Problem>)
      requires Valid() && depth == |trail| <= MaxDepth + 1
      requires trail != [] && trail[|trail| - 1] == name && name in created && deps == Dependencies(created[name])
      modifies this
      ensures r.Ok? ==> Valid() && trail == old(trail) && old(visited) <= visited && AllIn(deps, visited)
      ensures r.Err? ==> old(trail) <= trail && Explains(created, trail, r.error)
      decreases MaxDepth + 1 - depth, 1
    {
      for k := 0 to |deps|
        invariant Valid() && trail == old(trail) && old(visited) <= visited
        invariant AllIn(deps[..k], visited)
      {
        NextDependency(created, trail, name, deps, k);
        r := Visit(deps[k], depth);
        if r.Err? {
          return r;
        }
        AllInNext(deps, k, visited);
      }
      assert deps[..|deps|] == deps;
      r := Ok(());
    }

    method VisitLeaf(name: string)
      requires Valid() && name !in created && name !in path
      modifies this`visited
      ensures Valid() && visited == old(visited) + {name}
    {
      visited := visited + {name};
    }

    /** One above the highest layer of the dependencies. */
    method LayerAbove(deps: seq<string>) returns (layer: nat)
      ensures layer <= |layers|
      ensures forall d :: d in deps && LayerOf(layers, d) < |layers| ==> LayerOf(layers, d) < layer
      ensures layer > 0 ==> exists d :: d in deps && LayerOf(layers, d) == layer - 1
    {
      layer := 0;
      for k := 0 to |deps|
        invariant layer <= |layers|
        invariant forall i :: 0 <= i < k && LayerOf(layers, deps[i]) < |layers| ==> LayerOf(layers, deps[i]) < layer
        invariant layer > 0 ==> exists d :: d in deps && LayerOf(layers, d) == layer - 1
      {
        var i := LayerOf(layers, deps[k]);
        if i < |layers| && layer < i + 1 {
          layer := i + 1;
        }
      }
    }

    /** The name leaves the path and joins its layer. */
    method Place(name: string, deps: seq<string>, ghost above: seq<string>)
      requires Valid() && name in created && deps == Dependencies(created[name])
      requires trail == above + [name] && name !in above && Chain(created, above)
      requires AllIn(deps, visited)
      modifies this
      ensures Valid() && trail == above && visited == old(visited) + {name}
    {
      var layer := LayerAbove(deps);
      AddedLayered(created, visited, layers, name, layer);
      path := path - {name};
      trail := above;
      visited := visited + {name};
      layers := Added(layers, layer, name);
    }
  }

  /** How the layers look after one name was added to layer k. */
  ghost predicate Grown(layers: seq<seq<string>>, out: seq<seq<string>>, name: string, k: nat) {
    && k < |out| && |layers| <= |out|
    && LayerOf(out, name) == k
    && (forall n :: n != name ==>
          LayerOf(out, n) == if LayerOf(layers, n) < |layers| then LayerOf(layers, n) else |out|)
    && (forall i, n :: 0 <= i < |out| && n in out[i] ==> (n == name && i == k) || (i < |layers| && n in layers[i]))
    && (forall i :: 0 <= i < |out| ==> Distinct(out[i]))
  }

  lemma {:induction false} PlacedGrown(layers: seq<seq<string>>, name: string, k: nat)
    requires LayerOf(layers, name) == |layers| && k <= |layers|
    requires forall i :: 0 <= i < |layers| ==> Distinct(layers[i])
    ensures Grown(layers, Added(layers, k, name), name, k)
  {
    var padded := Padded(layers, k);
    var out := Added(layers, k, name);
    PlacedLayers(layers, k, name, name);
    forall n | n != name
      ensures LayerOf(out, n) == if LayerOf(layers, n) < |layers| then LayerOf(layers, n) else |out|
    {
      PlacedLayers(layers, k, name, n);
    }
    forall i | 0 <= i < |out|
      ensures forall n :: n in out[i] ==> (n == name && i == k) || (i < |layers| && n in layers[i])
      ensures Distinct(out[i])
    {
      assert i != k ==> out[i] == padded[i];
    }
  }

  lemma {:induction false} PlacedLayered(created: Created, visited: set<string>, layers: seq<seq<string>>,
                                         out: seq<seq<string>>, name: string, k: nat)
    requires Layered(created, visited, layers) && name !in visited && name in created
    requires Grown(layers, out, name, k)
    requires forall d :: DependsOn(created, name, d) ==> d in visited
    requires forall d :: DependsOn(created, name, d) && d in created ==> LayerOf(layers, d) < k
    ensures Layered(created, visited + {name}, out)
  {
    forall n, d | n in visited + {name} && DependsOn(created, n, d)
      ensures d in visited && (d in created ==> LayerOf(out, d) < LayerOf(out, n))
    {
      if n in visited {
        assert d in visited;
      }
    }
  }

  lemma {:induction false} AddedLayered(created: Created, visited: set<string>, layers: seq<seq<string>>,
                                        name: string, k: nat)
    requires Layered(created, visited, layers) && name !in visited && name in created && k <= |layers|
    requires AllIn(Dependencies(created[name]), visited)
    requires forall d :: d in Dependencies(created[name]) && LayerOf(layers, d) < |layers| ==> LayerOf(layers, d) < k
    ensures Layered(created, visited + {name}, Added(layers, k, name))
  {
    PlacedGrown(layers, name, k);
    PlacedLayered(created, visited, layers, Added(layers, k, name), name, k);
  }

  /** The layers hold created signals only, the given one among them, and after all they depend on. */
  ghost predicate LeavesFirst(created: Created, name: string, layers: seq<seq<string>>) {
    && (name in created ==> LayerOf(layers, name) < |layers|)
    && (forall i, n :: 0 <= i < |layers| && n in layers[i] ==> n in created && LayerOf(layers, n) == i)
    && (forall n, d :: LayerOf(layers, n) < |layers| && DependsOn(created, n, d) && d in created ==>
          LayerOf(layers, d) < LayerOf(layers, n))
  }

  lemma {:induction false} LayeredLeavesFirst(created: Created, seen: set<string>, layers: seq<seq<string>>,
                                              name: string)
    requires Layered(created, seen, layers) && name in seen
    ensures LeavesFirst(created, name, layers)
  {
    forall i, n | 0 <= i < |layers| && n in layers[i]
      ensures n in created && LayerOf(layers, n) == i
    {
      assert LayerOf(layers, n) < |layers|;
    }
  }

  /** The evaluation layers of a signal, leaves first, or why there are none. */
  method LayersFor(created: Created, name: string)
    returns (r: Result<seq<seq<string>>, Problem>, ghost seen: set<string>, ghost trail: seq<string>)
    ensures r.Ok? ==> LeavesFirst(created, name, r.value)
    ensures r.Err? ==> exists chain :: Explains(created, chain, r.error) && chain[0] == name
    ensures r.Ok? ==> name in seen && Layered(created, seen, r.value)
    ensures r.Err? ==> Explains(created, trail, r.error) && trail[0] == name
  {
    var sort := new TopologicalSort(created);
    var visit := sort.Visit(name, 0);
    seen, trail := sort.visited, sort.trail;
    if visit.Ok? {
      LayeredLeavesFirst(created, seen, sort.layers, name);
    }
    r := if visit.Ok? then Ok(sort.layers) else Err(visit.error);
  }

  // ---------------------------------------------------------------------------
  // Ranks
  // ---------------------------------------------------------------------------

  /** A part of the store closed under dependencies, each below the signals that need it. */
  ghost predicate RankedOn(created: Created, part: set<string>, rank: map<string, nat>, bound: nat) {
    forall n :: n in part && n in created ==>
      && n in rank && rank[n] < bound
      && forall d :: d in Refs(created[n].ast) && d in created ==> d in part && d in rank && rank[d] < rank[n]
  }

  ghost function LayerRanks(created: Created, seen: set<string>, layers: seq<seq<string>>): map<string, nat> {
    map n | n in seen && n in created :: LayerOf(layers, n)
  }

  lemma {:induction false} LayersRank(created: Created, seen: set<string>, layers: seq<seq<string>>)
    requires Layered(created, seen, layers)
    ensures RankedOn(created, seen, LayerRanks(created, seen, layers), |layers|)
  {
    forall n, d | n in seen && n in created && d in Refs(created[n].ast) && d in created
      ensures d in seen && LayerOf(layers, d) < LayerOf(layers, n)
    {
      assert DependsOn(created, n, d);
    }
  }

  /** The ranks of `low` on one part, and above them the ranks of `high`. */
  ghost function Stacked(part: set<string>, low: map<string, nat>, bound: nat, high: map<string, nat>)
    : map<string, nat>
  {
    map n | n in low.Keys + high.Keys ::
      if n in part && n in low then low[n] else if n in high then bound + high[n] else 0
  }

  /** What `high` ranks may rest on what `low` ranks. */
  lemma {:induction false} StackedRanks(created: Created, part: set<string>, low: map<string, nat>, bound: nat,
                                        upper: set<string>, high: map<string, nat>, top: nat)
    requires RankedOn(created, part, low, bound)
    requires forall n :: n in upper && n in created && n !in part ==>
               && n in high && high[n] < top
               && forall d :: d in Refs(created[n].ast) && d in created && d !in part ==>
                    d in upper && d in high && high[d] < high[n]
    ensures RankedOn(created, part + upper, Stacked(part, low, bound, high), bound + top)
  {}

  // ---------------------------------------------------------------------------
  // Dependents
  // ---------------------------------------------------------------------------

  ghost predicate DependentsClosed(created: Created, names: set<string>) {
    forall n, d :: d in names && DependsOn(created, n, d) ==> n in names
  }

  /** Everything in `names` is in every closed set that holds `name`. */
  ghost predicate Forced(created: Created, name: string, names: set<string>) {
    forall c: set<string> :: name in c && DependentsClosed(created, c) ==> names <= c
  }

  /** The signal and everything that rests on it. */
  ghost predicate Affected(created: Created, name: string, names: set<string>) {
    name in names && DependentsClosed(created, names) && Forced(created, name, names)
  }

  /** The signals directly depending on `current`, except the marked ones. */
  method DirectDependents(created: Created, current: string, marked: set<string>) returns (found: seq<string>)
    ensures forall n :: n in found <==> n !in marked && DependsOn(created, n, current)
  {
    found := [];
    var todo := created.Keys;
    while todo != {}
      invariant todo <= created.Keys
      invariant forall n :: n in found <==> n !in marked && n !in todo && DependsOn(created, n, current)
    {
      var n :| n in todo;
      todo := todo - {n};
      if n !in marked && current in Dependencies(created[n]) {
        found := found + [n];
      }
    }
  }

  /** A search that expands names when it takes them from the frontier. */
  ghost predicate Searching(created: Created, name: string, names: set<string>, frontier: seq<string>) {
    && (name in names || name in frontier)
    && names <= created.Keys + {name}
    && (forall n :: n in frontier ==> n in created || n == name)
    && (forall n, d :: d in names && DependsOn(created, n, d) ==> n in names || n in frontier)
    && (forall c: set<string> :: name in c && DependentsClosed(created, c) ==>
        names <= c && forall n :: n in frontier ==> n in c)
  }

  lemma {:induction false} SearchSkips(created: Created, name: string, names: set<string>, front: seq<string>,
                                       current: string)
    requires Searching(created, name, names, front + [current]) && current in names
    ensures Searching(created, name, names, front)
  {
    forall n | n in front
      ensures n in front + [current]
    {}
  }

  lemma {:induction false} SearchVisits(created: Created, name: string, names: set<string>, front: seq<string>,
                                        current: string,
                                        found: seq<string>)
    requires Searching(created, name, names, front + [current])
    requires forall n :: n in found <==> n !in names + {current} && DependsOn(created, n, current)
    ensures Searching(created, name, names + {current}, front + found)
  {
    assert current in front + [current];
    forall n | n in front
      ensures n in front + [current] && n in front + found
    {}
  }

  /** What an update of a signal makes stale. */
  method ToInvalidate(created: Created, name: string) returns (names: set<string>)
    ensures Affected(created, name, names)
  {
    names := {};
    var frontier := [name];
    while frontier != []
      invariant Searching(created, name, names, frontier)
      decreases |created.Keys + {name} - names|, |frontier|
    {
      var front, current := frontier[..|frontier| - 1], frontier[|frontier| - 1];
      assert frontier == front + [current];
      if current in names {
        SearchSkips(created, name, names, front, current);
        frontier := front;
      } else {
        var found := DirectDependents(created, current, names + {current});
        SearchVisits(created, name, names, front, current, found);
        Shrinks(created.Keys + {name} - names, created.Keys + {name} - (names + {current}), current);
        names := names + {current};
        frontier := front + found;
      }
    }
  }

  /** A search that marks names when it puts them on the frontier. */
  ghost predicate Spreading(created: Created, name: string, names: set<string>, frontier: seq<string>) {
    && name in names && Forced(created, name, names)
    && (forall n :: n in frontier ==> n in names)
    && (forall n, d :: d in names && d !in frontier && DependsOn(created, n, d) ==> n in names)
  }

  lemma {:induction false} SpreadVisits(created: Created, name: string, names: set<string>, front: seq<string>,
                                        current: string,
                                        found: seq<string>, now: set<string>)
    requires Spreading(created, name, names, front + [current])
    requires forall n :: n in found <==> n !in names && DependsOn(created, n, current)
    requires forall n :: n in now <==> n in names || n in found
    ensures Spreading(created, name, now, front + found)
  {
    assert current in front + [current];
    forall n | n in front
      ensures n in front + [current] && n in front + found
    {}
    forall c: set<string> | name in c && DependentsClosed(created, c)
      ensures now <= c
    {
      assert names <= c;
    }
  }

  lemma {:induction false} SpreadShrinks(created: Created, name: string, dependents: set<string>, found: seq<string>,
                                         more: set<string>)
    requires name !in dependents && dependents <= created.Keys && more == dependents + (set n | n in found)
    requires forall n :: n in found ==> n !in dependents + {name} && n in created
    ensures name !in more && more <= created.Keys
    ensures if found == [] then more == dependents else |created.Keys - more| < |created.Keys - dependents|
  {
    if found == [] {
      assert more == dependents;
    } else {
      assert found[0] in found;
      Shrinks(created.Keys - dependents, created.Keys - more, found[0]);
    }
  }

  /** The created signals that rest on a signal, itself left out. */
  method DependentSignals(created: Created, name: string) returns (dependents: set<string>)
    ensures name !in dependents && dependents <= created.Keys && Affected(created, name, dependents + {name})
  {
    dependents := {};
    var frontier := [name];
    while frontier != []
      invariant name !in dependents && dependents <= created.Keys
      invariant Spreading(created, name, dependents + {name}, frontier)
      decreases |created.Keys - dependents|, |frontier|
    {
      var front, current := frontier[..|frontier| - 1], frontier[|frontier| - 1];
      assert frontier == front + [current];
      var found := DirectDependents(created, current, dependents + {name});
      var more := dependents + (set n | n in found);
      SpreadVisits(created, name, dependents + {name}, front, current, found, more + {name});
      SpreadShrinks(created, name, dependents, found, more);
      dependents, frontier := more, front + found;
    }
  }

  lemma {:induction false} Shrinks(big: set<string>, small: set<string>, x: string)
    requires small <= big && x in big && x !in small
    ensures |small| < |big|
  {
    assert big == small + (big - small);
    assert x in big - small;
  }

  /** Nothing rests on a signal exactly when no created signal mentions it. */
  lemma {:induction false} NoDependents(created: Created, name: string, names: set<string>)
    requires Affected(created, name, names)
    ensures names == {name} <==> forall n :: n != name ==> !DependsOn(created, n, name)
  {
    if forall n :: n != name ==> !DependsOn(created, n, name) {
      assert DependentsClosed(created, {name});
      assert names <= {name};
    }
  }
}
