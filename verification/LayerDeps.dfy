/** checklayer: the layers a layer depends on, found by a depth-first search that keeps one shared
    list of layers and turns it into None when a dependency is missing. */
module LayerDeps {
  import opened Wrappers

  /** A collection of a layer and the words of its `depends` string. */
  datatype Collection = Collection(name: string, depends: seq<string>)

  /** `collections` is None for a directory that has no layer configuration. */
  datatype Layer = Layer(name: string, collections: Option<seq<Collection>>)

  predicate Provides(layer: Layer, depend: string) {
    layer.collections.Some? && exists i | 0 <= i < |layer.collections.value| :: layer.collections.value[i].name == depend
  }

  /** `_find_layer`: the first layer that has the collection. */
  method FindLayer(depend: string, layers: seq<Layer>) returns (r: Option<Layer>)
    ensures r == Find(depend, layers)
  {
    for i := 0 to |layers|
      invariant Find(depend, layers[i..]) == Find(depend, layers)
    {
      var layer := layers[i];
      assert layers[i..][1..] == layers[i + 1..];
      if layer.collections.Some? {
        for j := 0 to |layer.collections.value|
          invariant forall k | 0 <= k < j :: layer.collections.value[k].name != depend
        {
          if depend == layer.collections.value[j].name {
            return Some(layer);
          }
        }
      }
    }
    return None;
  }

  function Find(depend: string, layers: seq<Layer>): (r: Option<Layer>)
    ensures r.Some? ==> r.value in layers && r.value.collections.Some?
  {
    if layers == [] then None
    else if Provides(layers[0], depend) then Some(layers[0])
    else Find(depend, layers[1..])
  }

  /** The layer at place `i` is the first that has a collection of the name. */
  predicate FirstWith(depend: string, layers: seq<Layer>, i: nat) {
    && i < |layers| && HasCollection(layers[i], depend)
    && forall h: nat | h < i :: !HasCollection(layers[h], depend)
  }

  predicate HasCollection(layer: Layer, depend: string) {
    match layer.collections
    case None => false
    case Some(cs) => exists c | c in cs :: c.name == depend
  }

  lemma {:induction false} FindIff(depend: string, layers: seq<Layer>, found: Layer)
    ensures Find(depend, layers) == Some(found) <==> exists i: nat | i < |layers| :: FirstWith(depend, layers, i) && layers[i] == found
  {
    if layers != [] {
      FindIff(depend, layers[1..], found);
      assert Provides(layers[0], depend) <==> HasCollection(layers[0], depend);
      if HasCollection(layers[0], depend) {
        assert FirstWith(depend, layers, 0);
      } else {
        if i: nat :| i < |layers| && FirstWith(depend, layers, i) && layers[i] == found {
          forall h: nat | h < i - 1 ensures !HasCollection(layers[1..][h], depend) {
            assert layers[1..][h] == layers[h + 1];
          }
          assert FirstWith(depend, layers[1..], i - 1);
        }
        if i: nat :| i < |layers| - 1 && FirstWith(depend, layers[1..], i) && layers[1..][i] == found {
          forall h: nat | h < i + 1 ensures !HasCollection(layers[h], depend) {
            assert h > 0 ==> layers[h] == layers[1..][h - 1];
          }
          assert FirstWith(depend, layers, i + 1);
        }
      }
    }
  }

  /** Every word of every `depends` string of a layer. */
  predicate DependsOn(layer: Layer, depend: string) {
    layer.collections.Some? && exists c | c in layer.collections.value :: depend in c.depends
  }

  /** `layer` names a layer other than core that nobody provides. */
  ghost predicate Broken(layer: Layer, layers: seq<Layer>) {
    exists d :: DependsOn(layer, d) && d != "core" && Find(d, layers).None?
  }

  ghost predicate Edge(a: Layer, b: Layer, layers: seq<Layer>) {
    exists d :: DependsOn(a, d) && d != "core" && Find(d, layers) == Some(b)
  }

  /** `path` leads from `a` to `b` over dependencies. */
  ghost predicate IsPath(a: Layer, path: seq<Layer>, b: Layer, layers: seq<Layer>)
    decreases |path|
  {
    if path == [] then a == b
    else Edge(a, path[0], layers) && IsPath(path[0], path[1..], b, layers)
  }

  ghost predicate Reachable(a: Layer, b: Layer, layers: seq<Layer>) {
    exists path :: IsPath(a, path, b, layers)
  }

  /** Reachable over at least one dependency. */
  ghost predicate Below(a: Layer, b: Layer, layers: seq<Layer>) {
    exists path :: path != [] && IsPath(a, path, b, layers)
  }

  // ---- the depth-first search ----------------------------------------------------------

  /** The dependency is core, or provided by a layer already listed. */
  ghost predicate Met(d: string, layers: seq<Layer>, ret: seq<Layer>) {
    d == "core" || (Find(d, layers).Some? && Find(d, layers).value in ret)
  }

  ghost predicate AllMet(depends: seq<string>, layers: seq<Layer>, ret: seq<Layer>) {
    forall d | d in depends :: Met(d, layers, ret)
  }

  ghost predicate CollectionsMet(cs: seq<Collection>, layers: seq<Layer>, ret: seq<Layer>) {
    forall c | c in cs :: AllMet(c.depends, layers, ret)
  }

  /** All dependencies of the layer are listed. */
  ghost predicate Done(layer: Layer, layers: seq<Layer>, ret: seq<Layer>) {
    layer.collections.Some? ==> CollectionsMet(layer.collections.value, layers, ret)
  }

  /** From `start`, something broken is reachable. */
  ghost predicate Trouble(start: Layer, layers: seq<Layer>) {
    exists b :: Reachable(start, b, layers) && Broken(b, layers)
  }

  /** A list the search can be handed. */
  ghost predicate Listed(layers: seq<Layer>, ret: seq<Layer>) {
    Distinct(ret) && forall x | x in ret :: x in layers
  }

  /** Every layer listed beyond `base` is finished and lies below `layer`. */
  ghost predicate Grown(layer: Layer, layers: seq<Layer>, base: seq<Layer>, found: seq<Layer>) {
    && base <= found
    && forall x | x in found && x !in base :: Below(layer, x, layers) && Done(x, layers, found)
  }

  /** What a search from `layer` makes of the list it was handed. */
  ghost predicate Searched(layer: Layer, layers: seq<Layer>, ret: seq<Layer>, r: Option<seq<Layer>>) {
    match r
    case None => Trouble(layer, layers)
    case Some(found) => Listed(layers, found) && Grown(layer, layers, ret, found)
  }

  lemma {:induction false} MetMore(layer: Layer, depends: seq<string>, layers: seq<Layer>, ret: seq<Layer>, more: seq<Layer>)
    requires ret <= more
    ensures AllMet(depends, layers, ret) ==> AllMet(depends, layers, more)
    ensures Done(layer, layers, ret) ==> Done(layer, layers, more)
  {
    assert forall x | x in ret :: x in more;
    assert forall d | Met(d, layers, ret) :: Met(d, layers, more);
  }

  lemma ThroughEdge(a: Layer, v: Layer, layers: seq<Layer>)
    requires Edge(a, v, layers)
    ensures Below(a, v, layers)
    ensures forall x | Below(v, x, layers) :: Below(a, x, layers)
    ensures Trouble(v, layers) ==> Trouble(a, layers)
  {
    assert IsPath(a, [v], v, layers);
    forall x | Below(v, x, layers)
      ensures Below(a, x, layers)
    {
      var path :| path != [] && IsPath(v, path, x, layers);
      assert IsPath(a, [v] + path, x, layers);
    }
    if Trouble(v, layers) {
      var b :| Reachable(v, b, layers) && Broken(b, layers);
      var path :| IsPath(v, path, b, layers);
      assert IsPath(a, [v] + path, b, layers);
    }
  }

  /** One dependency more: `v`, appended to `found`, has been searched with result `r`. */
  lemma SearchedThrough(layer: Layer, v: Layer, layers: seq<Layer>, base: seq<Layer>, found: seq<Layer>, r: Option<seq<Layer>>)
    requires Edge(layer, v, layers) && Searched(layer, layers, base, Some(found)) && v !in found
    requires Searched(v, layers, found + [v], r) && (r.Some? ==> Done(v, layers, r.value))
    ensures Searched(layer, layers, base, r)
    ensures r.Some? ==> v in r.value && found <= r.value
  {
    ThroughEdge(layer, v, layers);
    if r.Some? {
      var all := r.value;
      assert found <= found + [v] <= all;
      assert v in found + [v];
      forall x | x in all && x !in base
        ensures Below(layer, x, layers) && Done(x, layers, all)
      {
        if x in found {
          MetMore(x, [], layers, found, all);
        } else if x != v {
          assert x !in found + [v];
        }
      }
    }
  }

  ghost function Unlisted(layers: seq<Layer>, ret: Option<seq<Layer>>): nat {
    if ret.None? then 0 else 1 + |(set x | x in layers) - (set x | x in ret.value)|
  }

  lemma UnlistedShrinks(layers: seq<Layer>, ret: seq<Layer>, v: Layer, more: seq<Layer>)
    requires v in layers && v !in ret && ret + [v] <= more
    ensures Unlisted(layers, Some(more)) < Unlisted(layers, Some(ret))
  {
    var all := set x | x in layers;
    var a, b := all - (set x | x in ret), all - (set x | x in more);
    assert v in ret + [v];
    assert forall x | x in ret :: x in (ret + [v]);
    assert v in a && v !in b && b <= a - {v};
    SubsetSize(b, a - {v});
  }

  lemma {:induction false} SubsetSize<T>(a: set<T>, b: set<T>)
    requires a <= b
    ensures |a| <= |b|
  {
    if a != {} {
      var x :| x in a;
      SubsetSize(a - {x}, b - {x});
    }
  }

  method RecurseDependencies(depends: seq<string>, layer: Layer, layers: seq<Layer>, ret0: Option<seq<Layer>>)
    returns (ret: Option<seq<Layer>>)
    requires forall d | d in depends :: DependsOn(layer, d)
    requires ret0.Some? ==> Listed(layers, ret0.value)
    ensures ret0.None? ==> ret.None?
    ensures ret0.Some? ==> Searched(layer, layers, ret0.value, ret)
    ensures ret.Some? ==> AllMet(depends, layers, ret.value)
    decreases Unlisted(layers, ret0), 0
  {
    ret := ret0;
    for i := 0 to |depends|
      invariant ret0.None? ==> ret.None?
      invariant ret0.Some? ==> Searched(layer, layers, ret0.value, ret)
      invariant ret.Some? ==> AllMet(depends[..i], layers, ret.value)
      invariant Unlisted(layers, ret) <= Unlisted(layers, ret0)
    {
      var depend := depends[i];
      assert depends[..i + 1] == depends[..i] + [depend];
      if depend == "core" {
        continue;
      }
      var layerDepend := FindLayer(depend, layers);
      if layerDepend.None? {
        assert IsPath(layer, [], layer, layers) && Broken(layer, layers);
        ret := None;
        continue;
      }
      var v := layerDepend.value;
      if ret.None? || v in ret.value {
        continue;
      }
      var found := ret.value;
      UnlistedShrinks(layers, found, v, found + [v]);
      assert Edge(layer, v, layers);
      ret := VisitCollections(v, layers, Some(found + [v]));
      SearchedThrough(layer, v, layers, ret0.value, found, ret);
      if ret.Some? {
        MetMore(layer, depends[..i], layers, found, ret.value);
        UnlistedShrinks(layers, found, v, ret.value);
      }
    }
    assert depends[..|depends|] == depends;
  }

  /** The loop over the collections of one layer. */
  method VisitCollections(v: Layer, layers: seq<Layer>, ret0: Option<seq<Layer>>) returns (ret: Option<seq<Layer>>)
    requires ret0.Some? ==> Listed(layers, ret0.value)
    ensures ret0.None? ==> ret.None?
    ensures ret0.Some? ==> Searched(v, layers, ret0.value, ret)
    ensures ret.Some? ==> Done(v, layers, ret.value)
    decreases Unlisted(layers, ret0), 1
  {
    ret := ret0;
    if v.collections.None? {
      return;
    }
    var cs := v.collections.value;
    for k := 0 to |cs|
      invariant ret0.None? ==> ret.None?
      invariant ret0.Some? ==> Searched(v, layers, ret0.value, ret)
      invariant ret.Some? ==> CollectionsMet(cs[..k], layers, ret.value)
      invariant Unlisted(layers, ret) <= Unlisted(layers, ret0)
    {
      assert cs[..k + 1] == cs[..k] + [cs[k]];
      if cs[k].depends == [] {
        continue;
      }
      var before := ret;
      ret := RecurseDependencies(cs[k].depends, v, layers, before);
      if before.Some? {
        SearchedAgain(v, layers, ret0.value, before.value, ret, cs[..k]);
      }
    }
    assert cs[..|cs|] == cs;
  }

  lemma SearchedAgain(v: Layer, layers: seq<Layer>, base: seq<Layer>, found: seq<Layer>, r: Option<seq<Layer>>, cs: seq<Collection>)
    requires Searched(v, layers, base, Some(found)) && Searched(v, layers, found, r) && CollectionsMet(cs, layers, found)
    ensures Searched(v, layers, base, r)
    ensures r.Some? ==> CollectionsMet(cs, layers, r.value) && Unlisted(layers, r) <= Unlisted(layers, Some(found))
  {
    if r.Some? {
      forall x | x in r.value && x !in base
        ensures Below(v, x, layers) && Done(x, layers, r.value)
      {
        if x in found {
          MetMore(x, [], layers, found, r.value);
        }
      }
      forall c | c in cs
        ensures AllMet(c.depends, layers, r.value)
      {
        MetMore(v, c.depends, layers, found, r.value);
      }
      assert forall x | x in found :: x in r.value;
      SubsetSize((set x | x in layers) - (set x | x in r.value), (set x | x in layers) - (set x | x in found));
    }
  }

  /** Layers listed with all their dependencies are closed under reachability. */
  lemma {:induction false} ClosedUnderPaths(a: Layer, path: seq<Layer>, b: Layer, layers: seq<Layer>, found: seq<Layer>)
    requires Done(a, layers, found) && (forall x | x in found :: Done(x, layers, found))
    requires IsPath(a, path, b, layers)
    ensures Done(b, layers, found) && (path != [] ==> b in found)
    decreases |path|
  {
    if path != [] {
      var d :| DependsOn(a, d) && d != "core" && Find(d, layers) == Some(path[0]);
      assert Met(d, layers, found);
      ClosedUnderPaths(path[0], path[1..], b, layers, found);
    }
  }

  /** `get_layer_dependencies`: None exactly when the start or a layer reachable from it names a missing
      dependency other than core; otherwise exactly the layers reachable over one or more
      dependencies, each once. Layer graphs may have cycles. */
  method GetLayerDependencies(layer: Layer, layers: seq<Layer>) returns (r: Option<seq<Layer>>)
    requires layer.collections.Some?
    ensures r.None? <==> Trouble(layer, layers)
    ensures r.Some? ==> Distinct(r.value) && forall x :: x in r.value <==> Below(layer, x, layers)
  {
    r := VisitCollections(layer, layers, Some([]));
    if r.Some? {
      forall b, path | IsPath(layer, path, b, layers)
        ensures Done(b, layers, r.value) && (path != [] ==> b in r.value)
      {
        ClosedUnderPaths(layer, path, b, layers, r.value);
      }
      forall b | Done(b, layers, r.value)
        ensures !Broken(b, layers)
      {
        forall d | DependsOn(b, d) && d != "core"
          ensures Find(d, layers).Some?
        {
          assert Met(d, layers, r.value);
        }
      }
    }
  }
}
