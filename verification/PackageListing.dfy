/** What the list built by `files_from_filevars` holds. */
module PackageListing {
  import opened Wrappers
  import opened PackageFiles

  /** No directory above the path is a link. */
  predicate Clean(tree: Node, comps: seq<string>) {
    forall i | 0 <= i < |comps| :: Lookup(tree, comps[..i]) != Some(Link)
  }

  /** `x` is `base` itself or an entry of the tree below it. */
  predicate Covers(tree: Node, base: seq<string>, x: seq<string>) {
    x == base || (base <= x && Lookup(tree, x).Some?)
  }

  predicate Covered(tree: Node, queue: seq<Raw>, x: seq<string>) {
    exists i | 0 <= i < |queue| :: Covers(tree, Norm(Cut(tree, queue[i])), x)
  }

  predicate Holds(files: seq<Raw>, x: seq<string>) {
    exists i | 0 <= i < |files| :: Norm(files[i]) == x
  }

  // ---- Norm and Lookup over prefixes -----------------------------------------------------

  lemma {:induction false} NormMono(f: Raw, k: nat)
    requires k <= |f|
    ensures Norm(f[..k]) <= Norm(f)
  {
    if k < |f| {
      NormMono(f[..|f| - 1], k);
      assert f[..|f| - 1][..k] == f[..k];
    } else {
      assert f[..k] == f;
    }
  }

  lemma {:induction false} NormCover(f: Raw, i: nat) returns (k: nat)
    requires i < |Norm(f)|
    ensures k < |f| && Norm(f[..k]) == Norm(f)[..i]
  {
    var n := |f| - 1;
    if i < |Norm(f[..n])| {
      k := NormCover(f[..n], i);
      assert f[..n][..k] == f[..k];
    } else {
      k := n;
    }
  }

  /** Above an entry there are only directories. */
  lemma {:induction false} DirsAbove(tree: Node, x: seq<string>, i: nat)
    requires i < |x| && Lookup(tree, x).Some?
    ensures Lookup(tree, x[..i]).Some? && Lookup(tree, x[..i]).value.Dir?
    decreases |x|
  {
    if i < |x| - 1 {
      DirsAbove(tree, x[..|x| - 1], i);
      assert x[..|x| - 1][..i] == x[..i];
    }
  }

  lemma {:induction false} NoLinkAbove(tree: Node, f: Raw, end: nat, k: nat)
    requires tree.Dir? && k < end <= |f|
    requires forall m | 0 < m < end && f[m - 1] != "." :: !IsLink(tree, f[..m])
    ensures !IsLink(tree, f[..k])
  {
    if k > 0 && f[k - 1] == "." {
      assert f[..k][..k - 1] == f[..k - 1];
      NoLinkAbove(tree, f, end, k - 1);
    }
  }

  lemma CleanWhenNoLink(tree: Node, f: Raw)
    requires forall k | 0 <= k < |f| :: !IsLink(tree, f[..k])
    ensures Clean(tree, Norm(f))
  {
    forall i | 0 <= i < |Norm(f)| ensures Lookup(tree, Norm(f)[..i]) != Some(Link) {
      var k := NormCover(f, i);
    }
  }

  /** The cut path is the shortest prefix that is a link, or the whole path when no directory of it is one. */
  lemma CutAtFirstLink(tree: Node, f: Raw)
    requires tree.Dir?
    ensures Clean(tree, Norm(Cut(tree, f))) && Norm(Cut(tree, f)) <= Norm(f)
    ensures Norm(Cut(tree, f)) == Norm(f) || IsLink(tree, Cut(tree, f))
    ensures Clean(tree, Norm(f)) ==> Norm(Cut(tree, f)) == Norm(f)
  {
    var r := LinkedDir(tree, f, 0);
    var g := if r.Some? then f[..r.value] else f;
    NormMono(f, |g|);
    assert f[..|g|] == g;
    forall k | 0 <= k < |g| ensures !IsLink(tree, g[..k]) {
      NoLinkAbove(tree, f, |g|, k);
      assert g[..k] == f[..k];
    }
    CleanWhenNoLink(tree, g);
    if |Norm(g)| < |Norm(f)| {
      assert Norm(f)[..|Norm(g)|] == Norm(g);
    }
  }

  lemma NoLinkBefore(tree: Node, f: Raw, name: string, k: nat)
    requires Clean(tree, Norm(f)) && IsDir(tree, f) && k < |Join(f, name)|
    ensures !IsLink(tree, Join(f, name)[..k])
  {
    assert Join(f, name)[..k] == f[..k];
    NormMono(f, k);
    var m := |Norm(f[..k])|;
    assert Norm(f)[..m] == Norm(f[..k]);
    assert m == |Norm(f)| ==> Norm(f)[..m] == Norm(f);
  }

  /** The children of a listed directory stay as they are. */
  lemma ChildClean(tree: Node, f: Raw, name: string)
    requires Clean(tree, Norm(f)) && IsDir(tree, f)
    ensures LinkedDir(tree, Join(f, name), 0).None?
  {
    forall k | 0 <= k < |Join(f, name)| ensures !IsLink(tree, Join(f, name)[..k]) {
      NoLinkBefore(tree, f, name, k);
    }
  }

  lemma {:induction false} ListedAt(f: Raw, cs: seq<Child>, i: nat)
    requires i < |cs|
    ensures |Listed(f, cs)| == |cs| && Listed(f, cs)[i] == Join(f, cs[i].name)
  {
    if i > 0 {
      ListedAt(f, cs[1..], i - 1);
    } else if |cs| > 1 {
      ListedAt(f, cs[1..], 0);
    }
  }

  lemma {:induction false} ListedLength(f: Raw, cs: seq<Child>)
    ensures |Listed(f, cs)| == |cs|
  {
    if cs != [] {
      ListedLength(f, cs[1..]);
    }
  }

  /** Child `i` of a listed directory: its path, and that it is not cut. */
  lemma ChildListed(tree: Node, f: Raw, i: nat)
    requires WellFormed(tree) && tree.Dir? && Clean(tree, Norm(f))
    requires IsDir(tree, f) && i < |Lookup(tree, Norm(f)).value.children|
    ensures var c := Lookup(tree, Norm(f)).value.children[i];
            && i < |Children(tree, f)| && Children(tree, f)[i] == Join(f, c.name)
            && LinkedDir(tree, Children(tree, f)[i], 0).None?
            && Norm(Cut(tree, Children(tree, f)[i])) == Norm(f) + [c.name]
            && Lookup(tree, Norm(f) + [c.name]) == Some(c.node)
  {
    ListedAt(f, Lookup(tree, Norm(f)).value.children, i);
    ChildLookup(tree, f, i);
    ChildClean(tree, f, Lookup(tree, Norm(f)).value.children[i].name);
  }

  lemma FoundChild(cs: seq<Child>, name: string) returns (i: nat)
    requires FindChild(cs, name).Some?
    ensures i < |cs| && cs[i].name == name
  {
    i :| 0 <= i < |cs| && cs[i].name == name;
  }

  // ---- The list ------------------------------------------------------------------------

  lemma PrefixFound(tree: Node, x: seq<string>, n: nat)
    requires n <= |x| && Lookup(tree, x).Some?
    ensures Lookup(tree, x[..n]).Some?
  {
    if n < |x| {
      DirsAbove(tree, x, n);
    } else {
      assert x[..n] == x;
    }
  }

  lemma FoundInParent(tree: Node, base: seq<string>, name: string)
    requires Lookup(tree, base + [name]).Some?
    ensures Lookup(tree, base).Some? && Lookup(tree, base).value.Dir?
    ensures FindChild(Lookup(tree, base).value.children, name).Some?
  {
    assert (base + [name])[..|base|] == base;
  }

  /** The directory above an entry, and the child on the way to it. */
  lemma ChildOnTheWay(tree: Node, base: seq<string>, x: seq<string>)
    requires base < x && Lookup(tree, x).Some?
    ensures var n := |base|;
            && Lookup(tree, base).Some? && Lookup(tree, base).value.Dir?
            && FindChild(Lookup(tree, base).value.children, x[n]).Some?
            && base + [x[n]] <= x
  {
    var n := |base|;
    PrefixFound(tree, x, n + 1);
    assert x[..n + 1] == base + [x[n]];
    FoundInParent(tree, base, x[n]);
  }

  /** An entry strictly below `f` lies at or below one child of `f`. */
  lemma BelowThroughChild(tree: Node, f: Raw, x: seq<string>)
    requires WellFormed(tree) && tree.Dir? && Clean(tree, Norm(f))
    requires Norm(f) < x && Lookup(tree, x).Some?
    ensures Covered(tree, Children(tree, f), x)
  {
    ChildOnTheWay(tree, Norm(f), x);
    var i := FoundChild(Lookup(tree, Norm(f)).value.children, x[|Norm(f)|]);
    ChildListed(tree, f, i);
    assert Covers(tree, Norm(Cut(tree, Children(tree, f)[i])), x);
  }

  lemma ChildBelow(tree: Node, f: Raw, x: seq<string>)
    requires WellFormed(tree) && tree.Dir? && Clean(tree, Norm(f))
    requires Covered(tree, Children(tree, f), x)
    ensures Norm(f) < x && Lookup(tree, x).Some?
  {
    var i :| 0 <= i < |Children(tree, f)| && Covers(tree, Norm(Cut(tree, Children(tree, f)[i])), x);
    ListedLength(f, Lookup(tree, Norm(f)).value.children);
    ChildListed(tree, f, i);
  }

  lemma CoveredAppend(tree: Node, a: seq<Raw>, b: seq<Raw>, x: seq<string>)
    ensures Covered(tree, a + b, x) <==> Covered(tree, a, x) || Covered(tree, b, x)
  {
    if i :| 0 <= i < |a| && Covers(tree, Norm(Cut(tree, a[i])), x) {
      assert (a + b)[i] == a[i];
    }
    if i :| 0 <= i < |b| && Covers(tree, Norm(Cut(tree, b[i])), x) {
      assert (a + b)[|a| + i] == b[i];
    }
  }

  lemma CoveredFirst(tree: Node, queue: seq<Raw>, x: seq<string>)
    requires queue != []
    ensures Covered(tree, queue, x) <==> Covers(tree, Norm(Cut(tree, queue[0])), x) || Covered(tree, queue[1..], x)
  {
    CoveredAppend(tree, queue[..1], queue[1..], x);
    assert queue[..1] + queue[1..] == queue;
    if Covers(tree, Norm(Cut(tree, queue[0])), x) {
      assert Covers(tree, Norm(Cut(tree, queue[..1][0])), x);
    }
  }

  lemma HoldsFirst(f: Raw, files: seq<Raw>, x: seq<string>)
    ensures Holds([f] + files, x) <==> Norm(f) == x || Holds(files, x)
  {
    var all := [f] + files;
    assert all[0] == f && all[1..] == files;
    if i :| 0 <= i < |files| && Norm(files[i]) == x {
      assert all[i + 1] == files[i];
    }
    if i :| 0 <= i < |all| && Norm(all[i]) == x && i > 0 {
      assert files[i - 1] == all[i];
    }
  }

  /** The list is exactly each path asked for, cut at its first directory link, with everything the
      tree has below it. */
  lemma {:induction false} ExpandMeaning(tree: Node, queue: seq<Raw>, x: seq<string>)
    requires WellFormed(tree) && tree.Dir?
    ensures Holds(Expand(tree, queue), x) <==> Covered(tree, queue, x)
    decreases Weights(tree, queue)
  {
    if queue != [] {
      var f := Cut(tree, queue[0]);
      NextWeighsLess(tree, queue);
      ExpandMeaning(tree, queue[1..] + Children(tree, f), x);
      HoldsFirst(f, Expand(tree, queue[1..] + Children(tree, f)), x);
      CoveredFirst(tree, queue, x);
      CoveredAppend(tree, queue[1..], Children(tree, f), x);
      CoversSplit(tree, queue[0], x);
    }
  }

  lemma CoversSplit(tree: Node, asked: Raw, x: seq<string>)
    requires WellFormed(tree) && tree.Dir?
    ensures var f := Cut(tree, asked);
            Covers(tree, Norm(f), x) <==> Norm(f) == x || Covered(tree, Children(tree, f), x)
  {
    var f := Cut(tree, asked);
    CutAtFirstLink(tree, asked);
    if Covers(tree, Norm(f), x) && x != Norm(f) {
      BelowThroughChild(tree, f, x);
    }
    if Covered(tree, Children(tree, f), x) {
      ChildBelow(tree, f, x);
    }
  }

  /** Nothing in the list lies beneath a directory link, and a listed directory's children are all listed. */
  lemma ListIsClosed(tree: Node, queue: seq<Raw>, x: seq<string>)
    requires WellFormed(tree) && tree.Dir? && Holds(Expand(tree, queue), x)
    ensures Clean(tree, x)
    ensures forall y | x <= y && Lookup(tree, y).Some? :: Holds(Expand(tree, queue), y)
  {
    ExpandMeaning(tree, queue, x);
    var i :| 0 <= i < |queue| && Covers(tree, Norm(Cut(tree, queue[i])), x);
    CutAtFirstLink(tree, queue[i]);
    if x != Norm(Cut(tree, queue[i])) {
      forall k | 0 <= k < |x| ensures Lookup(tree, x[..k]) != Some(Link) {
        DirsAbove(tree, x, k);
      }
    }
    forall y | x <= y && Lookup(tree, y).Some? ensures Holds(Expand(tree, queue), y) {
      assert Covers(tree, Norm(Cut(tree, queue[i])), y);
      ExpandMeaning(tree, queue, y);
    }
  }

  // ---- The warnings --------------------------------------------------------------------

  function Warnings(tree: Node, asked: seq<Raw>): seq<Raw> {
    if asked == [] then [] else Warning(tree, asked[0]) + Warnings(tree, asked[1..])
  }

  lemma {:induction false} WarningsAppend(tree: Node, a: seq<Raw>, b: seq<Raw>)
    requires Warnings(tree, b) == []
    ensures Warnings(tree, a + b) == Warnings(tree, a)
  {
    if a == [] {
      assert a + b == b;
    } else {
      assert (a + b)[1..] == a[1..] + b;
      WarningsAppend(tree, a[1..], b);
    }
  }

  lemma {:induction false} NoWarnings(tree: Node, fs: seq<Raw>)
    requires forall i | 0 <= i < |fs| :: LinkedDir(tree, fs[i], 0).None?
    ensures Warnings(tree, fs) == []
  {
    if fs != [] {
      NoWarnings(tree, fs[1..]);
    }
  }

  /** Only paths asked for are warned about, each once and in order: what a directory adds never lies
      under a link. */
  lemma {:induction false} WarnedAreAsked(tree: Node, asked: seq<Raw>)
    requires WellFormed(tree) && tree.Dir?
    ensures Warned(tree, asked) == Warnings(tree, asked)
    decreases Weights(tree, asked)
  {
    if asked != [] {
      var f := Cut(tree, asked[0]);
      NextWeighsLess(tree, asked);
      CutAtFirstLink(tree, asked[0]);
      forall i | 0 <= i < |Children(tree, f)| ensures LinkedDir(tree, Children(tree, f)[i], 0).None? {
        ListedLength(f, Lookup(tree, Norm(f)).value.children);
        ChildListed(tree, f, i);
      }
      NoWarnings(tree, Children(tree, f));
      WarningsAppend(tree, asked[1..], Children(tree, f));
      WarnedAreAsked(tree, asked[1..] + Children(tree, f));
    }
  }

  /** A directory on the way is a link: above the last component, or all of the path, spelled with something empty
      behind it. */
  predicate LinkOnTheWay(tree: Node, f: Raw) {
    exists k | 0 < k < |f| :: Lookup(tree, Norm(f[..k])) == Some(Link)
  }

  lemma WarningIff(tree: Node, f: Raw)
    requires tree.Dir?
    ensures Warning(tree, f) == if LinkOnTheWay(tree, f) then [f] else []
  {
    var r := LinkedDir(tree, f, 0);
    if r.Some? {
      assert Lookup(tree, Norm(f[..r.value])) == Some(Link);
    } else if k :| 0 < k < |f| && Lookup(tree, Norm(f[..k])) == Some(Link) {
      NoLinkAbove(tree, f, |f|, k);
    }
  }

  lemma {:induction false} WarningsPlaces(tree: Node, asked: seq<Raw>) returns (ix: seq<nat>)
    requires tree.Dir?
    ensures Picks(asked, (f: Raw) => LinkOnTheWay(tree, f), ix)
    ensures |Warnings(tree, asked)| == |ix| && forall k | 0 <= k < |ix| :: Warnings(tree, asked)[k] == asked[ix[k]]
  {
    ix := [];
    if asked != [] {
      var init, last := asked[..|asked| - 1], asked[|asked| - 1];
      assert asked == init + [last];
      ix := WarningsPlaces(tree, init);
      PicksGrow(init, last, (f: Raw) => LinkOnTheWay(tree, f), ix);
      WarningsMore(tree, init, last);
      ix := ix + if LinkOnTheWay(tree, last) then [|init|] else [];
    }
  }

  lemma {:induction false} WarningsMore(tree: Node, asked: seq<Raw>, last: Raw)
    requires tree.Dir?
    ensures Warnings(tree, asked + [last]) == Warnings(tree, asked) + if LinkOnTheWay(tree, last) then [last] else []
  {
    if asked == [] {
      assert asked + [last] == [last] && [last][1..] == [];
      WarningIff(tree, last);
    } else {
      assert (asked + [last])[1..] == asked[1..] + [last];
      WarningsMore(tree, asked[1..], last);
    }
  }

  /** Warned about are the entries asked for with a link on the way, in order. */
  lemma WarnedPlaces(tree: Node, asked: seq<Raw>) returns (ix: seq<nat>)
    requires WellFormed(tree) && tree.Dir?
    ensures Picks(asked, (f: Raw) => LinkOnTheWay(tree, f), ix)
    ensures |Warned(tree, asked)| == |ix| && forall k | 0 <= k < |ix| :: Warned(tree, asked)[k] == asked[ix[k]]
  {
    WarnedAreAsked(tree, asked);
    ix := WarningsPlaces(tree, asked);
  }
}
