/** The order in which the packages take their files, and the whole of populate_packages over it. */
module PackageOrder {
  import opened Wrappers
  import opened PackageFiles
  import opened PackageListing
  import opened Packages
  import opened PackagesResults
  import opened PackagesLeftover

  predicate EndsWith(s: string, suffix: string) {
    |suffix| <= |s| && s[|s| - |suffix|..] == suffix
  }

  function Priority(pkg: string, autodebug: bool): int {
    if EndsWith(pkg, "-src") then 10 else if autodebug && EndsWith(pkg, "-dbg") then 30 else 50
  }

  /** The packages of one priority from index `i` on; a repeated name counts where it first stands. */
  function OfPriority(packages: seq<string>, autodebug: bool, priority: int, i: nat): seq<string>
    requires i <= |packages|
    decreases |packages| - i
  {
    if i == |packages| then []
    else
      (if Priority(packages[i], autodebug) == priority && packages[i] !in packages[..i] then [packages[i]] else []) +
      OfPriority(packages, autodebug, priority, i + 1)
  }

  /** `sorted(package_dict.keys(), key=package_dict.get)`. */
  function Ordered(packages: seq<string>, autodebug: bool): seq<string> {
    OfPriority(packages, autodebug, 10, 0) + OfPriority(packages, autodebug, 30, 0) +
    OfPriority(packages, autodebug, 50, 0)
  }

  function FirstIndex(packages: seq<string>, pkg: string): (i: nat)
    requires pkg in packages
    ensures i < |packages| && packages[i] == pkg && pkg !in packages[..i]
    decreases |packages|
  {
    var n := |packages| - 1;
    if pkg in packages[..n] then
      assert forall i | 0 <= i <= n :: packages[..n][..i] == packages[..i];
      FirstIndex(packages[..n], pkg)
    else n
  }

  /** The sort key `(priority, i)`. */
  predicate KeyLess(packages: seq<string>, autodebug: bool, p: string, q: string)
    requires p in packages && q in packages
  {
    || Priority(p, autodebug) < Priority(q, autodebug)
    || (Priority(p, autodebug) == Priority(q, autodebug) && FirstIndex(packages, p) < FirstIndex(packages, q))
  }

  lemma FirstIndexIs(packages: seq<string>, i: nat)
    requires i < |packages| && packages[i] !in packages[..i]
    ensures FirstIndex(packages, packages[i]) == i
  {
    var j := FirstIndex(packages, packages[i]);
    assert forall m | 0 <= m < i :: packages[..i][m] == packages[m];
    assert forall m | 0 <= m < j :: packages[..j][m] == packages[m];
  }

  lemma {:induction false} OfPriorityMembers(packages: seq<string>, autodebug: bool, priority: int, i: nat, p: string)
    requires i <= |packages|
    ensures p in OfPriority(packages, autodebug, priority, i) <==>
            p in packages && Priority(p, autodebug) == priority && i <= FirstIndex(packages, p)
    decreases |packages| - i
  {
    if i < |packages| {
      OfPriorityMembers(packages, autodebug, priority, i + 1, p);
      if packages[i] !in packages[..i] {
        FirstIndexIs(packages, i);
      }
      assert p in packages && FirstIndex(packages, p) == i ==> packages[i] == p && p !in packages[..i];
    }
  }

  predicate IndexAscending(packages: seq<string>, s: seq<string>) {
    && (forall p | p in s :: p in packages)
    && (forall a, b | 0 <= a < b < |s| :: FirstIndex(packages, s[a]) < FirstIndex(packages, s[b]))
  }

  lemma IndexAscendingCons(packages: seq<string>, p: string, s: seq<string>)
    requires IndexAscending(packages, s) && p in packages
    requires forall q | q in s :: FirstIndex(packages, p) < FirstIndex(packages, q)
    ensures IndexAscending(packages, [p] + s)
  {
    var o := [p] + s;
    assert forall b | 0 < b < |o| :: o[b] == s[b - 1];
    assert forall q :: q in o <==> q == p || q in s;
    forall a, b | 0 <= a < b < |o| ensures FirstIndex(packages, o[a]) < FirstIndex(packages, o[b]) {
      assert s[b - 1] in s;
    }
  }

  lemma {:induction false} OfPriorityAscends(packages: seq<string>, autodebug: bool, priority: int, i: nat)
    requires i <= |packages|
    ensures IndexAscending(packages, OfPriority(packages, autodebug, priority, i))
    decreases |packages| - i
  {
    if i < |packages| {
      OfPriorityAscends(packages, autodebug, priority, i + 1);
      var rest := OfPriority(packages, autodebug, priority, i + 1);
      if Priority(packages[i], autodebug) == priority && packages[i] !in packages[..i] {
        FirstIndexIs(packages, i);
        forall q | q in rest ensures FirstIndex(packages, packages[i]) < FirstIndex(packages, q) {
          OfPriorityMembers(packages, autodebug, priority, i + 1, q);
        }
        IndexAscendingCons(packages, packages[i], rest);
      } else {
        assert [] + rest == rest;
      }
    }
  }

  /** The packages of one priority, ascending in key. */
  lemma OfPriorityFacts(packages: seq<string>, autodebug: bool, priority: int)
    ensures var s := OfPriority(packages, autodebug, priority, 0);
            && (forall p :: p in s <==> p in packages && Priority(p, autodebug) == priority)
            && Ascending(packages, autodebug, s)
  {
    var s := OfPriority(packages, autodebug, priority, 0);
    forall p ensures p in s <==> p in packages && Priority(p, autodebug) == priority {
      OfPriorityMembers(packages, autodebug, priority, 0, p);
    }
    OfPriorityAscends(packages, autodebug, priority, 0);
    forall a, b | 0 <= a < b < |s| ensures KeyLess(packages, autodebug, s[a], s[b]) {
      assert s[a] in s && s[b] in s;
    }
  }

  predicate Ascending(packages: seq<string>, autodebug: bool, s: seq<string>) {
    && (forall p | p in s :: p in packages)
    && (forall a, b | 0 <= a < b < |s| :: KeyLess(packages, autodebug, s[a], s[b]))
  }

  lemma AscendingAppend(packages: seq<string>, autodebug: bool, s: seq<string>, t: seq<string>)
    requires Ascending(packages, autodebug, s) && Ascending(packages, autodebug, t)
    requires forall p, q | p in s && q in t :: KeyLess(packages, autodebug, p, q)
    ensures Ascending(packages, autodebug, s + t)
  {
    var o := s + t;
    forall a, b | 0 <= a < b < |o| ensures KeyLess(packages, autodebug, o[a], o[b]) {
      assert a < |s| ==> o[a] == s[a];
      assert b < |s| ==> o[b] == s[b];
      assert a >= |s| ==> o[a] == t[a - |s|];
      assert b >= |s| ==> o[b] == t[b - |s|];
    }
  }

  /** The order holds every package and is ascending in (priority, first index); these two facts fix it. */
  lemma OrderIsSorted(packages: seq<string>, autodebug: bool)
    ensures var o := Ordered(packages, autodebug);
            && (forall p :: p in o <==> p in packages)
            && Ascending(packages, autodebug, o)
  {
    OfPriorityFacts(packages, autodebug, 10);
    OfPriorityFacts(packages, autodebug, 30);
    OfPriorityFacts(packages, autodebug, 50);
    var s, d, r := OfPriority(packages, autodebug, 10, 0), OfPriority(packages, autodebug, 30, 0),
                   OfPriority(packages, autodebug, 50, 0);
    Members(s, d);
    Members(s + d, r);
    AscendingAppend(packages, autodebug, s, d);
    AscendingAppend(packages, autodebug, s + d, r);
  }

  /** The name is some text with `-src` behind it. */
  ghost predicate IsSource(pkg: string) {
    exists stem: string :: pkg == stem + "-src"
  }

  ghost predicate IsDebugPackage(pkg: string) {
    exists stem: string :: pkg == stem + "-dbg"
  }

  lemma EndsWithIff(pkg: string)
    ensures EndsWith(pkg, "-src") <==> IsSource(pkg)
    ensures EndsWith(pkg, "-dbg") <==> IsDebugPackage(pkg)
    ensures !(IsSource(pkg) && IsDebugPackage(pkg))
  {
    StemOf(pkg, "-src");
    StemOf(pkg, "-dbg");
    assert "-src"[1] != "-dbg"[1];
  }

  lemma StemOf(pkg: string, suffix: string)
    ensures EndsWith(pkg, suffix) <==> exists stem: string :: pkg == stem + suffix
  {
    if EndsWith(pkg, suffix) {
      assert pkg == pkg[..|pkg| - |suffix|] + suffix;
    }
  }

  /** The first of equal names in PACKAGES. */
  predicate FirstAt(packages: seq<string>, i: nat, pkg: string) {
    i < |packages| && packages[i] == pkg && pkg !in packages[..i]
  }

  /** Sources come before debug packages where these are split off, both before all others, and packages of one kind
      as PACKAGES has them. */
  ghost predicate TakesBefore(autodebug: bool, p: string, i: nat, q: string, j: nat) {
    if IsSource(p) || IsSource(q) then IsSource(p) && (IsSource(q) ==> i < j)
    else if autodebug && (IsDebugPackage(p) || IsDebugPackage(q)) then IsDebugPackage(p) && (IsDebugPackage(q) ==> i < j)
    else i < j
  }

  /** In the order of the packages, the one before takes its files first. */
  lemma SourcesThenDebug(packages: seq<string>, autodebug: bool, a: nat, b: nat, i: nat, j: nat)
    requires a < |Ordered(packages, autodebug)| && b < |Ordered(packages, autodebug)|
    requires FirstAt(packages, i, Ordered(packages, autodebug)[a]) && FirstAt(packages, j, Ordered(packages, autodebug)[b])
    ensures a < b <==> TakesBefore(autodebug, Ordered(packages, autodebug)[a], i, Ordered(packages, autodebug)[b], j)
  {
    var o := Ordered(packages, autodebug);
    OrderIsSorted(packages, autodebug);
    FirstIndexIs(packages, i);
    FirstIndexIs(packages, j);
    KeyLessIff(packages, autodebug, o[a], o[b]);
    KeyLessIff(packages, autodebug, o[b], o[a]);
  }

  lemma KeyLessIff(packages: seq<string>, autodebug: bool, p: string, q: string)
    requires p in packages && q in packages
    ensures KeyLess(packages, autodebug, p, q) <==>
            TakesBefore(autodebug, p, FirstIndex(packages, p), q, FirstIndex(packages, q))
  {
    EndsWithIff(p);
    EndsWithIff(q);
  }

  lemma Members(s: seq<string>, t: seq<string>)
    ensures forall p :: p in s + t <==> p in s || p in t
  {
  }

  // ---- The lists -------------------------------------------------------------------------

  /** ".debug" stands somewhere in the path, or ".debug-static" above its last component. */
  predicate IsDebug(x: seq<string>) {
    exists i | 0 <= i < |x| :: x[i] == ".debug" || (x[i] == ".debug-static" && i + 1 < |x|)
  }

  function DebugTexts(entries: seq<seq<string>>): seq<Raw> {
    if entries == [] then []
    else (if IsDebug(entries[0]) then [Dotted(entries[0])] else []) + DebugTexts(entries[1..])
  }

  /** The list walked for one package, `asked` being its FILES after globbing. */
  function ListOf(tree: Node, pkg: string, asked: seq<Raw>, autodebug: bool): seq<Raw>
    requires WellFormed(tree)
  {
    Expand(tree, asked) + if autodebug && EndsWith(pkg, "-dbg") then DebugTexts(Entries(tree, [])) else []
  }

  function Lists(tree: Node, packages: seq<string>, filesVar: map<string, seq<Raw>>, autodebug: bool): (r: seq<seq<Raw>>)
    requires WellFormed(tree)
    ensures |r| == |packages|
  {
    if packages == [] then []
    else
      var asked := if packages[0] in filesVar then filesVar[packages[0]] else [];
      [ListOf(tree, packages[0], asked, autodebug)] + Lists(tree, packages[1..], filesVar, autodebug)
  }

  lemma FirstParent(f: Raw)
    requires f != [] && f[0] == "."
    ensures Parent(f, 1) == ["."] && f[..1] == ["."] && Canonical(["."])
  {
    assert Parent(f, 1) == Join(Parent(f, 0), f[0]);
    assert [""][..0] == [];
    DottedCanonical([]);
    assert Dotted([]) == ["."];
  }

  lemma NextParent(f: Raw, k: nat)
    requires Canonical(f) && 1 < k <= |f| && Canonical(f[..k - 1]) && Parent(f, k - 1) == f[..k - 1]
    ensures Parent(f, k) == f[..k] && Canonical(f[..k])
  {
    NormProper(f, k - 2);
    assert f[k - 1] == Norm(f)[k - 2];
    CanonicalJoin(f[..k - 1], f[k - 1]);
    assert f[..k] == f[..k - 1] + [f[k - 1]];
  }

  lemma {:induction false} ParentCanonical(f: Raw, k: nat)
    requires Canonical(f) && 0 < k <= |f|
    ensures Parent(f, k) == f[..k] && Canonical(f[..k])
  {
    if k == 1 {
      FirstParent(f);
    } else {
      ParentCanonical(f, k - 1);
      NextParent(f, k);
    }
  }

  /** An entry of FILES spelled in the one way; with a slash at the end it names no plain file. */
  predicate TidyAsked(tree: Node, f: Raw) {
    Canonical(f) || (Slashed(f) && Lookup(tree, Norm(f)) != Some(Leaf))
  }

  predicate AllTidyAsked(tree: Node, files: seq<Raw>) {
    forall i | 0 <= i < |files| :: TidyAsked(tree, files[i])
  }

  /** What a directory adds is spelled without a slash at the end, whether it has one itself or not. */
  lemma ChildrenCanonical(tree: Node, f: Raw)
    requires WellFormed(tree) && (Canonical(f) || Slashed(f))
    ensures forall i | 0 <= i < |Children(tree, f)| :: Canonical(Children(tree, f)[i])
  {
    forall i | 0 <= i < |Children(tree, f)| ensures Canonical(Children(tree, f)[i]) {
      var cs := Lookup(tree, Norm(f)).value.children;
      ListedLength(f, cs);
      ListedAt(f, cs, i);
      LookupWellFormed(tree, Norm(f));
      CanonicalJoin(if Canonical(f) then f else f[..|f| - 1], cs[i].name);
    }
  }

  lemma ParentOfSlashed(f: Raw, k: nat)
    requires Slashed(f) && 0 < k < |f|
    ensures Canonical(Parent(f, k))
  {
    ParentCanonical(f[..|f| - 1], k);
    SameParent(f, |f| - 1, k);
  }

  lemma {:induction false} SameParent(f: Raw, n: nat, k: nat)
    requires k <= n <= |f|
    ensures Parent(f[..n], k) == Parent(f, k)
  {
    if k > 0 {
      SameParent(f, n, k - 1);
    }
  }

  /** A link with a slash at the end is a directory link, and is cut without it. */
  lemma SlashedLinkIsCut(tree: Node, f: Raw)
    requires Slashed(f) && IsLink(tree, f) && LinkedDir(tree, f, 0).None?
    ensures tree.Link?
  {
    var k := |f| - 1;
    SlashedNorm(f);
    if k > 1 {
      NormProper(f[..k], k - 2);
      assert f[k - 1] == Norm(f[..k])[k - 2];
      assert IsLink(tree, f[..k]);
    } else {
      assert f[..k] == ["."] && Norm(["."]) == [] by {
        assert ["."][..0] == [];
      }
    }
  }

  lemma CutTidy(tree: Node, f: Raw)
    requires tree.Dir? && TidyAsked(tree, f)
    ensures Tidy(tree, Cut(tree, f)) && (Canonical(Cut(tree, f)) || Slashed(Cut(tree, f)))
  {
    if LinkedDir(tree, f, 0).Some? {
      if Canonical(f) {
        ParentCanonical(f, LinkedDir(tree, f, 0).value);
      } else {
        ParentOfSlashed(f, LinkedDir(tree, f, 0).value);
      }
    } else if !Canonical(f) && IsLink(tree, f) {
      SlashedLinkIsCut(tree, f);
    }
  }

  lemma {:induction false} ExpandTidy(tree: Node, queue: seq<Raw>)
    requires WellFormed(tree) && tree.Dir? && AllTidyAsked(tree, queue)
    ensures AllTidy(tree, Expand(tree, queue))
    decreases Weights(tree, queue)
  {
    if queue != [] {
      var f := Cut(tree, queue[0]);
      CutTidy(tree, queue[0]);
      ChildrenCanonical(tree, f);
      NextWeighsLess(tree, queue);
      ExpandTidy(tree, queue[1..] + Children(tree, f));
    }
  }

  lemma {:induction false} DebugTidy(tree: Node, entries: seq<seq<string>>)
    requires WellFormed(tree) && forall i | 0 <= i < |entries| :: Lookup(tree, entries[i]).Some?
    ensures AllTidy(tree, DebugTexts(entries))
  {
    if entries != [] {
      EntryProper(tree, entries[0]);
      DottedCanonical(entries[0]);
      DebugTidy(tree, entries[1..]);
    }
  }

  predicate FilesTidy(tree: Node, filesVar: map<string, seq<Raw>>) {
    forall pkg | pkg in filesVar :: AllTidyAsked(tree, filesVar[pkg])
  }

  lemma {:induction false} ListsTidy(tree: Node, packages: seq<string>, filesVar: map<string, seq<Raw>>, autodebug: bool)
    requires WellFormed(tree) && tree.Dir? && FilesTidy(tree, filesVar)
    ensures forall k | 0 <= k < |packages| :: AllTidy(tree, Lists(tree, packages, filesVar, autodebug)[k])
  {
    if packages != [] {
      ListsTidy(tree, packages[1..], filesVar, autodebug);
      ExpandTidy(tree, if packages[0] in filesVar then filesVar[packages[0]] else []);
      var entries := Entries(tree, []);
      forall i | 0 <= i < |entries| ensures Lookup(tree, entries[i]).Some? {
        EntriesMeaning(tree, entries[i]);
      }
      DebugTidy(tree, entries);
    }
  }

  /** Each file or link of the tree is reported as left over, or is in exactly one package: the first, in
      the order of `Ordered`, whose list has it. */
  lemma EveryFileOnce(tree: Node, packages: seq<string>, filesVar: map<string, seq<Raw>>, autodebug: bool,
                      x: seq<string>)
    requires WellFormed(tree) && tree.Dir? && FilesTidy(tree, filesVar) && IsFile(tree, x)
    ensures var lists := Lists(tree, Ordered(packages, autodebug), filesVar, autodebug);
            var r := Populate(tree, [], lists);
            && r.Some? && |r.value.roots| == |lists|
            && (x in Unshipped(r.value.seen, Entries(tree, [])) <==>
                  forall k | 0 <= k < |lists| :: x !in r.value.roots[k].files)
            && forall k | 0 <= k < |lists| ::
                 x in r.value.roots[k].files <==>
                   Dotted(x) in lists[k] && forall j | 0 <= j < k :: Dotted(x) !in lists[j]
  {
    var pkgs := Ordered(packages, autodebug);
    var lists := Lists(tree, pkgs, filesVar, autodebug);
    ListsTidy(tree, pkgs, filesVar, autodebug);
    LeftoverIsUnpackaged(tree, lists, x);
    var o := Populate(tree, [], lists).value;
    RootCount(tree, [], lists);
    forall k | 0 <= k < |lists|
      ensures x in o.roots[k].files <==> Dotted(x) in lists[k] && forall j | 0 <= j < k :: Dotted(x) !in lists[j]
      ensures x !in o.roots[k].dirs
    {
      OnlyFirstShips(tree, lists, k, x);
      FirstListerShips(tree, [], lists, k, x);
    }
    ContentsMeaning(o.roots, x);
  }

  lemma {:induction false} ContentsMeaning(roots: seq<Root>, x: seq<string>)
    ensures x in Contents(roots) <==> exists k | 0 <= k < |roots| :: x in Held(roots[k])
  {
    if roots != [] {
      ContentsMeaning(roots[1..], x);
      if k :| 0 <= k < |roots| && x in Held(roots[k]) {
        assert k > 0 ==> roots[1..][k - 1] == roots[k];
      }
      if k :| 0 <= k < |roots[1..]| && x in Held(roots[1..][k]) {
        assert roots[k + 1] == roots[1..][k];
      }
    }
  }

  lemma DoubledNorm(a: string, b: string)
    requires Proper(a) && Proper(b)
    ensures Norm([".", a, b]) == [a, b] && Norm([".", a, "", b]) == [a, b]
  {
    DottedCanonical([a, b]);
    assert Dotted([a, b]) == [".", a, b];
    DottedCanonical([a]);
    NormAppend(Dotted([a]), [""]);
    NormAppend(Dotted([a]) + [""], [b]);
    assert Norm([b]) == [b] by {
      NormOfProper([b]);
    }
    assert Norm([""]) == [] by {
      assert [""][..0] == [];
    }
    assert Dotted([a]) + [""] + [b] == [".", a, "", b];
    assert [a] + [] + [b] == [a, b];
  }

  lemma OneFileDeep(a: string, b: string)
    ensures Lookup(Dir([Child(a, Dir([Child(b, Leaf)]))]), [a, b]) == Some(Leaf)
  {
    var tree := Dir([Child(a, Dir([Child(b, Leaf)]))]);
    assert [a, b][..1] == [a] && [a][..0] == [];
    assert Lookup(tree, []) == Some(tree);
    assert Lookup(tree, [a]) == Some(Dir([Child(b, Leaf)]));
  }

  /** A text below a directory link is cut; this one stays, and has nothing below it. */
  lemma LeafListed(tree: Node, f: Raw)
    requires WellFormed(tree) && tree.Dir? && Clean(tree, Norm(f)) && IsFile(tree, Norm(f)) && Named(f)
    ensures Expand(tree, [f]) == [f]
  {
    forall k | 0 <= k < |f| ensures !IsLink(tree, f[..k]) {
      NormMono(f, k);
      NormMono(f, |f| - 1);
      NormMono(f[..|f| - 1], k);
      assert f[..|f| - 1][..k] == f[..k];
      var m := |Norm(f[..k])|;
      assert Norm(f)[..m] == Norm(f[..k]);
    }
    assert Cut(tree, f) == f && Children(tree, f) == [];
    NextWeighsLess(tree, [f]);
    assert [f][1..] + [] == [] && Expand(tree, []) == [];
  }

  /** From FILES to two packages: the same file, once with the doubled slash the warning announces as fixed. */
  lemma DoubledSlash(a: string, b: string, p: string, q: string)
    requires Proper(a) && Proper(b) && p != q
    ensures var tree := Dir([Child(a, Dir([Child(b, Leaf)]))]);
            var filesVar := map[p := [[".", a, b]], q := [[".", a, "", b]]];
            var r := Populate(tree, [], Lists(tree, [p, q], filesVar, false));
            && r.Some? && |r.value.roots| == 2
            && [a, b] in r.value.roots[0].files && [a, b] in r.value.roots[1].files
  {
    var tree := Dir([Child(a, Dir([Child(b, Leaf)]))]);
    var f, g := [".", a, b], [".", a, "", b];
    DoubledNorm(a, b);
    OneFileDeep(a, b);
    forall i | 0 <= i < 2 ensures Lookup(tree, [a, b][..i]) != Some(Link) {
      DirsAbove(tree, [a, b], i);
    }
    LeafListed(tree, f);
    LeafListed(tree, g);
    TwoLists(tree, p, q, f, g);
    TwoSpellingsShipTwice(tree, f, g);
  }

  lemma TwoLists(tree: Node, p: string, q: string, f: Raw, g: Raw)
    requires WellFormed(tree) && p != q && Expand(tree, [f]) == [f] && Expand(tree, [g]) == [g]
    ensures Lists(tree, [p, q], map[p := [f], q := [g]], false) == [[f], [g]]
  {
    var filesVar := map[p := [f], q := [g]];
    assert [p, q][1..] == [q] && [q][1..] == [];
    assert Lists(tree, [], filesVar, false) == [];
    assert [f] + [] == [f] && [g] + [] == [g];
    assert Lists(tree, [q], filesVar, false) == [[g]];
  }
}
