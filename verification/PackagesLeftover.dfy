/** When every list spells each path in one way, up to a slash at the end of directories: no file is lost and
    none is shipped twice. */
module PackagesLeftover {
  import opened Wrappers
  import opened PackageFiles
  import opened PackageListing
  import opened Packages
  import opened PackagesResults

  /** "./" and the components, with no doubled slash and no further ".". */
  predicate Canonical(f: Raw) {
    f == Dotted(Norm(f))
  }

  /** The same with one slash at the end. */
  predicate Slashed(f: Raw) {
    f != [] && f[|f| - 1] == "" && Canonical(f[..|f| - 1])
  }

  /** Spelled in the one way; the text of what is no file may end in a slash. */
  predicate Tidy(tree: Node, f: Raw) {
    Canonical(f) || (Slashed(f) && !IsFile(tree, Norm(f)))
  }

  predicate AllTidy(tree: Node, files: seq<Raw>) {
    forall i | 0 <= i < |files| :: Tidy(tree, files[i])
  }

  predicate Proper(part: string) {
    part != "" && part != "."
  }

  lemma {:induction false} NormProper(f: Raw, i: nat)
    requires i < |Norm(f)|
    ensures Proper(Norm(f)[i])
  {
    var n := |f| - 1;
    if i < |Norm(f[..n])| {
      NormProper(f[..n], i);
    }
  }

  lemma {:induction false} NormOfProper(x: seq<string>)
    requires forall i | 0 <= i < |x| :: Proper(x[i])
    ensures Norm(x) == x
  {
    if x != [] {
      NormOfProper(x[..|x| - 1]);
    }
  }

  lemma DottedCanonical(x: seq<string>)
    requires forall i | 0 <= i < |x| :: Proper(x[i])
    ensures Canonical(Dotted(x)) && Norm(Dotted(x)) == x
  {
    NormAppend(["."], x);
    assert ["."][..0] == [];
    NormOfProper(x);
  }

  lemma NormDotted(f: Raw)
    ensures Canonical(Dotted(Norm(f))) && Norm(Dotted(Norm(f))) == Norm(f)
  {
    forall i | 0 <= i < |Norm(f)| ensures Proper(Norm(f)[i]) {
      NormProper(f, i);
    }
    DottedCanonical(Norm(f));
  }

  lemma CanonicalJoin(p: Raw, c: string)
    requires Canonical(p) && Proper(c)
    ensures Join(p, c) == p + [c] && Canonical(p + [c]) && Norm(p + [c]) == Norm(p) + [c]
  {
    assert |p| > 1 ==> p[|p| - 1] == Norm(p)[|p| - 2];
    if |p| > 1 {
      NormProper(p, |p| - 2);
    }
    assert (p + [c])[..|p|] == p;
  }

  // ---- What is marked is what is shipped -------------------------------------------------

  function Held(root: Root): set<seq<string>> {
    root.dirs + root.files
  }

  /** Everything any package ships. */
  function Contents(roots: seq<Root>): set<seq<string>> {
    if roots == [] then {} else Held(roots[0]) + Contents(roots[1..])
  }

  /** What was seen is in `upper`, and all of `lower` was seen under its own text. */
  predicate Marked(seen: seq<Raw>, lower: set<seq<string>>, upper: set<seq<string>>) {
    && (forall i | 0 <= i < |seen| :: Norm(seen[i]) in upper)
    && (forall x | x in lower :: x == [] || Dotted(x) in seen)
  }

  /** The same in the midst of a package, `others` and `extra` being what the packages before it hold. */
  predicate Kept(s: State, others: set<seq<string>>, extra: set<seq<string>>) {
    Marked(s.seen, others + Held(s.root), extra + Held(s.root))
  }

  lemma MarkOne(seen: seq<Raw>, lower: set<seq<string>>, upper: set<seq<string>>, f: Raw)
    requires Marked(seen, lower, upper) && Canonical(f)
    ensures Marked(seen + [f], lower + {Norm(f)}, upper + {Norm(f)})
    ensures f in seen ==> Marked(seen, lower + {Norm(f)}, upper + {Norm(f)})
  {
    var all := seen + [f];
    assert all[|seen|] == f;
  }

  lemma MkdirMarked(s: State, p: Raw, c: string, others: set<seq<string>>, extra: set<seq<string>>)
    requires Canonical(p) && Proper(c) && Kept(s, others, extra)
    ensures Kept(Mkdir(s, p + [c]), others, extra)
  {
    CanonicalJoin(p, c);
    MarkOne(s.seen, others + Held(s.root), extra + Held(s.root), p + [c]);
    var more := Held(Mkdir(s, p + [c]).root);
    assert others + more == others + Held(s.root) + {Norm(p + [c])};
    assert extra + more == extra + Held(s.root) + {Norm(p + [c])};
  }

  lemma {:induction false} MkdirsMarked(s: State, p: Raw, parts: Raw, others: set<seq<string>>, extra: set<seq<string>>)
    requires Canonical(p) && (forall i | 0 <= i < |parts| :: Proper(parts[i])) && Kept(s, others, extra)
    ensures Kept(Mkdirs(s, p, parts), others, extra)
    decreases |parts|
  {
    if parts != [] {
      var q := Join(p, parts[0]);
      CanonicalJoin(p, parts[0]);
      MkdirMarked(s, p, parts[0], others, extra);
      MkdirsMarked(if Present(s.root, q) then s else Mkdir(s, q), q, parts[1..], others, extra);
    }
  }

  lemma StripDotted(x: seq<string>)
    requires x != [] && Proper(x[0])
    ensures Strip(Dotted(x)) == x
  {
    assert Dotted(x)[1..] == x;
  }

  lemma RecurseMarked(s: State, paths: Raw, others: set<seq<string>>, extra: set<seq<string>>)
    requires Canonical(paths) && [] in s.root.dirs && Kept(s, others, extra)
    ensures Kept(MkdirRecurse(s, paths), others, extra)
  {
    if !Present(s.root, paths) {
      var x := Norm(paths);
      forall i | 0 <= i < |x| ensures Proper(x[i]) {
        NormProper(paths, i);
      }
      StripDotted(x);
      DottedCanonical([]);
      assert Dotted([]) == ["."];
      MkdirsMarked(s, ["."], x, others, extra);
    }
  }

  // ---- A slash at the end ----------------------------------------------------------------

  lemma SlashedNorm(f: Raw)
    requires Slashed(f)
    ensures Norm(f) == Norm(f[..|f| - 1]) && f == f[..|f| - 1] + [""]
  {
  }

  /** The empty part at the end asks for a directory that is there. */
  lemma {:induction false} MkdirsSlash(s: State, p: Raw, parts: Raw)
    requires Present(s.root, p)
    ensures Mkdirs(s, p, parts + [""]) == Mkdirs(s, p, parts)
    decreases |parts|
  {
    var all := parts + [""];
    if parts == [] {
      NormJoined(p, "");
      assert (p + [""])[..|p|] == p && all[1..] == [];
    } else {
      var q := Join(p, parts[0]);
      assert all[0] == parts[0] && all[1..] == parts[1..] + [""];
      MkdirsSlash(if Present(s.root, q) then s else Mkdir(s, q), q, parts[1..]);
    }
  }

  lemma RecurseSlash(s: State, f: Raw)
    requires Slashed(f) && [] in s.root.dirs
    ensures MkdirRecurse(s, f) == MkdirRecurse(s, f[..|f| - 1])
  {
    var g := f[..|f| - 1];
    SlashedNorm(f);
    if !Present(s.root, f) {
      var x := Norm(g);
      NormProper(g, 0);
      StripDotted(x);
      StripDotted(x + [""]);
      assert f == Dotted(x + [""]);
      assert Norm(["."]) == [] by {
        assert ["."][..0] == [];
      }
      MkdirsSlash(s, ["."], x);
    }
  }

  lemma DirnameDotted(x: seq<string>, c: string)
    requires Canonical(Dotted(x))
    ensures Dirname(Dotted(x + [c])) == Dotted(x)
  {
    var f := Dotted(x + [c]);
    assert f[..|f| - 1] == Dotted(x);
    if x != [] {
      NormProper(Dotted(x), |x| - 1);
    }
  }

  /** Any text of `f` may be seen when `f` itself counts as held. */
  lemma MarkListed(s: State, f: Raw, others: set<seq<string>>)
    requires Kept(s, others, others)
    ensures Kept(s.(seen := s.seen + [f]), others, others + {Norm(f)})
  {
  }

  lemma HeldMore(s: State, x: seq<string>, others: set<seq<string>>)
    requires x in Held(s.root) && Kept(s, others, others + {x})
    ensures Kept(s, others, others)
  {
    assert others + {x} + Held(s.root) == others + Held(s.root);
  }

  lemma DirMarked(tree: Node, s: State, f: Raw, others: set<seq<string>>)
    requires Sound(tree, s.root) && (Canonical(f) || Slashed(f)) && Kept(s, others, others) && IsDir(tree, f)
    ensures Kept(MkdirRecurse(s.(seen := s.seen + [f]), f), others, others)
  {
    var marked := s.(seen := s.seen + [f]);
    MarkListed(s, f, others);
    if Canonical(f) {
      RecurseMarked(marked, f, others, others + {Norm(f)});
    } else {
      RecurseSlash(marked, f);
      RecurseMarked(marked, f[..|f| - 1], others, others + {Norm(f)});
    }
    RecurseFacts(tree, marked, f);
    HeldMore(MkdirRecurse(marked, f), Norm(f), others);
  }

  /** The directory of a path spelled in the one way. */
  lemma DirnameMarked(tree: Node, f: Raw)
    requires tree.Dir? && IsFile(tree, Norm(f)) && Canonical(f)
    ensures Named(f) && Canonical(Dirname(f)) && IsDir(tree, Dirname(f))
  {
    var x := Norm(f);
    var n := |x| - 1;
    NormProper(f, n);
    assert f[|f| - 1] == x[n];
    NormDotted(f[..n + 1]);
    assert f[..n + 1] == Dotted(x[..n]);
    DirnameDotted(x[..n], x[n]);
    assert x[..n] + [x[n]] == x;
    DirsAbove(tree, x, n);
    DirnameNorm(f);
    assert Norm(Dirname(f)) == x[..n];
  }

  lemma FileListed(s: State, f: Raw, others: set<seq<string>>)
    requires Canonical(f) && Kept(s, others, others)
    ensures Kept(s.(seen := s.seen + [f]), others + {Norm(f)}, others + {Norm(f)})
  {
    MarkOne(s.seen, others + Held(s.root), others + Held(s.root), f);
    assert others + {Norm(f)} + Held(s.root) == others + Held(s.root) + {Norm(f)};
  }

  lemma FileMarked(tree: Node, s: State, f: Raw, others: set<seq<string>>)
    requires tree.Dir? && Sound(tree, s.root) && Canonical(f) && Kept(s, others, others)
    requires IsFile(tree, Norm(f)) && Canonical(Dirname(f)) && IsDir(tree, Dirname(f))
    ensures var t := MkdirRecurse(s.(seen := s.seen + [f]), Dirname(f));
            && t.root.files == s.root.files
            && Kept(t.(root := t.root.(files := t.root.files + {Norm(f)})), others, others)
  {
    var marked := s.(seen := s.seen + [f]);
    FileListed(s, f, others);
    RecurseMarked(marked, Dirname(f), others + {Norm(f)}, others + {Norm(f)});
    RecurseFacts(tree, marked, Dirname(f));
    var root := MkdirRecurse(marked, Dirname(f)).root;
    assert others + {Norm(f)} + Held(root) == others + Held(root.(files := root.files + {Norm(f)}));
  }

  lemma NotPlacedYet(s: State, f: Raw, others: set<seq<string>>)
    requires Canonical(f) && Norm(f) != [] && Kept(s, others, others) && f !in s.seen
    ensures Norm(f) !in s.root.files
  {
    assert Norm(f) in s.root.files ==> Norm(f) in others + Held(s.root);
  }

  /** Placing a path spelled in the one way never fails and marks exactly what it ships. */
  lemma PlaceMarked(tree: Node, s: State, f: Raw, others: set<seq<string>>)
    requires tree.Dir? && Sound(tree, s.root) && Tidy(tree, f) && Kept(s, others, others)
    ensures Place(tree, s, f).Some?
    ensures var t := Place(tree, s, f).value; Sound(tree, t.root) && Kept(t, others, others)
  {
    if Lookup(tree, Norm(f)).Some? && f !in s.seen {
      if IsDir(tree, f) {
        DirMarked(tree, s, f, others);
      } else {
        DirnameMarked(tree, f);
        FileMarked(tree, s, f, others);
        NotPlacedYet(s, f, others);
      }
    }
    PlaceFacts(tree, s, f);
  }

  lemma {:induction false} PlaceAllMarked(tree: Node, s: State, files: seq<Raw>, others: set<seq<string>>)
    requires tree.Dir? && Sound(tree, s.root) && AllTidy(tree, files) && Kept(s, others, others)
    ensures PlaceAll(tree, s, files).Some?
    ensures Kept(PlaceAll(tree, s, files).value, others, others)
    decreases |files|
  {
    if files != [] {
      PlaceMarked(tree, s, files[0], others);
      PlaceAllMarked(tree, Place(tree, s, files[0]).value, files[1..], others);
    }
  }

  lemma {:induction false} PopulateMarked(tree: Node, seen: seq<Raw>, lists: seq<seq<Raw>>, others: set<seq<string>>)
    requires tree.Dir? && Marked(seen, others, others) && forall k | 0 <= k < |lists| :: AllTidy(tree, lists[k])
    ensures Populate(tree, seen, lists).Some?
    ensures var o := Populate(tree, seen, lists).value;
            Marked(o.seen, others + Contents(o.roots), others + Contents(o.roots))
    decreases |lists|
  {
    if lists == [] {
      assert others + Contents([]) == others;
    } else {
      PlaceAllMarked(tree, State(seen, EMPTY_ROOT), lists[0], others);
      var s := PlaceAll(tree, State(seen, EMPTY_ROOT), lists[0]).value;
      PopulateMarked(tree, s.seen, lists[1..], others + Held(s.root));
      var rest := Populate(tree, s.seen, lists[1..]).value;
      assert ([s.root] + rest.roots)[1..] == rest.roots;
      assert others + Held(s.root) + Contents(rest.roots) == others + Contents([s.root] + rest.roots);
    }
  }

  // ---- The entries of the tree -----------------------------------------------------------

  /** `Lookup`, read from the first component on. */
  function Down(n: Node, x: seq<string>): Option<Node>
    decreases |x|, 1
  {
    if x == [] then Some(n)
    else if n.Dir? then DownIn(n.children, x)
    else None
  }

  function DownIn(cs: seq<Child>, x: seq<string>): Option<Node>
    requires x != []
    decreases |x|, 0
  {
    var c := FindChild(cs, x[0]);
    if c.Some? then Down(c.value, x[1..]) else None
  }

  function Step(n: Option<Node>, name: string): Option<Node> {
    if n.Some? && n.value.Dir? then FindChild(n.value.children, name) else None
  }

  lemma {:induction false} DownLast(n: Node, x: seq<string>, name: string)
    ensures Down(n, x + [name]) == Step(Down(n, x), name)
    decreases |x|
  {
    if x == [] {
      assert x + [name] == [name] && [name][1..] == [];
      assert Down(n, [name]) == if n.Dir? then DownIn(n.children, [name]) else None;
    } else if n.Dir? && FindChild(n.children, x[0]).Some? {
      assert (x + [name])[1..] == x[1..] + [name];
      DownLast(FindChild(n.children, x[0]).value, x[1..], name);
    }
  }

  lemma {:induction false} DownIsLookup(n: Node, x: seq<string>)
    ensures Down(n, x) == Lookup(n, x)
    decreases |x|
  {
    if x != [] {
      var m := |x| - 1;
      DownIsLookup(n, x[..m]);
      DownLast(n, x[..m], x[m]);
      assert x[..m] + [x[m]] == x;
    }
  }

  /** `y` is `at` followed by a path that exists below it. */
  predicate Under(n: Node, at: seq<string>, y: seq<string>) {
    at < y && Down(n, y[|at|..]).Some?
  }

  predicate UnderOne(cs: seq<Child>, at: seq<string>, y: seq<string>) {
    at < y && DownIn(cs, y[|at|..]).Some?
  }

  lemma {:induction false} EntriesUnder(n: Node, at: seq<string>, y: seq<string>)
    requires WellFormed(n)
    ensures y in Entries(n, at) <==> Under(n, at, y)
    decreases n, 1
  {
    if n.Dir? {
      EntriesOfUnder(n.children, at, y);
    }
  }

  lemma {:induction false} EntriesOfUnder(cs: seq<Child>, at: seq<string>, y: seq<string>)
    requires NamesFit(cs) && forall i | 0 <= i < |cs| :: WellFormed(cs[i].node)
    ensures y in EntriesOf(cs, at) <==> UnderOne(cs, at, y)
    decreases cs, 0
  {
    if cs != [] {
      var x := at + [cs[0].name];
      EntriesUnder(cs[0].node, x, y);
      EntriesOfUnder(cs[1..], at, y);
      assert y in EntriesOf(cs, at) <==> y == x || y in Entries(cs[0].node, x) || y in EntriesOf(cs[1..], at);
      FirstChild(cs, at, y);
    }
  }

  lemma FirstChild(cs: seq<Child>, at: seq<string>, y: seq<string>)
    requires cs != [] && NamesFit(cs)
    ensures var x := at + [cs[0].name];
            UnderOne(cs, at, y) <==> y == x || Under(cs[0].node, x, y) || UnderOne(cs[1..], at, y)
  {
    var x := at + [cs[0].name];
    PrefixOf(at, x, y);
    if at < y {
      var rest := y[|at|..];
      if rest[0] == cs[0].name {
        assert x <= y && rest[1..] == y[|x|..];
        assert y == x <==> rest[1..] == [];
        NotAgain(cs);
        assert DownIn(cs, rest) == Down(cs[0].node, rest[1..]);
        assert DownIn(cs[1..], rest) == None;
      } else {
        assert DownIn(cs, rest) == DownIn(cs[1..], rest);
        assert y[|at|] != x[|at|];
      }
    }
  }

  lemma PrefixOf(a: seq<string>, b: seq<string>, c: seq<string>)
    requires a < b
    ensures b <= c ==> a < c
  {
  }

  lemma NotAgain(cs: seq<Child>)
    requires cs != [] && NamesFit(cs)
    ensures FindChild(cs[1..], cs[0].name).None?
  {
    forall i | 0 <= i < |cs[1..]| ensures cs[1..][i].name != cs[0].name {
      assert cs[1..][i] == cs[i + 1];
    }
  }

  lemma EntriesMeaning(tree: Node, x: seq<string>)
    requires WellFormed(tree)
    ensures x in Entries(tree, []) <==> x != [] && Lookup(tree, x).Some?
  {
    EntriesUnder(tree, [], x);
    assert x[0..] == x;
    DownIsLookup(tree, x);
  }

  // ---- Results ---------------------------------------------------------------------------

  /** The entries reported as not shipped are exactly those no package holds. */
  lemma LeftoverIsUnpackaged(tree: Node, lists: seq<seq<Raw>>, x: seq<string>)
    requires WellFormed(tree) && tree.Dir? && forall k | 0 <= k < |lists| :: AllTidy(tree, lists[k])
    ensures Populate(tree, [], lists).Some?
    ensures var o := Populate(tree, [], lists).value;
            x in Unshipped(o.seen, Entries(tree, []))
            <==> x != [] && Lookup(tree, x).Some? && x !in Contents(o.roots)
  {
    PopulateMarked(tree, [], lists, {});
    var o := Populate(tree, [], lists).value;
    UnshippedMeaning(o.seen, Entries(tree, []), x);
    EntriesMeaning(tree, x);
    assert {} + Contents(o.roots) == Contents(o.roots);
    if Dotted(x) in o.seen && x != [] && Lookup(tree, x).Some? {
      EntryProper(tree, x);
      DottedCanonical(x);
      var i :| 0 <= i < |o.seen| && o.seen[i] == Dotted(x);
      assert Norm(o.seen[i]) == x;
    }
  }

  /** No entry of the tree is called "" or ".". */
  lemma {:induction false} EntryProper(tree: Node, x: seq<string>)
    requires WellFormed(tree) && Lookup(tree, x).Some?
    ensures forall i | 0 <= i < |x| :: Proper(x[i])
    decreases |x|
  {
    if x != [] {
      var n := |x| - 1;
      DirsAbove(tree, x, n);
      EntryProper(tree, x[..n]);
      LookupWellFormed(tree, x[..n]);
      var i := FoundChild(Lookup(tree, x[..n]).value.children, x[n]);
    }
  }

  /** A file is in one package at most: the first whose list has it. */
  lemma OnlyFirstShips(tree: Node, lists: seq<seq<Raw>>, k: nat, x: seq<string>)
    requires WellFormed(tree) && tree.Dir? && k < |lists| && IsFile(tree, x)
    requires forall j | 0 <= j < |lists| :: AllTidy(tree, lists[j])
    ensures Populate(tree, [], lists).Some?
    ensures var roots := Populate(tree, [], lists).value.roots;
            && k < |roots|
            && (x in roots[k].files <==>
                  Dotted(x) in lists[k] && forall j | 0 <= j < k :: Dotted(x) !in lists[j])
  {
    PopulateMarked(tree, [], lists, {});
    FirstListerShips(tree, [], lists, k, x);
    EntryProper(tree, x);
    DottedCanonical(x);
    if Dotted(x) in lists[k] && forall j | 0 <= j < k :: Dotted(x) !in lists[j] {
      var i :| 0 <= i < |lists[k]| && lists[k][i] == Dotted(x);
      assert FirstListed([], lists, k, lists[k][i]);
    }
  }

  // ---- Where paths are spelled in two ways -----------------------------------------------

  /** Two texts of one file in the lists of two packages: both ship it. In one list: the second `os.link`
      fails. The text of FILES is never cleaned, since the result of `filesvar.replace` is dropped. */
  lemma TwoSpellingsShipTwice(tree: Node, f: Raw, g: Raw)
    requires tree.Dir? && IsFile(tree, Norm(f)) && Norm(f) == Norm(g) && f != g && Named(f) && Named(g)
    ensures Populate(tree, [], [[f], [g]]).Some?
    ensures var roots := Populate(tree, [], [[f], [g]]).value.roots;
            |roots| == 2 && Norm(f) in roots[0].files && Norm(f) in roots[1].files
    ensures Lookup(tree, Norm(f)) == Some(Leaf) ==> Populate(tree, [], [[f, g]]).None?
  {
    NewSpelling(tree, f, g);
    OneFileEach(tree, f, g);
    if Lookup(tree, Norm(f)) == Some(Leaf) {
      SecondLinkFails(tree, f, g);
    }
  }

  lemma SecondLinkFails(tree: Node, f: Raw, g: Raw)
    requires tree.Dir? && Norm(f) == Norm(g) && f != g && Named(f) && Named(g)
    requires Lookup(tree, Norm(f)) == Some(Leaf)
    ensures Populate(tree, [], [[f, g]]).None?
  {
    NewSpelling(tree, f, g);
    PlaceAgain(tree, Place(tree, State([], EMPTY_ROOT), f).value, g);
    TwoFiles(tree, f, g);
  }

  lemma NewSpelling(tree: Node, f: Raw, g: Raw)
    requires tree.Dir? && IsFile(tree, Norm(f)) && Norm(f) == Norm(g) && f != g && Named(f) && Named(g)
    ensures var r := Place(tree, State([], EMPTY_ROOT), f);
            && r.Some? && Sound(tree, r.value.root) && Norm(f) in r.value.root.files && g !in r.value.seen
            && Place(tree, State(r.value.seen, EMPTY_ROOT), g).Some?
            && Norm(f) in Place(tree, State(r.value.seen, EMPTY_ROOT), g).value.root.files
  {
    var s0 := State([], EMPTY_ROOT);
    PlaceNew(tree, s0, f);
    SeenAfter(tree, s0, f, g);
    PlaceNew(tree, State(Place(tree, s0, f).value.seen, EMPTY_ROOT), g);
  }

  lemma OneFile(tree: Node, s: State, f: Raw)
    ensures PlaceAll(tree, s, [f]) == Place(tree, s, f)
  {
    assert [f][1..] == [];
  }

  lemma OneFileEach(tree: Node, f: Raw, g: Raw)
    requires Place(tree, State([], EMPTY_ROOT), f).Some?
    requires Place(tree, State(Place(tree, State([], EMPTY_ROOT), f).value.seen, EMPTY_ROOT), g).Some?
    ensures var s := Place(tree, State([], EMPTY_ROOT), f).value;
            var t := Place(tree, State(s.seen, EMPTY_ROOT), g).value;
            var r := Populate(tree, [], [[f], [g]]);
            r.Some? && |r.value.roots| == 2 && r.value.roots[0] == s.root && r.value.roots[1] == t.root
  {
    var s := Place(tree, State([], EMPTY_ROOT), f).value;
    OneFile(tree, State([], EMPTY_ROOT), f);
    OneFile(tree, State(s.seen, EMPTY_ROOT), g);
    OnePackage(tree, s.seen, [g]);
    assert [[f], [g]][1..] == [[g]];
    var t := Place(tree, State(s.seen, EMPTY_ROOT), g).value;
    assert [s.root] + [t.root] == [s.root, t.root];
  }

  lemma OnePackage(tree: Node, seen: seq<Raw>, files: seq<Raw>)
    ensures Populate(tree, seen, [files]) ==
            (var s := PlaceAll(tree, State(seen, EMPTY_ROOT), files);
             if s.None? then None else Some(Outcome(s.value.seen, [s.value.root])))
  {
    assert [files][1..] == [];
    var s := PlaceAll(tree, State(seen, EMPTY_ROOT), files);
    if s.Some? {
      assert Populate(tree, s.value.seen, []) == Some(Outcome(s.value.seen, []));
      assert [s.value.root] + [] == [s.value.root];
    }
  }

  lemma TwoFiles(tree: Node, f: Raw, g: Raw)
    requires Place(tree, State([], EMPTY_ROOT), f).Some?
    requires Place(tree, Place(tree, State([], EMPTY_ROOT), f).value, g).None?
    ensures Populate(tree, [], [[f, g]]).None?
  {
    assert [f, g][1..] == [g];
    OneFile(tree, Place(tree, State([], EMPTY_ROOT), f).value, g);
    OnePackage(tree, [], [f, g]);
  }

  lemma PlaceNew(tree: Node, s: State, f: Raw)
    requires tree.Dir? && Sound(tree, s.root) && s.root.files == {} && f !in s.seen
    requires IsFile(tree, Norm(f)) && Named(f)
    ensures Place(tree, s, f).Some? && Norm(f) in Place(tree, s, f).value.root.files
    ensures Sound(tree, Place(tree, s, f).value.root)
  {
    DirnameNorm(f);
    DirsAbove(tree, Norm(f), |Norm(f)| - 1);
    assert Norm(f)[..|Norm(f)| - 1] == Norm(Dirname(f));
    RecurseFacts(tree, s.(seen := s.seen + [f]), Dirname(f));
    PlaceFacts(tree, s, f);
  }

  lemma PlaceAgain(tree: Node, s: State, g: Raw)
    requires tree.Dir? && Sound(tree, s.root) && g !in s.seen && Named(g)
    requires Lookup(tree, Norm(g)) == Some(Leaf) && Norm(g) in s.root.files
    ensures Place(tree, s, g).None?
  {
    DirnameNorm(g);
    DirsAbove(tree, Norm(g), |Norm(g)| - 1);
    assert Norm(g)[..|Norm(g)| - 1] == Norm(Dirname(g));
    RecurseFacts(tree, s.(seen := s.seen + [g]), Dirname(g));
  }
}
