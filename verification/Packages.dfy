/** package.py, populate_packages: which package each file of the install tree goes to. */
module Packages {
  import opened Wrappers
  import opened PackageFiles

  /** One package's root: the directories made in it and the other files placed in it. */
  datatype Root = Root(dirs: set<seq<string>>, files: set<seq<string>>)

  datatype State = State(seen: seq<Raw>, root: Root)

  /** `roots[k]` is what package `k` ships. */
  datatype Outcome = Outcome(seen: seq<Raw>, roots: seq<Root>)

  const EMPTY_ROOT := Root({[]}, {})

  predicate IsDirAt(tree: Node, x: seq<string>) {
    Lookup(tree, x).Some? && Lookup(tree, x).value.Dir?
  }

  /** `cpath.exists` under the package root; only directories of the tree are asked for. */
  predicate Present(root: Root, p: Raw) {
    Norm(p) in root.dirs || Norm(p) in root.files
  }

  // ---- Making directories --------------------------------------------------------------

  /** `while paths.startswith("./")`. */
  function Strip(paths: Raw): Raw {
    if |paths| >= 2 && paths[0] == "." then Strip(paths[1..]) else paths
  }

  function StripEmpty(head: Raw): Raw {
    if head != [] && head[|head| - 1] == "" then StripEmpty(head[..|head| - 1]) else head
  }

  /** `os.path.dirname`; the paths of a list start with ".". */
  function Dirname(f: Raw): Raw {
    if f == [] then [] else StripEmpty(f[..|f| - 1])
  }

  function Mkdir(s: State, p: Raw): State {
    State(if p in s.seen then s.seen else s.seen + [p], s.root.(dirs := s.root.dirs + {Norm(p)}))
  }

  function Mkdirs(s: State, p: Raw, parts: Raw): State
    decreases |parts|
  {
    if parts == [] then s
    else
      var q := Join(p, parts[0]);
      Mkdirs(if Present(s.root, q) then s else Mkdir(s, q), q, parts[1..])
  }

  function MkdirRecurse(s: State, paths: Raw): State {
    if Present(s.root, paths) then s else Mkdirs(s, ["."], Strip(paths))
  }

  method MakeDirectories(s: State, paths: Raw) returns (r: State)
    ensures r == MkdirRecurse(s, paths)
  {
    r := s;
    if Present(r.root, paths) {
      return;
    }
    var rest := paths;
    while |rest| >= 2 && rest[0] == "."
      invariant Strip(rest) == Strip(paths)
    {
      rest := rest[1..];
    }
    var p: Raw := ["."];
    var i := 0;
    while i < |rest|
      invariant i <= |rest| && Mkdirs(r, p, rest[i..]) == Mkdirs(s, ["."], rest)
    {
      assert rest[i..][1..] == rest[i + 1..];
      p := Join(p, rest[i]);
      if !Present(r.root, p) {
        r := Mkdir(r, p);
      }
      i := i + 1;
    }
  }

  // ---- One package ---------------------------------------------------------------------

  /** The text names its entry; the kernel takes no file by a text ending in "/" or "/.". */
  predicate Named(f: Raw) {
    f != [] && f[|f| - 1] != "" && f[|f| - 1] != "."
  }

  /** Placing one listed path; None when `os.link` refuses it, or finds the name taken. */
  function Place(tree: Node, s: State, f: Raw): Option<State> {
    if Lookup(tree, Norm(f)).None? || f in s.seen then Some(s)
    else
      var marked := s.(seen := s.seen + [f]);
      if IsDir(tree, f) then Some(MkdirRecurse(marked, f))
      else
        var t := MkdirRecurse(marked, Dirname(f));
        if !Named(f) || (!IsLink(tree, f) && Norm(f) in t.root.files) then None
        else Some(t.(root := t.root.(files := t.root.files + {Norm(f)})))
  }

  function PlaceAll(tree: Node, s: State, files: seq<Raw>): Option<State>
    decreases |files|
  {
    if files == [] then Some(s)
    else
      var t := Place(tree, s, files[0]);
      if t.None? then None else PlaceAll(tree, t.value, files[1..])
  }

  /** The outcome of the packages done so far put before that of the rest. */
  function After(done: seq<Root>, rest: Option<Outcome>): Option<Outcome> {
    if rest.None? then None else Some(Outcome(rest.value.seen, done + rest.value.roots))
  }

  /** All packages in their order, `lists[k]` being the list of package `k`. */
  function Populate(tree: Node, seen: seq<Raw>, lists: seq<seq<Raw>>): Option<Outcome>
    decreases |lists|
  {
    if lists == [] then Some(Outcome(seen, []))
    else
      var s := PlaceAll(tree, State(seen, EMPTY_ROOT), lists[0]);
      if s.None? then None else After([s.value.root], Populate(tree, s.value.seen, lists[1..]))
  }

  method PlaceFile(tree: Node, s: State, file: Raw) returns (r: Option<State>)
    ensures r == Place(tree, s, file)
  {
    if Lookup(tree, Norm(file)).None? {
      return Some(s);
    }
    if file in s.seen {
      return Some(s);
    }
    var t := s.(seen := s.seen + [file]);
    if IsDir(tree, file) {
      t := MakeDirectories(t, file);
      return Some(t);
    }
    t := MakeDirectories(t, Dirname(file));
    if !Named(file) || (!IsLink(tree, file) && Norm(file) in t.root.files) {
      return None;
    }
    return Some(t.(root := t.root.(files := t.root.files + {Norm(file)})));
  }

  method PopulatePackage(tree: Node, seen: seq<Raw>, files: seq<Raw>) returns (r: Option<State>)
    ensures r == PlaceAll(tree, State(seen, EMPTY_ROOT), files)
  {
    var s := State(seen, EMPTY_ROOT);
    var i := 0;
    while i < |files|
      invariant i <= |files|
      invariant PlaceAll(tree, s, files[i..]) == PlaceAll(tree, State(seen, EMPTY_ROOT), files)
    {
      assert files[i..][1..] == files[i + 1..];
      var t := PlaceFile(tree, s, files[i]);
      if t.None? {
        return None;
      }
      s := t.value;
      i := i + 1;
    }
    return Some(s);
  }

  lemma AfterNone(rest: Option<Outcome>)
    ensures After([], rest) == rest
  {
    if rest.Some? {
      assert [] + rest.value.roots == rest.value.roots;
    }
  }

  lemma AfterOne(done: seq<Root>, root: Root, rest: Option<Outcome>)
    ensures After(done, After([root], rest)) == After(done + [root], rest)
  {
    if rest.Some? {
      assert done + ([root] + rest.value.roots) == (done + [root]) + rest.value.roots;
    }
  }

  /** The root of a package has all of its paths that were warned about; `reaches` is the answer of the file
      system, which follows the links in the root. */
  predicate Reached(root: Root, warned: seq<Raw>, reaches: (Root, Raw) -> bool) {
    forall i | 0 <= i < |warned| :: reaches(root, warned[i])
  }

  predicate AllReached(roots: seq<Root>, warned: seq<seq<Raw>>, reaches: (Root, Raw) -> bool) {
    |roots| <= |warned| && forall k | 0 <= k < |roots| :: Reached(roots[k], warned[k], reaches)
  }

  method CheckLinks(root: Root, warned: seq<Raw>, reaches: (Root, Raw) -> bool) returns (ok: bool)
    ensures ok <==> Reached(root, warned, reaches)
  {
    for i := 0 to |warned|
      invariant forall j | 0 <= j < i :: reaches(root, warned[j])
    {
      if !reaches(root, warned[i]) {
        return false;
      }
    }
    return true;
  }

  lemma LaterRootsFollow(done: seq<Root>, rest: Option<Outcome>, k: nat)
    requires k < |done| && After(done, rest).Some?
    ensures k < |After(done, rest).value.roots| && After(done, rest).value.roots[k] == done[k]
  {
  }

  method PopulatePackages(tree: Node, lists: seq<seq<Raw>>, warned: seq<seq<Raw>>, reaches: (Root, Raw) -> bool)
    returns (r: Option<Outcome>)
    requires |warned| == |lists|
    ensures var o := Populate(tree, [], lists);
            r == if o.Some? && AllReached(o.value.roots, warned, reaches) then o else None
  {
    var seen: seq<Raw>, roots: seq<Root> := [], [];
    var k := 0;
    AfterNone(Populate(tree, [], lists));
    while k < |lists|
      invariant k <= |lists| && |roots| == k && AllReached(roots, warned, reaches)
      invariant After(roots, Populate(tree, seen, lists[k..])) == Populate(tree, [], lists)
    {
      assert lists[k..][1..] == lists[k + 1..];
      var s := PopulatePackage(tree, seen, lists[k]);
      if s.None? {
        return None;
      }
      AfterOne(roots, s.value.root, Populate(tree, s.value.seen, lists[k + 1..]));
      seen, roots := s.value.seen, roots + [s.value.root];
      var ok := CheckLinks(s.value.root, warned[k], reaches);
      if !ok {
        if Populate(tree, [], lists).Some? {
          LaterRootsFollow(roots, Populate(tree, seen, lists[k + 1..]), k);
        }
        return None;
      }
      k := k + 1;
    }
    assert lists[k..] == [] && roots + [] == roots;
    return Some(Outcome(seen, roots));
  }

  // ---- What was left over --------------------------------------------------------------

  /** Every entry of the tree below `at`, links not followed. */
  function Entries(n: Node, at: seq<string>): seq<seq<string>>
    decreases n, 1
  {
    if n.Dir? then EntriesOf(n.children, at) else []
  }

  function EntriesOf(cs: seq<Child>, at: seq<string>): seq<seq<string>>
    decreases cs, 0
  {
    if cs == [] then []
    else
      var x := at + [cs[0].name];
      [x] + Entries(cs[0].node, x) + EntriesOf(cs[1..], at)
  }

  /** The text the walk builds for an entry: "./" and the path. */
  function Dotted(x: seq<string>): Raw {
    ["."] + x
  }

  function Unshipped(seen: seq<Raw>, entries: seq<seq<string>>): seq<seq<string>> {
    if entries == [] then []
    else Left(seen, entries[0]) + Unshipped(seen, entries[1..])
  }

  function Left(seen: seq<Raw>, x: seq<string>): seq<seq<string>> {
    if Dotted(x) !in seen then [x] else []
  }

  lemma {:induction false} UnshippedMeaning(seen: seq<Raw>, entries: seq<seq<string>>, x: seq<string>)
    ensures x in Unshipped(seen, entries) <==> x in entries && Dotted(x) !in seen
  {
    if entries != [] {
      assert x in entries <==> x == entries[0] || x in entries[1..];
      UnshippedMeaning(seen, entries[1..], x);
    }
  }

  method FindUnshipped(tree: Node, seen: seq<Raw>) returns (unshipped: seq<seq<string>>)
    ensures unshipped == Unshipped(seen, Entries(tree, []))
  {
    unshipped := [];
    var entries := Entries(tree, []);
    var i := 0;
    while i < |entries|
      invariant i <= |entries|
      invariant unshipped + Unshipped(seen, entries[i..]) == Unshipped(seen, entries)
    {
      assert entries[i..][1..] == entries[i + 1..];
      Regroup(unshipped, Left(seen, entries[i]), Unshipped(seen, entries[i + 1..]));
      if Dotted(entries[i]) !in seen {
        unshipped := unshipped + [entries[i]];
      }
      i := i + 1;
    }
  }
}
