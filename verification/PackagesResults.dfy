/** Which package ships a file, and what is left over. */
module PackagesResults {
  import opened Wrappers
  import opened PackageFiles
  import opened PackageListing
  import opened Packages

  // ---- Norm ------------------------------------------------------------------------------

  lemma {:induction false} NormAppend(a: Raw, b: Raw)
    ensures Norm(a + b) == Norm(a) + Norm(b)
  {
    if b == [] {
      assert a + b == a;
    } else {
      var n := |b| - 1;
      NormAppend(a, b[..n]);
      assert (a + b)[..|a + b| - 1] == a + b[..n];
      assert (a + b)[|a + b| - 1] == b[n];
    }
  }

  lemma {:induction false} StripNorm(paths: Raw)
    ensures Norm(Strip(paths)) == Norm(paths)
  {
    if |paths| >= 2 && paths[0] == "." {
      NormAppend(["."], paths[1..]);
      assert ["."] + paths[1..] == paths;
      assert ["."][..0] == [];
      StripNorm(paths[1..]);
    }
  }

  lemma {:induction false} StripEmptyNorm(head: Raw)
    ensures Norm(StripEmpty(head)) == Norm(head)
  {
    if head != [] && head[|head| - 1] == "" {
      StripEmptyNorm(head[..|head| - 1]);
    }
  }

  lemma DirnameNorm(f: Raw)
    requires Named(f)
    ensures Norm(f) == Norm(Dirname(f)) + [f[|f| - 1]]
  {
    StripEmptyNorm(f[..|f| - 1]);
  }

  // ---- Making directories ----------------------------------------------------------------

  /** A package root is a tree of its own: every directory above an entry is there, directories are
      directories of the install tree, and the rest are its files and links. */
  predicate Sound(tree: Node, root: Root) {
    && [] in root.dirs
    && (forall d | d in root.dirs :: IsDirAt(tree, d))
    && (forall d, i | d in root.dirs && 0 <= i < |d| :: d[..i] in root.dirs)
    && (forall x | x in root.files :: x != [] && Lookup(tree, x).Some? && !IsDirAt(tree, x) && x[..|x| - 1] in root.dirs)
  }

  /** The list grew, and only by directories. */
  predicate GrewByDirs(tree: Node, seen: seq<Raw>, more: seq<Raw>) {
    seen <= more && forall i | |seen| <= i < |more| :: IsDir(tree, more[i])
  }

  lemma PrefixesPresent(dirs: set<seq<string>>, base: seq<string>, d: seq<string>, i: nat)
    requires base in dirs && forall j | 0 <= j < |base| :: base[..j] in dirs
    requires base <= d && |d| <= |base| + 1 && i < |d|
    ensures d[..i] in dirs
  {
    if i < |base| {
      assert d[..i] == base[..i];
    } else {
      assert d[..i] == base;
    }
  }

  lemma AddDir(tree: Node, root: Root, d: seq<string>)
    requires Sound(tree, root) && IsDirAt(tree, d) && forall i | 0 <= i < |d| :: d[..i] in root.dirs
    ensures Sound(tree, root.(dirs := root.dirs + {d}))
  {
  }

  lemma MkdirSound(tree: Node, s: State, p: Raw, c: string)
    requires Sound(tree, s.root) && Norm(p) in s.root.dirs && IsDir(tree, p + [c])
    ensures Sound(tree, Mkdir(s, Join(p, c)).root)
    ensures Norm(Join(p, c)) == Norm(p + [c]) && GrewByDirs(tree, s.seen, Mkdir(s, Join(p, c)).seen)
  {
    NormJoined(p, c);
    assert (p + [c])[..|p|] == p;
    var d := Norm(p + [c]);
    forall i | 0 <= i < |d| ensures d[..i] in s.root.dirs {
      PrefixesPresent(s.root.dirs, Norm(p), d, i);
    }
    AddDir(tree, s.root, d);
  }

  lemma DirAbove(tree: Node, x: seq<string>, y: seq<string>)
    requires x <= y && IsDirAt(tree, y)
    ensures IsDirAt(tree, x)
  {
    if x != y {
      assert y[..|x|] == x;
      DirsAbove(tree, y, |x|);
    }
  }

  /** From `s`, directories were made down to `target` and nothing else happened. */
  predicate Built(tree: Node, s: State, r: State, target: seq<string>) {
    && Sound(tree, r.root) && r.root.files == s.root.files && s.root.dirs <= r.root.dirs
    && target in r.root.dirs && GrewByDirs(tree, s.seen, r.seen)
  }

  lemma BuiltFurther(tree: Node, s: State, t: State, r: State, mid: seq<string>, target: seq<string>)
    requires Built(tree, s, t, mid) && Built(tree, t, r, target)
    ensures Built(tree, s, r, target)
  {
    forall i | |s.seen| <= i < |r.seen| ensures IsDir(tree, r.seen[i]) {
      assert i < |t.seen| ==> r.seen[i] == t.seen[i];
    }
  }

  lemma NormSplit(p: Raw, parts: Raw)
    requires parts != []
    ensures Norm(Join(p, parts[0])) == Norm(p + [parts[0]])
    ensures Norm(Join(p, parts[0])) + Norm(parts[1..]) == Norm(p) + Norm(parts)
  {
    NormJoined(p, parts[0]);
    NormAppend(p, [parts[0]]);
    NormAppend([parts[0]], parts[1..]);
    assert [parts[0]] + parts[1..] == parts;
    Regroup(Norm(p), Norm([parts[0]]), Norm(parts[1..]));
  }

  lemma StepBuilt(tree: Node, s: State, p: Raw, c: string)
    requires Sound(tree, s.root) && Norm(p) in s.root.dirs && IsDir(tree, p + [c])
    ensures var q := Join(p, c); Built(tree, s, if Present(s.root, q) then s else Mkdir(s, q), Norm(q))
  {
    MkdirSound(tree, s, p, c);
  }

  lemma {:induction false} MkdirsFacts(tree: Node, s: State, p: Raw, parts: Raw)
    requires Sound(tree, s.root) && Norm(p) in s.root.dirs && IsDirAt(tree, Norm(p) + Norm(parts))
    ensures Built(tree, s, Mkdirs(s, p, parts), Norm(p) + Norm(parts))
    decreases |parts|
  {
    if parts == [] {
      assert Norm(p) + Norm(parts) == Norm(p);
    } else {
      var q, target := Join(p, parts[0]), Norm(p) + Norm(parts);
      NormSplit(p, parts);
      DirAbove(tree, Norm(q), target);
      StepBuilt(tree, s, p, parts[0]);
      var t := if Present(s.root, q) then s else Mkdir(s, q);
      MkdirsFacts(tree, t, q, parts[1..]);
      BuiltFurther(tree, s, t, Mkdirs(t, q, parts[1..]), Norm(q), target);
    }
  }

  lemma RecurseFacts(tree: Node, s: State, paths: Raw)
    requires Sound(tree, s.root) && IsDir(tree, paths)
    ensures Built(tree, s, MkdirRecurse(s, paths), Norm(paths))
  {
    if !Present(s.root, paths) {
      StripNorm(paths);
      assert Norm(["."]) == [] by {
        assert ["."][..0] == [];
      }
      assert [] + Norm(paths) == Norm(paths);
      MkdirsFacts(tree, s, ["."], Strip(paths));
    }
  }

  /** What placing one path does. */
  lemma PlaceFacts(tree: Node, s: State, f: Raw)
    requires tree.Dir? && Sound(tree, s.root) && Place(tree, s, f).Some?
    ensures var t := Place(tree, s, f).value;
            && Sound(tree, t.root) && s.root.dirs <= t.root.dirs
            && (Lookup(tree, Norm(f)).None? || f in s.seen ==> t == s)
            && (Lookup(tree, Norm(f)).Some? && f !in s.seen ==>
                  && GrewByDirs(tree, s.seen + [f], t.seen)
                  && (IsDir(tree, f) ==> t.root.files == s.root.files && Norm(f) in t.root.dirs)
                  && (!IsDir(tree, f) ==> t.root.files == s.root.files + {Norm(f)}))
  {
    if Lookup(tree, Norm(f)).Some? && f !in s.seen {
      var marked := s.(seen := s.seen + [f]);
      if IsDir(tree, f) {
        RecurseFacts(tree, marked, f);
      } else {
        DirnameNorm(f);
        DirsAbove(tree, Norm(f), |Norm(f)| - 1);
        assert Norm(f)[..|Norm(f)| - 1] == Norm(Dirname(f));
        RecurseFacts(tree, marked, Dirname(f));
      }
    }
  }

  // ---- Who ships a file ------------------------------------------------------------------

  predicate IsFile(tree: Node, x: seq<string>) {
    Lookup(tree, x).Some? && !IsDirAt(tree, x)
  }

  /** Some path of `files` spells `x` and was not seen before. */
  predicate Spelled(seen: seq<Raw>, files: seq<Raw>, x: seq<string>) {
    exists i | 0 <= i < |files| :: Norm(files[i]) == x && files[i] !in seen
  }

  /** After the paths `done` of one package's list, `before` being seen when it began. */
  ghost predicate Tally(tree: Node, before: seq<Raw>, done: seq<Raw>, s: State) {
    && Sound(tree, s.root)
    && (forall f :: IsFile(tree, Norm(f)) ==> (f in s.seen <==> f in before || f in done))
    && (forall x :: x in s.root.files <==> IsFile(tree, x) && Spelled(before, done, x))
  }

  lemma SpelledMore(before: seq<Raw>, done: seq<Raw>, f: Raw, x: seq<string>)
    ensures Spelled(before, done + [f], x) <==> Spelled(before, done, x) || (Norm(f) == x && f !in before)
  {
    var all := done + [f];
    if i :| 0 <= i < |done| && Norm(done[i]) == x && done[i] !in before {
      assert all[i] == done[i];
    }
    if Norm(f) == x && f !in before {
      assert all[|done|] == f;
    }
    if i :| 0 <= i < |all| && Norm(all[i]) == x && all[i] !in before {
      assert i < |done| ==> all[i] == done[i];
    }
  }

  lemma SpelledBy(before: seq<Raw>, files: seq<Raw>, f: Raw)
    requires f in files && f !in before
    ensures Spelled(before, files, Norm(f))
  {
    var i :| 0 <= i < |files| && files[i] == f;
  }

  lemma SeenAfter(tree: Node, s: State, f: Raw, g: Raw)
    requires tree.Dir? && Sound(tree, s.root) && Place(tree, s, f).Some? && IsFile(tree, Norm(g))
    ensures g in Place(tree, s, f).value.seen <==> g in s.seen || g == f
  {
    PlaceFacts(tree, s, f);
    var t := Place(tree, s, f).value;
    if f !in s.seen && Lookup(tree, Norm(f)).Some? {
      assert forall h | h in s.seen + [f] :: h in t.seen;
      assert g in t.seen ==> g in s.seen + [f];
    }
  }

  lemma TallyStep(tree: Node, before: seq<Raw>, done: seq<Raw>, s: State, f: Raw)
    requires tree.Dir? && Tally(tree, before, done, s) && Place(tree, s, f).Some?
    ensures Tally(tree, before, done + [f], Place(tree, s, f).value)
  {
    var t := Place(tree, s, f).value;
    PlaceFacts(tree, s, f);
    forall g | IsFile(tree, Norm(g)) ensures g in t.seen <==> g in before || g in done + [f] {
      SeenAfter(tree, s, f, g);
    }
    forall x ensures x in t.root.files <==> IsFile(tree, x) && Spelled(before, done + [f], x) {
      SpelledMore(before, done, f, x);
      if f in done && f !in before {
        SpelledBy(before, done, f);
      }
    }
  }

  lemma FirstMoved(done: seq<Raw>, files: seq<Raw>)
    requires files != []
    ensures (done + [files[0]]) + files[1..] == done + files
  {
  }

  lemma {:induction false} TallyAll(tree: Node, before: seq<Raw>, done: seq<Raw>, s: State, files: seq<Raw>)
    requires tree.Dir? && Tally(tree, before, done, s) && PlaceAll(tree, s, files).Some?
    ensures Tally(tree, before, done + files, PlaceAll(tree, s, files).value)
    decreases |files|
  {
    if files == [] {
      assert done + files == done;
    } else {
      var t := Place(tree, s, files[0]).value;
      assert PlaceAll(tree, s, files) == PlaceAll(tree, t, files[1..]);
      TallyStep(tree, before, done, s, files[0]);
      TallyAll(tree, before, done + [files[0]], t, files[1..]);
      FirstMoved(done, files);
    }
  }

  lemma PackageTally(tree: Node, seen: seq<Raw>, files: seq<Raw>)
    requires tree.Dir? && PlaceAll(tree, State(seen, EMPTY_ROOT), files).Some?
    ensures Tally(tree, seen, files, PlaceAll(tree, State(seen, EMPTY_ROOT), files).value)
  {
    TallyAll(tree, seen, [], State(seen, EMPTY_ROOT), files);
    assert [] + files == files;
  }

  /** `f` is in the list of package `k` and of no package before it. */
  predicate FirstListed(seen: seq<Raw>, lists: seq<seq<Raw>>, k: nat, f: Raw)
    requires k < |lists|
  {
    f in lists[k] && f !in seen && forall j | 0 <= j < k :: f !in lists[j]
  }

  predicate Ships(seen: seq<Raw>, lists: seq<seq<Raw>>, k: nat, x: seq<string>)
    requires k < |lists|
  {
    exists i | 0 <= i < |lists[k]| :: Norm(lists[k][i]) == x && FirstListed(seen, lists, k, lists[k][i])
  }

  lemma {:induction false} RootCount(tree: Node, seen: seq<Raw>, lists: seq<seq<Raw>>)
    requires Populate(tree, seen, lists).Some?
    ensures |Populate(tree, seen, lists).value.roots| == |lists|
    decreases |lists|
  {
    if lists != [] {
      RootCount(tree, PlaceAll(tree, State(seen, EMPTY_ROOT), lists[0]).value.seen, lists[1..]);
    }
  }

  lemma LaterLists(tree: Node, seen: seq<Raw>, lists: seq<seq<Raw>>, k: nat, x: seq<string>)
    requires tree.Dir? && 0 < k < |lists|
    requires PlaceAll(tree, State(seen, EMPTY_ROOT), lists[0]).Some?
    ensures var later := PlaceAll(tree, State(seen, EMPTY_ROOT), lists[0]).value.seen;
            IsFile(tree, x) ==> (Ships(later, lists[1..], k - 1, x) <==> Ships(seen, lists, k, x))
  {
    if IsFile(tree, x) {
      LaterShips(tree, seen, lists, k, x);
    }
  }

  lemma LaterShips(tree: Node, seen: seq<Raw>, lists: seq<seq<Raw>>, k: nat, x: seq<string>)
    requires tree.Dir? && 0 < k < |lists| && IsFile(tree, x)
    requires PlaceAll(tree, State(seen, EMPTY_ROOT), lists[0]).Some?
    ensures var later := PlaceAll(tree, State(seen, EMPTY_ROOT), lists[0]).value.seen;
            Ships(later, lists[1..], k - 1, x) <==> Ships(seen, lists, k, x)
  {
    var later := PlaceAll(tree, State(seen, EMPTY_ROOT), lists[0]).value.seen;
    PackageTally(tree, seen, lists[0]);
    assert lists[1..][k - 1] == lists[k];
    forall f | Norm(f) == x ensures FirstListed(later, lists[1..], k - 1, f) <==> FirstListed(seen, lists, k, f) {
      if FirstListed(later, lists[1..], k - 1, f) {
        forall j | 0 <= j < k ensures f !in lists[j] {
          assert j > 0 ==> lists[1..][j - 1] == lists[j];
        }
      }
    }
  }

  /** A file is in package `k` exactly when the list of `k` spells it in a way no earlier list does; and
      every package root is a sound tree. */
  lemma {:induction false} FirstListerShips(tree: Node, seen: seq<Raw>, lists: seq<seq<Raw>>, k: nat, x: seq<string>)
    requires tree.Dir? && k < |lists| && Populate(tree, seen, lists).Some?
    ensures var roots := Populate(tree, seen, lists).value.roots;
            && |roots| == |lists| && Sound(tree, roots[k])
            && (x in roots[k].files <==> IsFile(tree, x) && Ships(seen, lists, k, x))
    decreases |lists|
  {
    RootCount(tree, seen, lists);
    if k == 0 {
      FirstPackage(tree, seen, lists, x);
    } else {
      LaterRoots(tree, seen, lists, k);
      var later, rest := PlaceAll(tree, State(seen, EMPTY_ROOT), lists[0]).value.seen, lists[1..];
      FirstListerShips(tree, later, rest, k - 1, x);
      LaterPackage(tree, seen, lists, k, x, later, rest);
    }
  }

  /** What holds of a later package holds of it among all. */
  lemma LaterPackage(tree: Node, seen: seq<Raw>, lists: seq<seq<Raw>>, k: nat, x: seq<string>, later: seq<Raw>, rest: seq<seq<Raw>>)
    requires tree.Dir? && 0 < k < |lists| && Populate(tree, seen, lists).Some? && rest == lists[1..]
    requires var first := PlaceAll(tree, State(seen, EMPTY_ROOT), lists[0]); first.Some? && later == first.value.seen
    requires Populate(tree, later, rest).Some?
    requires var roots := Populate(tree, later, rest).value.roots;
             |roots| == |rest| && Sound(tree, roots[k - 1]) && (x in roots[k - 1].files <==> IsFile(tree, x) && Ships(later, rest, k - 1, x))
    ensures var roots := Populate(tree, seen, lists).value.roots;
            |roots| == |lists| && Sound(tree, roots[k]) && (x in roots[k].files <==> IsFile(tree, x) && Ships(seen, lists, k, x))
  {
    LaterRoots(tree, seen, lists, k);
    LaterLists(tree, seen, lists, k, x);
  }

  lemma LaterRoots(tree: Node, seen: seq<Raw>, lists: seq<seq<Raw>>, k: nat)
    requires 0 < k < |lists| && Populate(tree, seen, lists).Some?
    ensures var first := PlaceAll(tree, State(seen, EMPTY_ROOT), lists[0]);
            && first.Some?
            && var later := Populate(tree, first.value.seen, lists[1..]);
            && later.Some? && |later.value.roots| == |lists| - 1
            && |Populate(tree, seen, lists).value.roots| == |lists|
            && Populate(tree, seen, lists).value.roots[k] == later.value.roots[k - 1]
  {
    RootCount(tree, seen, lists);
  }

  lemma FirstPackage(tree: Node, seen: seq<Raw>, lists: seq<seq<Raw>>, x: seq<string>)
    requires tree.Dir? && lists != [] && Populate(tree, seen, lists).Some?
    ensures var roots := Populate(tree, seen, lists).value.roots;
            && roots != [] && Sound(tree, roots[0])
            && (x in roots[0].files <==> IsFile(tree, x) && Ships(seen, lists, 0, x))
  {
    PackageTally(tree, seen, lists[0]);
    assert Ships(seen, lists, 0, x) <==> Spelled(seen, lists[0], x);
  }
}
