/** The main statements about `realpath` as callers see it. */
module RealPathResults {
  import opened PosixPath
  import opened RealPath
  import opened RealPathSafety
  import opened RealPathWalk
  import opened RealPathKernel

  /** Where the flat walk starts for a file below the root. */
  function Outset(file: Raw, root: Raw): Walker
    requires root.abs && file.abs && IsPathBelow(Absolute(file), RootPath(root))
  {
    Walker([], RelParts(Absolute(file), RootPath(root)))
  }

  lemma OutsetIsWalkable(file: Raw, root: Raw)
    requires root.abs && file.abs && IsPathBelow(Absolute(file), RootPath(root))
    ensures Walkable(RootPath(root), RootPath(root), Outset(file, root).todo)
  {
    var f, r := Absolute(file), RootPath(root);
    var parts := RelParts(f, r);
    assert parts[1..] == if f.comps == [] then [""] else f.comps[|r.comps|..];
    if f.comps != [] {
      assert "" !in parts[1..];
    }
  }

  lemma {:induction false} ReachesOnce(fs: Tree, root: seq<Name>, k: nat, k': nat, w: Walker, end: seq<Name>, end': seq<Name>)
    requires Reaches(fs, root, k, w, end) && Reaches(fs, root, k', w, end')
    ensures k == k' && end == end'
    decreases k
  {
    if w.todo != [] {
      ReachesOnce(fs, root, k - 1, k' - 1, WalkStep(fs, root, w), end, end');
    }
  }

  /** When missing directories are tolerated the recursion fails on exhausted budgets only. */
  lemma {:induction false} OnlyLoopsFail(fs: Tree, root: Path, start: Path, parts: seq<Part>, n: nat, haveDir: bool, assumeDir: bool)
    requires Below(start, root) && LinksHaveTargets(fs) && assumeDir
    ensures var r := ResolveRel(fs, Plain, root, start, parts, n, haveDir, assumeDir);
            if r.Ok? then Below(r.value, root) else r.error.TooManyLinks?
    decreases n, 1, |parts|
  {
    if parts != [] {
      if parts[0] == ".." {
        ClimbBelow(start, root);
        OnlyLoopsFail(fs, root, Climb(start, root), parts[1..], n, haveDir, assumeDir);
      } else {
        OnlyLoopsFailAtLink(fs, root, Join(start, parts[0]), n, assumeDir);
        var step := ResolveLink(fs, Plain, root, Join(start, parts[0]), n, assumeDir);
        if step.Ok? {
          OnlyLoopsFail(fs, root, step.value.path, parts[1..], n, step.value.isDir, assumeDir);
        }
      }
    }
  }

  lemma {:induction false} OnlyLoopsFailAtLink(fs: Tree, root: Path, file: Path, n: nat, assumeDir: bool)
    requires Below(file, root) && LinksHaveTargets(fs) && assumeDir
    ensures var r := ResolveLink(fs, Plain, root, file, n, assumeDir);
            if r.Ok? then Below(r.value.path, root) else r.error.TooManyLinks?
    decreases n, 0, 0
  {
    if IsLink(fs, Plain, file) && NotShorter(file, root) && n > 0 {
      var target := Readlink(fs, file).value;
      var tdir := if target.abs then root else Dirname(file);
      OnlyLoopsFail(fs, root, tdir, LinkParts(target), n - 1, true, assumeDir);
      var next := ResolveRel(fs, Plain, root, tdir, LinkParts(target), n - 1, true, assumeDir);
      if next.Ok? {
        OnlyLoopsFailAtLink(fs, root, next.value, n - 1, assumeDir);
      }
    }
  }

  /** The flat walk of `file` ends after `k` steps at `end`, counted from the root. */
  ghost predicate WalkEnds(fs: Tree, file: Raw, root: Raw, k: nat, end: seq<Name>)
    requires root.abs && file.abs && IsPathBelow(Absolute(file), RootPath(root))
  {
    Reaches(fs, Absolute(root).comps, k, Outset(file, root), end)
  }

  /** On every tree rooted resolution is the flat walk: a success is the walk's end; a failure with `assume_dir` is
      ELOOP, and then the walk takes more steps than the budget allows links. */
  lemma ResolutionIsTheWalk(fs: Tree, file: Raw, root: Raw, n: nat, assumeDir: bool)
    requires root.abs && file.abs && IsPathBelow(Absolute(file), RootPath(root))
    requires LinksHaveTargets(fs)
    ensures var r := Resolve(fs, Plain, file, root, true, n, assumeDir);
            match r {
              case Ok(p) =>
                Below(p, RootPath(root)) && exists k: nat :: WalkEnds(fs, file, root, k, Rel(p, RootPath(root)))
              case Err(e) =>
                assumeDir ==> (e.LoopIn? && forall k: nat, end | k <= n :: !WalkEnds(fs, file, root, k, end))
            }
  {
    var r, f := RootPath(root), Absolute(file);
    var parts := RelParts(f, r);
    OutsetIsWalkable(file, root);
    assert Rel(r, r) == [];
    var res := ResolveRel(fs, Plain, r, r, parts, n, true, assumeDir);
    if res.Ok? {
      var k, p := ResolverFollowsWalk(fs, r, r, parts, n, true, assumeDir);
      assert WalkEnds(fs, file, root, k, Rel(p, r));
    } else if assumeDir {
      OnlyLoopsFail(fs, r, r, parts, n, true, assumeDir);
      forall k: nat, end | k <= n
        ensures !WalkEnds(fs, file, root, k, end)
      {
        if WalkEnds(fs, file, root, k, end) {
          var p := WalkGivesResolver(fs, r, r, parts, n, true, assumeDir, k, end);
        }
      }
    }
  }

  // ---- the walk of a kernel --------------------------------------------------------------

  ghost predicate KernelEnds(fs: Tree, file: Raw, root: Raw, k: nat, end: seq<Name>)
    requires root.abs && file.abs && IsPathBelow(Absolute(file), RootPath(root))
  {
    KernelReaches(fs, Absolute(root).comps, k, Outset(file, root), end)
  }

  /** On the whole walk of `file` no ".." takes away a "." that a link left behind. */
  ghost predicate SteadyWalk(fs: Tree, file: Raw, root: Raw)
    requires root.abs && file.abs && IsPathBelow(Absolute(file), RootPath(root))
  {
    forall k: nat :: Steady(fs, Absolute(root).comps, k, Outset(file, root))
  }

  lemma OutsetIsItsShadow(file: Raw, root: Raw)
    requires root.abs && file.abs && IsPathBelow(Absolute(file), RootPath(root))
    ensures Shadow(Outset(file, root)) == Outset(file, root)
    ensures "." !in Outset(file, root).todo && ".." !in Outset(file, root).todo
  {
  }

  /** Where the walk is steady, rooted resolution is the walk of a kernel, up to "." in the answer. */
  lemma ResolutionIsTheKernelWalk(fs: Tree, file: Raw, root: Raw, n: nat, assumeDir: bool)
    requires root.abs && file.abs && IsPathBelow(Absolute(file), RootPath(root))
    requires LinksHaveTargets(fs) && SteadyWalk(fs, file, root)
    ensures var r := Resolve(fs, Plain, file, root, true, n, assumeDir);
            match r {
              case Ok(p) =>
                Below(p, RootPath(root)) && exists k: nat :: KernelEnds(fs, file, root, k, DropDots(Rel(p, RootPath(root))))
              case Err(e) =>
                assumeDir ==> (e.LoopIn? && forall k: nat, end | k <= n :: !KernelEnds(fs, file, root, k, end))
            }
  {
    ResolutionIsTheWalk(fs, file, root, n, assumeDir);
    OutsetIsItsShadow(file, root);
    var r := Resolve(fs, Plain, file, root, true, n, assumeDir);
    if r.Ok? {
      var rel := Rel(r.value, RootPath(root));
      var k: nat :| WalkEnds(fs, file, root, k, rel);
      SteadyEnd(fs, Absolute(root).comps, k, Outset(file, root), rel);
      assert KernelEnds(fs, file, root, k, DropDots(rel));
    } else if assumeDir {
      forall k: nat, end | k <= n
        ensures !KernelEnds(fs, file, root, k, end)
      {
        if KernelEnds(fs, file, root, k, end) {
          var e := SteadyStart(fs, Absolute(root).comps, k, Outset(file, root), end);
          assert WalkEnds(fs, file, root, k, e);
        }
      }
    }
  }

  /** Every walk is steady where no link leads to ".", or where none begins with "..". */
  lemma SteadyTrees(fs: Tree, file: Raw, root: Raw)
    requires root.abs && file.abs && IsPathBelow(Absolute(file), RootPath(root))
    ensures NoDotTargets(fs) || NoClimbingTargets(fs) ==> SteadyWalk(fs, file, root)
  {
    OutsetIsItsShadow(file, root);
    forall k: nat | NoDotTargets(fs) || NoClimbingTargets(fs)
      ensures Steady(fs, Absolute(root).comps, k, Outset(file, root))
    {
      if NoDotTargets(fs) {
        NoDotsIsSteady(fs, Absolute(root).comps, k, Outset(file, root));
      } else {
        NoClimbIsSteady(fs, Absolute(root).comps, k, Outset(file, root));
      }
    }
  }

  lemma {:induction false} ClearWithoutDots(fs: Tree, mode: Mode, root: Path, comps: seq<Name>)
    requires root.comps <= comps && "." !in root.comps && Clear(fs, mode, root, comps, |comps|)
    ensures root.comps <= DropDots(comps)
    ensures forall k | |root.comps| < k <= |DropDots(comps)| :: !LinkAt(fs, DropDots(comps)[..k])
    decreases |comps|
  {
    if comps == root.comps {
      DropDotsId(comps);
    } else {
      var init := comps[..|comps| - 1];
      ClearPrefix(fs, mode, root, comps, init, |init|);
      ClearWithoutDots(fs, mode, root, init);
      var q, q' := DropDots(init), DropDots(comps);
      assert comps[..|comps|] == comps;
      assert !IsLink(fs, mode, Path(comps, false));
      forall k | |root.comps| < k <= |q'|
        ensures !LinkAt(fs, q'[..k])
      {
        if k <= |q| {
          assert q'[..k] == q[..k];
        } else {
          assert q'[..k] == q';
        }
      }
    }
  }

  /** A link-free path is walked straight through. */
  lemma {:induction false} StraightThrough(fs: Tree, mode: Mode, root: Path, start: Path, rest: seq<Name>, n: nat,
                                           haveDir: bool, assumeDir: bool)
    requires Below(start, root) && "." !in start.comps && "." !in rest && assumeDir
    requires forall k | |start.comps| < k <= |start.comps + rest| :: !LinkAt(fs, (start.comps + rest)[..k])
    ensures ResolveRel(fs, mode, root, start, rest, n, haveDir, assumeDir)
         == Ok(Path(start.comps + rest, start.slash && rest == []))
    decreases |rest|
  {
    if rest == [] {
      assert start.comps + rest == start.comps;
    } else {
      var next := Join(start, rest[0]);
      assert next.comps + rest[1..] == start.comps + rest;
      assert (start.comps + rest)[..|next.comps|] == next.comps;
      DropDotsId(next.comps);
      assert ResolveLink(fs, mode, root, next, n, assumeDir) == Ok(Found(next, IsDir(fs, next)));
      StraightThrough(fs, mode, root, next, rest[1..], n, IsDir(fs, next), assumeDir);
    }
  }

  /** Resolving an answer again, with any budget and `assume_dir`, only tidies its text: "." components
      go, and the root itself gets its slash. */
  lemma ResolvedAgain(fs: Tree, mode: Mode, file: Raw, root: Raw, n: nat, m: nat, assumeDir: bool, p: Path)
    requires root.abs && Resolve(fs, mode, file, root, true, n, assumeDir) == Ok(p)
    ensures var q := DropDots(p.comps);
            && Absolute(root).comps <= q
            && Resolve(fs, mode, AsRaw(p), root, true, m, true) == Ok(Path(q, q == Absolute(root).comps))
  {
    var r := RootPath(root);
    var q := DropDots(p.comps);
    NeverEscapes(fs, mode, file, root, true, n, assumeDir);
    ClearWithoutDots(fs, mode, r, p.comps);
    NormalOfBuilt(p);
    assert Absolute(AsRaw(p)).comps == q;
    RootIsNoLink(fs, mode, r, RelParts(Absolute(file), r), n, assumeDir);
    TidyPathResolves(fs, mode, r, q, m);
  }

  lemma TidyPathResolves(fs: Tree, mode: Mode, r: Path, q: seq<Name>, m: nat)
    requires r.slash && r.comps <= q && "." !in q
    requires mode == Cached ==> !LinkAt(fs, DropDots(r.comps))
    requires forall k | |r.comps| < k <= |q| :: !LinkAt(fs, q[..k])
    ensures ResolveRel(fs, mode, r, r, RelParts(Path(q, q == []), r), m, true, true) == Ok(Path(q, q == r.comps))
  {
    var parts := RelParts(Path(q, q == []), r);
    RootRound(fs, mode, r, parts, m, true);
    if q == [] {
      RootRound(fs, mode, r, parts[1..], m, IsDir(fs, r));
    } else {
      var rest := q[|r.comps|..];
      assert r.comps + rest == q && parts[1..] == rest;
      StraightThrough(fs, mode, r, r, rest, m, IsDir(fs, r), true);
    }
  }

  /** A cached lookup that found the root to be a link would have failed. */
  lemma RootIsNoLink(fs: Tree, mode: Mode, r: Path, parts: seq<Part>, n: nat, assumeDir: bool)
    requires r.slash && parts != [] && parts[0] == ""
    requires ResolveRel(fs, mode, r, r, parts, n, true, assumeDir).Ok?
    ensures mode == Cached ==> !LinkAt(fs, DropDots(r.comps))
  {
    assert Join(r, parts[0]) == r;
    OneLinkPerLoop(fs, mode, r, r, n, assumeDir);
  }

  /** A part "" at the root stays there, unless a cached lookup finds the root to be a link. */
  lemma RootRound(fs: Tree, mode: Mode, r: Path, parts: seq<Part>, n: nat, haveDir: bool)
    requires r.slash && parts != [] && parts[0] == ""
    requires mode == Cached ==> !LinkAt(fs, DropDots(r.comps))
    ensures ResolveRel(fs, mode, r, r, parts, n, haveDir, true) == ResolveRel(fs, mode, r, r, parts[1..], n, IsDir(fs, r), true)
  {
    assert Join(r, parts[0]) == r;
  }
}
