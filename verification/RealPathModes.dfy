/** The resolver that normalises and caches its stat calls refines the plain one, exactly when
    the root is not itself a link. */
module RealPathModes {
  import opened PosixPath
  import opened RealPath
  import opened RealPathSafety
  import opened RealPathWalk
  import opened RealPathKernel

  /** Every proper prefix of `p`, the root included, is not a link, whatever text names it. */
  ghost predicate Solid(fs: Tree, root: Path, p: Path) {
    Resolved(fs, Cached, root, p) && !LinkAt(fs, DropDots(root.comps))
  }

  lemma SolidIsNoLink(fs: Tree, root: Path, p: Path)
    requires Solid(fs, root, p)
    ensures !LinkAt(fs, DropDots(p.comps)) && Resolved(fs, Plain, root, p)
  {
    assert forall k | |root.comps| < k <= |p.comps| :: !IsLink(fs, Cached, Path(p.comps[..k], false));
    if p.comps != root.comps {
      assert p.comps[..|p.comps|] == p.comps;
      assert !IsLink(fs, Cached, Path(p.comps, false));
    }
  }

  lemma {:induction false} RelModes(fs: Tree, root: Path, start: Path, parts: seq<Part>, n: nat, haveDir: bool, assumeDir: bool)
    requires Solid(fs, root, start)
    ensures ResolveRel(fs, Cached, root, start, parts, n, haveDir, assumeDir)
         == ResolveRel(fs, Plain, root, start, parts, n, haveDir, assumeDir)
    decreases n, 1, |parts|
  {
    if parts != [] && (haveDir || assumeDir) {
      if parts[0] == ".." {
        var up := Climb(start, root);
        ClimbBelow(start, root);
        ClearPrefix(fs, Cached, root, start.comps, up.comps, |up.comps|);
        RelModes(fs, root, up, parts[1..], n, haveDir, assumeDir);
      } else {
        StepModes(fs, root, start, parts[0], n, assumeDir);
        var step := ResolveLink(fs, Cached, root, Join(start, parts[0]), n, assumeDir);
        if step.Ok? {
          RelModes(fs, root, step.value.path, parts[1..], n, step.value.isDir, assumeDir);
        }
      }
    }
  }

  lemma {:induction false} StepModes(fs: Tree, root: Path, start: Path, d: Part, n: nat, assumeDir: bool)
    requires Solid(fs, root, start) && d != ".."
    ensures var r := ResolveLink(fs, Cached, root, Join(start, d), n, assumeDir);
            && r == ResolveLink(fs, Plain, root, Join(start, d), n, assumeDir)
            && (r.Ok? ==> Solid(fs, root, r.value.path))
    decreases n, 0, 1
  {
    var next := Join(start, d);
    ClearPrefix(fs, Cached, root, start.comps, next.comps, |start.comps|);
    OpenEndIsNoLink(fs, root, start, d);
    LinkModes(fs, root, next, n, assumeDir);
    LinkResolves(fs, Cached, root, next, n, assumeDir);
  }

  /** Joining "" or "." to a link-free path gives a text that no longer could name a link. */
  lemma OpenEndIsNoLink(fs: Tree, root: Path, start: Path, d: Part)
    requires Solid(fs, root, start) && d != ".."
    ensures EndsOpen(Join(start, d)) ==> !LinkAt(fs, DropDots(Join(start, d).comps))
  {
    SolidIsNoLink(fs, root, start);
    if d == "." {
      assert Join(start, d).comps[..|start.comps|] == start.comps;
    }
  }

  lemma {:induction false} LinkModes(fs: Tree, root: Path, file: Path, n: nat, assumeDir: bool)
    requires Below(file, root) && Clear(fs, Cached, root, file.comps, |file.comps| - if file.slash then 0 else 1)
    requires !LinkAt(fs, DropDots(root.comps))
    requires EndsOpen(file) ==> !LinkAt(fs, DropDots(file.comps))
    ensures ResolveLink(fs, Cached, root, file, n, assumeDir) == ResolveLink(fs, Plain, root, file, n, assumeDir)
    decreases n, 0, 0
  {
    if IsLink(fs, Plain, file) && NotShorter(file, root) && n > 0 {
      var target := Readlink(fs, file);
      if target.Ok? {
        var up := Dirname(file);
        ClearPrefix(fs, Cached, root, file.comps, up.comps, |up.comps|);
        var tdir := if target.value.abs then root else up;
        RelModes(fs, root, tdir, LinkParts(target.value), n - 1, true, assumeDir);
        var next := ResolveRel(fs, Cached, root, tdir, LinkParts(target.value), n - 1, true, assumeDir);
        RelResolves(fs, Cached, root, tdir, LinkParts(target.value), n - 1, true, assumeDir);
        if next.Ok? {
          SolidIsNoLink(fs, root, next.value);
          OneLinkPerLoop(fs, Cached, root, next.value, n - 1, assumeDir);
          OneLinkPerLoop(fs, Plain, root, next.value, n - 1, assumeDir);
        }
      }
    }
  }

  /** With `use_physdir` both resolvers agree, errors included, if and only if the root is not a link. */
  lemma ModesAgreeIffRootIsNoLink(fs: Tree, file: Raw, root: Raw, n: nat, assumeDir: bool)
    requires root.abs && file.abs && Absolute(root).comps <= Absolute(file).comps
    ensures Resolve(fs, Cached, file, root, true, n, assumeDir) == Resolve(fs, Plain, file, root, true, n, assumeDir)
       <==> !LinkAt(fs, Absolute(root).comps)
  {
    var r := RootPath(root);
    var f := Absolute(file);
    DropDotsId(r.comps);
    var parts := RelParts(f, r);
    if !LinkAt(fs, r.comps) {
      RelModes(fs, r, r, parts, n, true, assumeDir);
    } else {
      assert Join(r, parts[0]) == r;
      OneLinkPerLoop(fs, Cached, r, r, n, assumeDir);
      RelStaysBelow(fs, Plain, r, r, parts, n, true, assumeDir);
      var cached := ResolveLink(fs, Cached, r, r, n, assumeDir);
      assert cached.error.at == r;
    }
  }

  // ---- without use_physdir ---------------------------------------------------------------

  /** A path without "."; only the root itself may end in '/'. */
  ghost predicate Dotless(root: Path, p: Path) {
    Below(p, root) && "." !in p.comps && (p.slash ==> p.comps == root.comps)
  }

  lemma SameText(fs: Tree, root: Path, p: Path)
    requires Dotless(root, p) && !LinkAt(fs, DropDots(root.comps))
    ensures IsLink(fs, Cached, p) == IsLink(fs, Plain, p)
  {
    if !p.slash {
      assert p.comps[|p.comps| - 1] in p.comps;
    }
  }

  lemma {:induction false} DotlessRel(fs: Tree, root: Path, start: Path, parts: seq<Part>, n: nat, haveDir: bool, assumeDir: bool)
    requires NoDotTargets(fs) && !LinkAt(fs, DropDots(root.comps)) && "." !in root.comps
    requires Dotless(root, start) && "." !in parts && Walkable(root, start, parts)
    ensures var r := ResolveRel(fs, Cached, root, start, parts, n, haveDir, assumeDir);
            && r == ResolveRel(fs, Plain, root, start, parts, n, haveDir, assumeDir)
            && (r.Ok? ==> Dotless(root, r.value))
    decreases n, 1, |parts|
  {
    if parts != [] && (haveDir || assumeDir) {
      WalkableRest(root, start, parts);
      if parts[0] == ".." {
        ClimbBelow(start, root);
        DotlessRel(fs, root, Climb(start, root), parts[1..], n, haveDir, assumeDir);
      } else {
        var next := Join(start, parts[0]);
        DotlessLink(fs, root, next, n, assumeDir);
        var step := ResolveLink(fs, Cached, root, next, n, assumeDir);
        if step.Ok? && IsPathBelow(step.value.path, root) {
          DotlessNext(fs, root, start, parts, n, assumeDir, step.value);
          DotlessRel(fs, root, step.value.path, parts[1..], n, step.value.isDir, assumeDir);
        }
      }
    }
  }

  /** Only a part "" needs the path at the root, and there no link is followed. */
  lemma DotlessNext(fs: Tree, root: Path, start: Path, parts: seq<Part>, n: nat, assumeDir: bool, found: Found)
    requires !LinkAt(fs, DropDots(root.comps)) && Dotless(root, start) && Walkable(root, start, parts)
    requires parts != [] && parts[0] != ".."
    requires ResolveLink(fs, Cached, root, Join(start, parts[0]), n, assumeDir) == Ok(found)
    ensures Walkable(root, found.path, parts[1..])
  {
    if "" in parts[1..] {
      assert "" in parts && Join(start, parts[0]) == Path(start.comps, true);
      WalkableAtRoot(root, start, found.path, parts[1..]);
    }
  }

  lemma {:induction false} DotlessLink(fs: Tree, root: Path, file: Path, n: nat, assumeDir: bool)
    requires NoDotTargets(fs) && !LinkAt(fs, DropDots(root.comps)) && "." !in root.comps && Dotless(root, file)
    ensures var r := ResolveLink(fs, Cached, root, file, n, assumeDir);
            && r == ResolveLink(fs, Plain, root, file, n, assumeDir)
            && (r.Ok? ==> Dotless(root, r.value.path))
    decreases n, 0, 0
  {
    SameText(fs, root, file);
    if IsLink(fs, Plain, file) && NotShorter(file, root) && n > 0 {
      var target := Readlink(fs, file);
      if target.Ok? {
        var tdir := if target.value.abs then root else Dirname(file);
        if IsPathBelow(tdir, root) {
          LinkPartsWalkable(fs, root, tdir, DropDots(file.comps));
          DotlessTarget(fs, root, tdir, LinkParts(target.value), n - 1, assumeDir);
        }
      }
    }
  }

  lemma {:induction false} DotlessTarget(fs: Tree, root: Path, tdir: Path, parts: seq<Part>, n: nat, assumeDir: bool)
    requires NoDotTargets(fs) && !LinkAt(fs, DropDots(root.comps)) && "." !in root.comps
    requires Dotless(root, tdir) && "." !in parts && Walkable(root, tdir, parts)
    ensures var r := Onward(fs, Cached, root, ResolveRel(fs, Cached, root, tdir, parts, n, true, assumeDir), n, assumeDir);
            && r == Onward(fs, Plain, root, ResolveRel(fs, Plain, root, tdir, parts, n, true, assumeDir), n, assumeDir)
            && (r.Ok? ==> Dotless(root, r.value.path))
    decreases n, 2, 0
  {
    DotlessRel(fs, root, tdir, parts, n, true, assumeDir);
    var next := ResolveRel(fs, Cached, root, tdir, parts, n, true, assumeDir);
    if next.Ok? {
      DotlessLink(fs, root, next.value, n, assumeDir);
    }
  }

  /** Without `use_physdir` they agree as long as the caller keeps the documented promise that no directory
      on the way down from the root is a link; or without that promise where no link leads to ".". */
  lemma ModesAgreeUnresolved(fs: Tree, file: Raw, root: Raw, n: nat, assumeDir: bool)
    requires root.abs && file.abs && Absolute(root).comps <= Absolute(file).comps && !LinkAt(fs, Absolute(root).comps)
    requires || NoDotTargets(fs)
             || forall k | |Absolute(root).comps| <= k < |Absolute(file).comps| :: !LinkAt(fs, Absolute(file).comps[..k])
    ensures Resolve(fs, Cached, file, root, false, n, assumeDir) == Resolve(fs, Plain, file, root, false, n, assumeDir)
  {
    var r := RootPath(root);
    var f := Absolute(file);
    DropDotsId(r.comps);
    if NoDotTargets(fs) {
      DotlessLink(fs, r, f, n, assumeDir);
    } else {
      DropDotsId(f.comps);
      NoLinkIsClear(fs, r, f.comps, |f.comps| - 1);
      LinkModes(fs, r, f, n, assumeDir);
    }
  }

  lemma NoLinkIsClear(fs: Tree, root: Path, comps: seq<Name>, upto: int)
    requires "." !in comps && upto <= |comps|
    requires forall k | |root.comps| <= k <= upto :: !LinkAt(fs, comps[..k])
    ensures Clear(fs, Cached, root, comps, upto)
  {
    forall k | |root.comps| < k <= upto
      ensures !IsLink(fs, Cached, Path(comps[..k], false))
    {
      DropDotsId(comps[..k]);
    }
  }
}
