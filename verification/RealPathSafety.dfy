/** Safety of rooted resolution: it stays below the root, leaves no link behind, and a
    larger link budget never changes an answer. */
module RealPathSafety {
  import opened PosixPath
  import opened RealPath

  ghost predicate Below(p: Path, root: Path) {
    root.slash && root.comps <= p.comps
  }

  /** The errors the recursion can end in; a link error names a link. */
  ghost predicate ResolverError(fs: Tree, mode: Mode, e: Error) {
    e.NoDirectory? || ((e.TooManyLinks? || e.NotALink?) && IsLink(fs, mode, e.at))
  }

  lemma ClimbBelow(start: Path, root: Path)
    requires Below(start, root)
    ensures Below(Climb(start, root), root)
    ensures Climb(start, root).comps == if start.slash || start.comps == root.comps then start.comps else start.comps[..|start.comps| - 1]
  {
  }

  /** The target of a link, and what it leads to. */
  function Onward(fs: Tree, mode: Mode, root: Path, next: Result<Path>, n: nat, assumeDir: bool): Result<Found> {
    if next.Err? then Err(next.error) else ResolveLink(fs, mode, root, next.value, n, assumeDir)
  }

  lemma {:induction false} RelStaysBelow(fs: Tree, mode: Mode, root: Path, start: Path, parts: seq<Part>, budget: nat,
                                         haveDir: bool, assumeDir: bool)
    requires Below(start, root)
    ensures var r := ResolveRel(fs, mode, root, start, parts, budget, haveDir, assumeDir);
            if r.Ok? then Below(r.value, root) else ResolverError(fs, mode, r.error)
    decreases budget, 1, |parts|
  {
    if parts != [] && (haveDir || assumeDir) {
      if parts[0] == ".." {
        var up := Climb(start, root);
        ClimbBelow(start, root);
        RelStaysBelow(fs, mode, root, up, parts[1..], budget, haveDir, assumeDir);
      } else {
        var next := Join(start, parts[0]);
        LinkStaysBelow(fs, mode, root, next, budget, assumeDir);
        var step := ResolveLink(fs, mode, root, next, budget, assumeDir);
        if step.Ok? {
          RelStaysBelow(fs, mode, root, step.value.path, parts[1..], budget, step.value.isDir, assumeDir);
        }
      }
    }
  }

  lemma {:induction false} LinkStaysBelow(fs: Tree, mode: Mode, root: Path, file: Path, budget: nat, assumeDir: bool)
    requires Below(file, root)
    ensures var r := ResolveLink(fs, mode, root, file, budget, assumeDir);
            if r.Ok? then Below(r.value.path, root) && r.value.isDir == IsDir(fs, r.value.path)
            else ResolverError(fs, mode, r.error)
    decreases budget, 0, 0
  {
    if IsLink(fs, mode, file) && NotShorter(file, root) && budget > 0 {
      var target := Readlink(fs, file);
      if target.Ok? {
        var tdir := if target.value.abs then root else Dirname(file);
        TargetStaysBelow(fs, mode, root, tdir, LinkParts(target.value), budget - 1, assumeDir);
      }
    }
  }

  lemma {:induction false} TargetStaysBelow(fs: Tree, mode: Mode, root: Path, tdir: Path, parts: seq<Part>, budget: nat, assumeDir: bool)
    requires Below(tdir, root)
    ensures var r := Onward(fs, mode, root, ResolveRel(fs, mode, root, tdir, parts, budget, true, assumeDir), budget, assumeDir);
            if r.Ok? then Below(r.value.path, root) && r.value.isDir == IsDir(fs, r.value.path)
            else ResolverError(fs, mode, r.error)
    decreases budget, 2, 0
  {
    RelStaysBelow(fs, mode, root, tdir, parts, budget, true, assumeDir);
    var next := ResolveRel(fs, mode, root, tdir, parts, budget, true, assumeDir);
    if next.Ok? {
      LinkStaysBelow(fs, mode, root, next.value, budget, assumeDir);
    }
  }

  /** No component strictly below the root and among the first `upto` is a link. */
  ghost predicate Clear(fs: Tree, mode: Mode, root: Path, comps: seq<Name>, upto: int) {
    forall k | |root.comps| < k <= upto && k <= |comps| :: !IsLink(fs, mode, Path(comps[..k], false))
  }

  ghost predicate Resolved(fs: Tree, mode: Mode, root: Path, p: Path) {
    Below(p, root) && Clear(fs, mode, root, p.comps, |p.comps|)
  }

  lemma ClearPrefix(fs: Tree, mode: Mode, root: Path, comps: seq<Name>, comps': seq<Name>, upto: nat)
    requires upto <= |comps| && upto <= |comps'| && comps[..upto] == comps'[..upto]
    requires Clear(fs, mode, root, comps, upto)
    ensures Clear(fs, mode, root, comps', upto)
  {
    forall k | |root.comps| < k <= upto
      ensures !IsLink(fs, mode, Path(comps'[..k], false))
    {
      assert comps'[..k] == comps'[..upto][..k] == comps[..k];
    }
  }

  lemma {:induction false} RelResolves(fs: Tree, mode: Mode, root: Path, start: Path, parts: seq<Part>, budget: nat,
                                       haveDir: bool, assumeDir: bool)
    requires Resolved(fs, mode, root, start)
    ensures var r := ResolveRel(fs, mode, root, start, parts, budget, haveDir, assumeDir);
            r.Ok? ==> Resolved(fs, mode, root, r.value)
    decreases budget, 1, |parts|
  {
    if parts != [] && (haveDir || assumeDir) {
      if parts[0] == ".." {
        var up := Climb(start, root);
        ClimbBelow(start, root);
        ClearPrefix(fs, mode, root, start.comps, up.comps, |up.comps|);
        RelResolves(fs, mode, root, up, parts[1..], budget, haveDir, assumeDir);
      } else {
        var next := Join(start, parts[0]);
        ClearPrefix(fs, mode, root, start.comps, next.comps, |start.comps|);
        LinkResolves(fs, mode, root, next, budget, assumeDir);
        var step := ResolveLink(fs, mode, root, next, budget, assumeDir);
        if step.Ok? {
          RelResolves(fs, mode, root, step.value.path, parts[1..], budget, step.value.isDir, assumeDir);
        }
      }
    }
  }

  /** The loop of `__realpath` never follows a second link: what the first one led to is resolved. */
  lemma OneLinkPerLoop(fs: Tree, mode: Mode, root: Path, p: Path, budget: nat, assumeDir: bool)
    requires Resolved(fs, mode, root, p)
    ensures var r := ResolveLink(fs, mode, root, p, budget, assumeDir);
            if mode == Cached && LinkAt(fs, DropDots(root.comps)) && p == root then r.Err?
            else r == Ok(Found(p, IsDir(fs, p)))
  {
    if p.comps != root.comps {
      assert p.comps[..|p.comps|] == p.comps;
      assert !IsLink(fs, mode, Path(p.comps, false));
    }
  }

  lemma DirnameResolved(fs: Tree, mode: Mode, root: Path, file: Path)
    requires Below(file, root) && Clear(fs, mode, root, file.comps, |file.comps| - if file.slash then 0 else 1)
    requires IsPathBelow(Dirname(file), root)
    ensures Resolved(fs, mode, root, Dirname(file)) && Resolved(fs, mode, root, root)
  {
    ClearPrefix(fs, mode, root, file.comps, Dirname(file).comps, |Dirname(file).comps|);
  }

  lemma {:induction false} LinkResolves(fs: Tree, mode: Mode, root: Path, file: Path, budget: nat, assumeDir: bool)
    requires Below(file, root) && Clear(fs, mode, root, file.comps, |file.comps| - if file.slash then 0 else 1)
    ensures var r := ResolveLink(fs, mode, root, file, budget, assumeDir);
            r.Ok? ==> Resolved(fs, mode, root, r.value.path)
    decreases budget, 0, 0
  {
    if IsLink(fs, mode, file) && NotShorter(file, root) {
      var target := Readlink(fs, file);
      if budget > 0 && target.Ok? {
        var up := Dirname(file);
        DirnameResolved(fs, mode, root, file);
        TargetResolves(fs, mode, root, if target.value.abs then root else up, LinkParts(target.value), budget - 1, assumeDir);
      }
    } else {
      LastIsClear(fs, mode, root, file);
    }
  }

  lemma {:induction false} TargetResolves(fs: Tree, mode: Mode, root: Path, tdir: Path, parts: seq<Part>, budget: nat, assumeDir: bool)
    requires Resolved(fs, mode, root, tdir)
    ensures var next := ResolveRel(fs, mode, root, tdir, parts, budget, true, assumeDir);
            next.Ok? ==> var r := ResolveLink(fs, mode, root, next.value, budget, assumeDir);
                         r.Ok? ==> Resolved(fs, mode, root, r.value.path)
    decreases budget, 2, 0
  {
    RelResolves(fs, mode, root, tdir, parts, budget, true, assumeDir);
    var next := ResolveRel(fs, mode, root, tdir, parts, budget, true, assumeDir);
    if next.Ok? {
      OneLinkPerLoop(fs, mode, root, next.value, budget, assumeDir);
    }
  }

  lemma LastIsClear(fs: Tree, mode: Mode, root: Path, file: Path)
    requires Below(file, root) && Clear(fs, mode, root, file.comps, |file.comps| - if file.slash then 0 else 1)
    requires !IsLink(fs, mode, file) || file.comps == root.comps
    ensures Clear(fs, mode, root, file.comps, |file.comps|)
  {
    assert file.comps[..|file.comps|] == file.comps;
  }

  /** Containment, for every tree, link layout, budget and flag: no internal assertion fails, the
      answer is below the root, and with `use_physdir` nothing in it below the root is a link. */
  lemma NeverEscapes(fs: Tree, mode: Mode, file: Raw, root: Raw, usePhysdir: bool, budget: nat, assumeDir: bool)
    requires root.abs
    ensures var r := Resolve(fs, mode, file, root, usePhysdir, budget, assumeDir);
            match r {
              case Ok(p) => Below(p, RootPath(root)) && (usePhysdir ==> Resolved(fs, mode, RootPath(root), p))
              case Err(e) => !e.AssertionFailed? && !e.TooManyLinks? &&
                             (e.NotBelow? <==> !file.abs || !(Absolute(root).comps <= Absolute(file).comps))
            }
  {
    var r := RootPath(root);
    if file.abs {
      var f := Absolute(file);
      if IsPathBelow(f, r) {
        if usePhysdir {
          RelStaysBelow(fs, mode, r, r, RelParts(f, r), budget, true, assumeDir);
          RelResolves(fs, mode, r, r, RelParts(f, r), budget, true, assumeDir);
        } else {
          LinkStaysBelow(fs, mode, r, f, budget, assumeDir);
        }
      }
    }
  }

  /** A larger budget changes nothing except a "too many links" answer. */
  lemma {:induction false} RelBudget(fs: Tree, mode: Mode, root: Path, start: Path, parts: seq<Part>, n: nat, m: nat,
                                     haveDir: bool, assumeDir: bool)
    requires n <= m
    ensures var r := ResolveRel(fs, mode, root, start, parts, n, haveDir, assumeDir);
            (r.Err? && r.error.TooManyLinks?) || ResolveRel(fs, mode, root, start, parts, m, haveDir, assumeDir) == r
    decreases n, 1, |parts|
  {
    if parts != [] && (haveDir || assumeDir) {
      if parts[0] == ".." {
        RelBudget(fs, mode, root, Climb(start, root), parts[1..], n, m, haveDir, assumeDir);
      } else {
        LinkBudget(fs, mode, root, Join(start, parts[0]), n, m, assumeDir);
        var step := ResolveLink(fs, mode, root, Join(start, parts[0]), n, assumeDir);
        if step.Ok? {
          RelBudget(fs, mode, root, step.value.path, parts[1..], n, m, step.value.isDir, assumeDir);
        }
      }
    }
  }

  lemma {:induction false} LinkBudget(fs: Tree, mode: Mode, root: Path, file: Path, n: nat, m: nat, assumeDir: bool)
    requires n <= m
    ensures var r := ResolveLink(fs, mode, root, file, n, assumeDir);
            (r.Err? && r.error.TooManyLinks?) || ResolveLink(fs, mode, root, file, m, assumeDir) == r
    decreases n, 0, 0
  {
    if IsLink(fs, mode, file) && NotShorter(file, root) && n > 0 {
      var target := Readlink(fs, file);
      if target.Ok? {
        var tdir := if target.value.abs then root else Dirname(file);
        TargetBudget(fs, mode, root, tdir, LinkParts(target.value), n - 1, m - 1, assumeDir);
      }
    }
  }

  lemma {:induction false} TargetBudget(fs: Tree, mode: Mode, root: Path, tdir: Path, parts: seq<Part>, n: nat, m: nat,
                                        assumeDir: bool)
    requires n <= m
    ensures var r := Onward(fs, mode, root, ResolveRel(fs, mode, root, tdir, parts, n, true, assumeDir), n, assumeDir);
            (r.Err? && r.error.TooManyLinks?)
            || Onward(fs, mode, root, ResolveRel(fs, mode, root, tdir, parts, m, true, assumeDir), m, assumeDir) == r
    decreases n, 2, 0
  {
    RelBudget(fs, mode, root, tdir, parts, n, m, true, assumeDir);
    var next := ResolveRel(fs, mode, root, tdir, parts, n, true, assumeDir);
    if next.Ok? {
      LinkBudget(fs, mode, root, next.value, n, m, assumeDir);
    }
  }

  /** An answer other than ELOOP is the answer for every larger budget. */
  lemma BudgetOnlyDecidesLoops(fs: Tree, mode: Mode, file: Raw, root: Raw, usePhysdir: bool, n: nat, m: nat, assumeDir: bool)
    requires root.abs && n <= m
    ensures var r := Resolve(fs, mode, file, root, usePhysdir, n, assumeDir);
            r.Ok? || !r.error.LoopIn? ==> Resolve(fs, mode, file, root, usePhysdir, m, assumeDir) == r
  {
    var r := RootPath(root);
    if file.abs && IsPathBelow(Absolute(file), r) {
      var f := Absolute(file);
      RelBudget(fs, mode, r, r, RelParts(f, r), n, m, true, assumeDir);
      LinkBudget(fs, mode, r, f, n, m, assumeDir);
    }
  }

  /** Success without `assume_dir` is the same success with it. */
  lemma {:induction false} RelAssume(fs: Tree, mode: Mode, root: Path, start: Path, parts: seq<Part>, n: nat,
                                     haveDir: bool, haveDir': bool)
    ensures var r := ResolveRel(fs, mode, root, start, parts, n, haveDir, false);
            r.Ok? ==> ResolveRel(fs, mode, root, start, parts, n, haveDir', true) == r
    decreases n, 1, |parts|
  {
    if parts != [] && haveDir {
      if parts[0] == ".." {
        RelAssume(fs, mode, root, Climb(start, root), parts[1..], n, haveDir, haveDir');
      } else {
        LinkAssume(fs, mode, root, Join(start, parts[0]), n);
        var step := ResolveLink(fs, mode, root, Join(start, parts[0]), n, false);
        if step.Ok? {
          RelAssume(fs, mode, root, step.value.path, parts[1..], n, step.value.isDir, step.value.isDir);
        }
      }
    }
  }

  lemma {:induction false} LinkAssume(fs: Tree, mode: Mode, root: Path, file: Path, n: nat)
    ensures var r := ResolveLink(fs, mode, root, file, n, false);
            r.Ok? ==> ResolveLink(fs, mode, root, file, n, true) == r
    decreases n, 0, 0
  {
    if ResolveLink(fs, mode, root, file, n, false).Ok? && IsLink(fs, mode, file) && NotShorter(file, root) {
      var target := Readlink(fs, file).value;
      TargetAssume(fs, mode, root, if target.abs then root else Dirname(file), LinkParts(target), n - 1);
    }
  }

  /** A link target and what it leads to. */
  lemma {:induction false} TargetAssume(fs: Tree, mode: Mode, root: Path, tdir: Path, parts: seq<Part>, n: nat)
    ensures var next := ResolveRel(fs, mode, root, tdir, parts, n, true, false);
            next.Ok? && ResolveLink(fs, mode, root, next.value, n, false).Ok? ==>
              && ResolveRel(fs, mode, root, tdir, parts, n, true, true) == next
              && ResolveLink(fs, mode, root, next.value, n, true) == ResolveLink(fs, mode, root, next.value, n, false)
    decreases n, 2, 0
  {
    RelAssume(fs, mode, root, tdir, parts, n, true, true);
    var next := ResolveRel(fs, mode, root, tdir, parts, n, true, false);
    if next.Ok? {
      LinkAssume(fs, mode, root, next.value, n);
    }
  }
}
