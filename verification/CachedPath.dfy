/** cachedpath.py: the same resolver on stat caches. */
module CachedPathLib {
  import opened Wrappers
  import opened PosixPath
  import opened RealPath
  import opened StatCaches

  class CachedPath {
    var statcache: map<Raw, Option<StatInfo>>
    var lstatcache: map<Raw, Option<StatInfo>>
    var normpathcache: map<Raw, Raw>

    function Now(): Caches
      reads this
    {
      Caches(statcache, lstatcache, normpathcache)
    }

    constructor ()
      ensures forall fs :: Coherent(Now(), fs)
    {
      statcache, lstatcache, normpathcache := map[], map[], map[];
    }

    method UpdateCache(x: Raw)
      modifies this
      ensures Now() == AfterUpdate(old(Now()), x)
    {
      var p := NormPath(x);
      if p in statcache {
        statcache := statcache - {p};
      }
      if p in lstatcache {
        lstatcache := lstatcache - {p};
      }
    }

    method NormPath(path: Raw) returns (r: Raw)
      modifies this`normpathcache
      ensures r == NormOf(old(Now()), path) && Now() == AfterNorm(old(Now()), path)
    {
      if path in normpathcache {
        return normpathcache[path];
      }
      r := NormalForm(path);
      normpathcache := normpathcache[path := r];
    }

    method FillStat(fs: Tree, path: Raw) returns (st: Option<StatInfo>)
      modifies this`statcache
      ensures statcache == if path in old(statcache) then old(statcache) else old(statcache)[path := OsStat(fs, path)]
      ensures path in statcache && st == statcache[path]
    {
      if path in statcache {
        return statcache[path];
      }
      st := OsStat(fs, path);
      statcache := statcache[path := st];
    }

    /** The second lookup cannot miss. */
    method CallStat(fs: Tree, path: Raw) returns (st: Option<StatInfo>)
      requires Coherent(Now(), fs) && StatLaw(fs)
      modifies this
      ensures Now() == AfterStat(old(Now()), fs, path)
      ensures Coherent(Now(), fs) && st == OsStat(fs, NormalForm(path))
    {
      StatCoherent(Now(), fs, path);
      NormpathIdempotent(path);
      var p := NormPath(path);
      var _ := CallLstat(fs, p);
      return statcache[p];
    }

    method CallLstat(fs: Tree, path: Raw) returns (lst: Option<StatInfo>)
      requires Coherent(Now(), fs) && StatLaw(fs)
      modifies this
      ensures Now() == AfterLstat(old(Now()), fs, path)
      ensures Coherent(Now(), fs) && lst == OsLstat(fs, NormalForm(path))
    {
      LstatCoherent(Now(), fs, path);
      var p := NormPath(path);
      if p in lstatcache {
        return lstatcache[p];
      }
      lst := OsLstat(fs, p);
      lstatcache := lstatcache[p := lst];
      if lst.None? {
        statcache := statcache[p := None];
      } else if lst.value.kind != Symlink {
        statcache := statcache[p := lst];
      } else {
        var _ := FillStat(fs, p);
      }
    }

    method IsFile(fs: Tree, path: Raw) returns (b: bool)
      requires Coherent(Now(), fs) && StatLaw(fs)
      modifies this
      ensures Coherent(Now(), fs)
      ensures b <==> OsStat(fs, NormalForm(path)).Some? && OsStat(fs, NormalForm(path)).value.kind == Regular
    {
      var st := CallStat(fs, path);
      return st.Some? && st.value.kind == Regular;
    }

    method CheckDir(fs: Tree, path: Raw) returns (b: bool)
      requires Coherent(Now(), fs) && StatLaw(fs)
      modifies this
      ensures Coherent(Now(), fs)
      ensures b <==> OsStat(fs, NormalForm(path)).Some? && OsStat(fs, NormalForm(path)).value.kind == Directory
    {
      var st := CallStat(fs, path);
      return st.Some? && st.value.kind == Directory;
    }

    method CheckLink(fs: Tree, path: Raw) returns (b: bool)
      requires Coherent(Now(), fs) && StatLaw(fs)
      modifies this
      ensures Coherent(Now(), fs)
      ensures b <==> OsLstat(fs, NormalForm(path)).Some? && OsLstat(fs, NormalForm(path)).value.kind == Symlink
    {
      var lst := CallLstat(fs, path);
      return lst.Some? && lst.value.kind == Symlink;
    }

    method Exists(fs: Tree, path: Raw) returns (b: bool)
      requires Coherent(Now(), fs) && StatLaw(fs)
      modifies this
      ensures Coherent(Now(), fs) && (b <==> OsStat(fs, NormalForm(path)).Some?)
    {
      var st := CallStat(fs, path);
      return st.Some?;
    }

    method Lexists(fs: Tree, path: Raw) returns (b: bool)
      requires Coherent(Now(), fs) && StatLaw(fs)
      modifies this
      ensures Coherent(Now(), fs) && (b <==> OsLstat(fs, NormalForm(path)).Some?)
    {
      var lst := CallLstat(fs, path);
      return lst.Some?;
    }

    /** `islink` of a path the resolver built. */
    method BuiltIsLink(fs: Tree, p: Path) returns (b: bool)
      requires Coherent(Now(), fs) && StatLaw(fs)
      modifies this
      ensures Coherent(Now(), fs) && (b <==> IsLink(fs, Cached, p))
    {
      NormalOfBuilt(p);
      b := CheckLink(fs, AsRaw(p));
    }

    method BuiltIsDir(fs: Tree, p: Path) returns (b: bool)
      requires Coherent(Now(), fs) && StatLaw(fs)
      modifies this
      ensures Coherent(Now(), fs) && (b <==> IsDir(fs, p))
    {
      NormalOfBuilt(p);
      b := CheckDir(fs, AsRaw(p));
    }

    method RealpathRel(fs: Tree, start0: Path, relPath: seq<Part>, root: Path, loopCnt: nat, assumeDir: bool) returns (r: Result<Path>)
      requires Coherent(Now(), fs) && StatLaw(fs)
      requires root.slash && IsPathBelow(start0, root)
      modifies this
      ensures Coherent(Now(), fs)
      ensures r == ResolveRel(fs, Cached, root, start0, relPath, loopCnt, true, assumeDir)
      decreases loopCnt, 1
    {
      var start, haveDir := start0, true;
      for i := 0 to |relPath|
        invariant Coherent(Now(), fs) && IsPathBelow(start, root)
        invariant ResolveRel(fs, Cached, root, start, relPath[i..], loopCnt, haveDir, assumeDir)
               == ResolveRel(fs, Cached, root, start0, relPath, loopCnt, true, assumeDir)
      {
        var d := relPath[i];
        assert relPath[i..][1..] == relPath[i + 1..];
        if !haveDir && !assumeDir {
          return Err(NoDirectory(start));
        }
        TextNotShorter(start, root);
        if d == ".." {
          if |Text(start)| >= |Text(root)| {
            start := Dirname(start);
          }
        } else {
          var found := RealpathLink(fs, Join(start, d), root, loopCnt, assumeDir);
          if found.Err? {
            return Err(found.error);
          }
          start, haveDir := found.value.path, found.value.isDir;
        }
        TextBelow(start, root);
        if !StartsWith(Text(start) + "/", Text(root)) {
          return Err(AssertionFailed);
        }
      }
      return Ok(start);
    }

    method RealpathLink(fs: Tree, file0: Path, root: Path, loopCnt: nat, assumeDir: bool) returns (r: Result<Found>)
      requires Coherent(Now(), fs) && StatLaw(fs)
      requires root.slash && IsPathBelow(file0, root)
      modifies this
      ensures Coherent(Now(), fs)
      ensures r == ResolveLink(fs, Cached, root, file0, loopCnt, assumeDir)
      decreases loopCnt, 0
    {
      var file: Path, budget: nat := file0, loopCnt;
      TextNotShorter(file, root);
      var more := BuiltIsLink(fs, file);
      while more && |Text(file)| >= |Text(root)|
        invariant Coherent(Now(), fs)
        invariant budget <= loopCnt && IsPathBelow(file, root)
        invariant more == IsLink(fs, Cached, file)
        invariant |Text(file)| >= |Text(root)| <==> NotShorter(file, root)
        invariant ResolveLink(fs, Cached, root, file, budget, assumeDir)
               == ResolveLink(fs, Cached, root, file0, loopCnt, assumeDir)
        decreases budget
      {
        if budget == 0 {
          return Err(TooManyLinks(file));
        }
        budget := budget - 1;
        var target := Readlink(fs, file);
        if target.Err? {
          return Err(target.error);
        }
        var tdir := root;
        if !target.value.abs {
          tdir := Dirname(file);
          TextBelow(tdir, root);
          if !StartsWith(Text(tdir) + "/", Text(root)) {
            return Err(AssertionFailed);
          }
        }
        var next := RealpathRel(fs, tdir, LinkParts(target.value), root, budget, assumeDir);
        if next.Err? {
          return Err(next.error);
        }
        RelEndsBelow(fs, Cached, root, tdir, LinkParts(target.value), budget, true, assumeDir);
        file := next.value;
        TextNotShorter(file, root);
        more := BuiltIsLink(fs, file);
      }
      var isDir := BuiltIsDir(fs, file);
      return Ok(Found(file, isDir));
    }

    method Realpath(fs: Tree, file0: Raw, root0: Raw, usePhysdir: bool, loopCnt: nat, assumeDir: bool) returns (r: Result<Path>)
      requires Coherent(Now(), fs) && StatLaw(fs)
      requires root0.abs
      modifies this
      ensures Coherent(Now(), fs)
      ensures r == Resolve(fs, Cached, file0, root0, usePhysdir, loopCnt, assumeDir)
    {
      var root := Path(Absolute(root0).comps, true);
      if !file0.abs {
        return Err(NotBelow);
      }
      var file := Absolute(file0);
      TextBelow(file, root);
      if !StartsWith(Text(file) + "/", Text(root)) {
        return Err(NotBelow);
      }
      if usePhysdir {
        r := RealpathRel(fs, root, RelParts(file, root), root, loopCnt, assumeDir);
      } else {
        var found := RealpathLink(fs, file, root, loopCnt, assumeDir);
        r := if found.Err? then Err(found.error) else Ok(found.value.path);
      }
      if r.Err? && r.error.TooManyLinks? {
        r := Err(LoopIn(file, r.error.at));
      }
    }
  }
}
