/** path.py: rooted resolution that asks the operating system about every path anew. */
module PathLib {
  import opened PosixPath
  import opened RealPath

  method RealpathRel(fs: Tree, start0: Path, relPath: seq<Part>, root: Path, loopCnt: nat, assumeDir: bool) returns (r: Result<Path>)
    requires root.slash && IsPathBelow(start0, root)
    ensures r == ResolveRel(fs, Plain, root, start0, relPath, loopCnt, true, assumeDir)
    decreases loopCnt, 1
  {
    var start, haveDir := start0, true;
    for i := 0 to |relPath|
      invariant IsPathBelow(start, root)
      invariant ResolveRel(fs, Plain, root, start, relPath[i..], loopCnt, haveDir, assumeDir)
             == ResolveRel(fs, Plain, root, start0, relPath, loopCnt, true, assumeDir)
    {
      var d := relPath[i];
      assert relPath[i..][1..] == relPath[i + 1..];
      if !haveDir && !assumeDir {
        return Err(NoDirectory(start));
      }
      TextNotShorter(start, root);
      if d == ".." {
        if |Text(start)| >= |Text(root)| {
          start := Dirname(start);
        }
      } else {
        var found := RealpathLink(fs, Join(start, d), root, loopCnt, assumeDir);
        if found.Err? {
          return Err(found.error);
        }
        start, haveDir := found.value.path, found.value.isDir;
      }
      TextBelow(start, root);
      if !StartsWith(Text(start) + "/", Text(root)) {
        return Err(AssertionFailed);
      }
    }
    return Ok(start);
  }

  method RealpathLink(fs: Tree, file0: Path, root: Path, loopCnt: nat, assumeDir: bool) returns (r: Result<Found>)
    requires root.slash && IsPathBelow(file0, root)
    ensures r == ResolveLink(fs, Plain, root, file0, loopCnt, assumeDir)
    decreases loopCnt, 0
  {
    var file: Path, budget: nat := file0, loopCnt;
    TextNotShorter(file, root);
    while IsLink(fs, Plain, file) && |Text(file)| >= |Text(root)|
      invariant budget <= loopCnt && IsPathBelow(file, root)
      invariant |Text(file)| >= |Text(root)| <==> NotShorter(file, root)
      invariant ResolveLink(fs, Plain, root, file, budget, assumeDir)
             == ResolveLink(fs, Plain, root, file0, loopCnt, assumeDir)
      decreases budget
    {
      if budget == 0 {
        return Err(TooManyLinks(file));
      }
      budget := budget - 1;
      var target := Readlink(fs, file);
      if target.Err? {
        return Err(target.error);
      }
      var tdir := root;
      if !target.value.abs {
        tdir := Dirname(file);
        TextBelow(tdir, root);
        if !StartsWith(Text(tdir) + "/", Text(root)) {
          return Err(AssertionFailed);
        }
      }
      var next := RealpathRel(fs, tdir, LinkParts(target.value), root, budget, assumeDir);
      if next.Err? {
        return Err(next.error);
      }
      RelEndsBelow(fs, Plain, root, tdir, LinkParts(target.value), budget, true, assumeDir);
      file := next.value;
      TextNotShorter(file, root);
    }
    return Ok(Found(file, IsDir(fs, file)));
  }

  method Realpath(fs: Tree, file0: Raw, root0: Raw, usePhysdir: bool, loopCnt: nat, assumeDir: bool) returns (r: Result<Path>)
    requires root0.abs
    ensures r == Resolve(fs, Plain, file0, root0, usePhysdir, loopCnt, assumeDir)
  {
    var root := Path(Absolute(root0).comps, true);
    if !file0.abs {
      return Err(NotBelow);
    }
    var file := Absolute(file0);
    TextBelow(file, root);
    if !StartsWith(Text(file) + "/", Text(root)) {
      return Err(NotBelow);
    }
    if usePhysdir {
      r := RealpathRel(fs, root, RelParts(file, root), root, loopCnt, assumeDir);
    } else {
      var found := RealpathLink(fs, file, root, loopCnt, assumeDir);
      r := if found.Err? then Err(found.error) else Ok(found.value.path);
    }
    if r.Err? && r.error.TooManyLinks? {
      r := Err(LoopIn(file, r.error.at));
    }
  }
}
