/** `realpath` with `use_physdir` cleared, for a file with no link among its directories: what the documentation
    promises callers may save themselves. */
module RealPathUnresolved {
  import opened PosixPath
  import opened RealPath
  import opened RealPathSafety
  import opened RealPathWalk
  import opened RealPathDepth

  /** The names of `rest` from `start` on, without the last, are no links. */
  ghost predicate NoLinks(fs: Tree, start: Path, rest: seq<Name>) {
    && "." !in start.comps && "." !in rest
    && forall k | 0 < k < |rest| :: !LinkAt(fs, start.comps + rest[..k])
  }

  ghost predicate AllDirectories(fs: Tree, start: Path, rest: seq<Name>) {
    forall k | 0 < k < |rest| :: StatsDirectory(fs, start.comps + rest[..k])
  }

  function PathOf(found: Result<Found>): Result<Path> {
    match found
    case Ok(f) => Ok(f.path)
    case Err(e) => Err(e)
  }

  lemma NextNames(fs: Tree, start: Path, rest: seq<Name>)
    requires |rest| > 1 && NoLinks(fs, start, rest)
    ensures var next := Join(start, rest[0]);
            && next == Path(start.comps + [rest[0]], false) && next.comps + rest[1..] == start.comps + rest
            && !LinkAt(fs, DropDots(next.comps)) && NoLinks(fs, next, rest[1..])
            && (StatsDirectory(fs, next.comps) && AllDirectories(fs, next, rest[1..]) <==> AllDirectories(fs, start, rest))
  {
    var next := Join(start, rest[0]);
    assert start.comps + rest[..1] == next.comps;
    DropDotsId(next.comps);
    forall k | 0 < k < |rest| - 1
      ensures next.comps + rest[1..][..k] == start.comps + rest[..k + 1]
    {
    }
    if AllDirectories(fs, next, rest[1..]) && StatsDirectory(fs, next.comps) {
      forall k | 0 < k < |rest|
        ensures StatsDirectory(fs, start.comps + rest[..k])
      {
        if k > 1 {
          assert next.comps + rest[1..][..k - 1] == start.comps + rest[..k];
        }
      }
    }
  }

  /** Straight down to the last name, which alone may be a link. */
  lemma {:induction false} Straight(fs: Tree, root: Path, start: Path, rest: seq<Name>, n: nat, haveDir: bool, assumeDir: bool)
    requires Below(start, root) && rest != [] && NoLinks(fs, start, rest)
    ensures var r := ResolveRel(fs, Plain, root, start, rest, n, haveDir, assumeDir);
            if assumeDir || (haveDir && AllDirectories(fs, start, rest))
            then r == PathOf(ResolveLink(fs, Plain, root, Path(start.comps + rest, false), n, assumeDir))
            else r.Err? && r.error.NoDirectory?
    decreases |rest|
  {
    if haveDir || assumeDir {
      if |rest| == 1 {
        assert rest == [rest[0]];
        LinkStaysBelow(fs, Plain, root, Join(start, rest[0]), n, assumeDir);
      } else {
        var next := Join(start, rest[0]);
        NextNames(fs, start, rest);
        DropDotsId(next.comps);
        Straight(fs, root, next, rest[1..], n, IsDir(fs, next), assumeDir);
        assert ResolveLink(fs, Plain, root, next, n, assumeDir) == Ok(Found(next, IsDir(fs, next)));
      }
    }
  }

  lemma FromTheSlash(fs: Tree, root: Path, parts: seq<Part>, n: nat, assumeDir: bool)
    requires root.slash && parts != [] && parts[0] == ""
    ensures ResolveRel(fs, Plain, root, root, parts, n, true, assumeDir) ==
            ResolveRel(fs, Plain, root, root, parts[1..], n, IsDir(fs, root), assumeDir)
  {
    assert Join(root, "") == root;
  }

  /** The rewriting of ELOOP. */
  function Reported(f: Path, r: Result<Path>): Result<Path> {
    if r.Err? && r.error.TooManyLinks? then Err(LoopIn(f, r.error.at)) else r
  }

  lemma BothWays(fs: Tree, file: Raw, root: Raw, n: nat, assumeDir: bool)
    requires root.abs && file.abs && Absolute(root).comps <= Absolute(file).comps
    ensures var r, f := RootPath(root), Absolute(file);
            && Resolve(fs, Plain, file, root, true, n, assumeDir) ==
               Reported(f, ResolveRel(fs, Plain, r, r, RelParts(f, r), n, true, assumeDir))
            && Resolve(fs, Plain, file, root, false, n, assumeDir) == Reported(f, PathOf(ResolveLink(fs, Plain, r, f, n, assumeDir)))
  {
  }

  lemma PartsBelow(f: Path, r: Path) returns (rest: seq<Name>)
    requires r.comps < f.comps
    ensures rest != [] && r.comps + rest == f.comps && RelParts(f, r) == [""] + rest && RelParts(f, r)[1..] == rest
  {
    rest := f.comps[|r.comps|..];
  }

  /** For a file strictly below the root with no link among the directories between, both ways give one answer, if
      `assume_dir` is set or all of them, from the root on, are directories; else only resolving all of the file
      raises ENOENT. */
  lemma UnresolvedIsResolved(fs: Tree, file: Raw, root: Raw, n: nat, assumeDir: bool)
    requires root.abs && file.abs && Absolute(root).comps < Absolute(file).comps
    requires forall k | |Absolute(root).comps| < k < |Absolute(file).comps| :: !LinkAt(fs, Absolute(file).comps[..k])
    ensures var all := Resolve(fs, Plain, file, root, true, n, assumeDir);
            if assumeDir || forall k | |Absolute(root).comps| <= k < |Absolute(file).comps| :: StatsDirectory(fs, Absolute(file).comps[..k])
            then Resolve(fs, Plain, file, root, false, n, assumeDir) == all
            else all.Err? && all.error.NoDirectory?
  {
    var r, f := RootPath(root), Absolute(file);
    var rest := PartsBelow(f, r);
    FromTheSlash(fs, r, RelParts(f, r), n, assumeDir);
    BelowRoot(fs, r, f.comps, rest);
    Straight(fs, r, r, rest, n, IsDir(fs, r), assumeDir);
    BothWays(fs, file, root, n, assumeDir);
  }

  lemma BelowRoot(fs: Tree, r: Path, comps: seq<Name>, rest: seq<Name>)
    requires r.comps + rest == comps && rest != [] && "." !in comps
    requires forall k | |r.comps| < k < |comps| :: !LinkAt(fs, comps[..k])
    ensures NoLinks(fs, r, rest)
    ensures IsDir(fs, r) && AllDirectories(fs, r, rest) <==> forall k | |r.comps| <= k < |comps| :: StatsDirectory(fs, comps[..k])
  {
    assert "." !in r.comps && "." !in rest;
    DropDotsId(r.comps);
    assert comps[..|r.comps|] == r.comps;
    forall k | 0 < k < |rest|
      ensures r.comps + rest[..k] == comps[..|r.comps| + k]
    {
    }
    if IsDir(fs, r) && AllDirectories(fs, r, rest) {
      forall k | |r.comps| <= k < |comps|
        ensures StatsDirectory(fs, comps[..k])
      {
        if k > |r.comps| {
          assert r.comps + rest[..k - |r.comps|] == comps[..k];
        }
      }
    }
  }
}
