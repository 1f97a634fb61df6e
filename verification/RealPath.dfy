/** What `realpath` below a toplevel root answers, as one function shared by the plain
    resolver of path.py and the one of cachedpath.py that runs on stat caches. */
module RealPath {
  import opened PosixPath

  datatype Kind = Regular | Directory | Symlink | Special

  /** The answer of a stat call; `ino` stands for every field the code does not look at. */
  datatype StatInfo = StatInfo(kind: Kind, ino: int)

  /** What the operating system answers for normalised absolute paths; `stat` follows links. The
      `cwd` maps answer for relative paths. */
  datatype Tree = Tree(lstat: map<seq<Part>, StatInfo>, stat: map<seq<Part>, StatInfo>, link: map<seq<Part>, Raw>,
                       cwdLstat: map<seq<Part>, StatInfo>, cwdStat: map<seq<Part>, StatInfo>)

  datatype Error =
    | NoDirectory(at: Path)          // ENOENT
    | TooManyLinks(at: Path)         // ELOOP while resolving
    | LoopIn(file: Path, at: Path)   // ELOOP as `realpath` rewrites it
    | NotBelow                       // EINVAL
    | NotALink(at: Path)             // EINVAL from readlink
    | AssertionFailed

  datatype Result<+T> = Ok(value: T) | Err(error: Error)

  datatype Found = Found(path: Path, isDir: bool)

  /** Plain asks the operating system about a path text; Cached normalises the text first. */
  datatype Mode = Plain | Cached

  predicate LinkAt(fs: Tree, comps: seq<Name>) {
    comps in fs.lstat && fs.lstat[comps].kind == Symlink
  }

  predicate DirAt(fs: Tree, comps: seq<Name>) {
    comps in fs.stat && fs.stat[comps].kind == Directory
  }

  /** A text ending in "/" or "/." names what the link points to, not the link. */
  predicate EndsOpen(p: Path) {
    p.slash || p.comps[|p.comps| - 1] == "."
  }

  predicate IsLink(fs: Tree, mode: Mode, p: Path) {
    LinkAt(fs, DropDots(p.comps)) && (mode == Cached || !EndsOpen(p))
  }

  predicate IsDir(fs: Tree, p: Path) {
    DirAt(fs, DropDots(p.comps))
  }

  function Readlink(fs: Tree, p: Path): Result<Raw> {
    var key := DropDots(p.comps);
    if EndsOpen(p) || !LinkAt(fs, key) || key !in fs.link then Err(NotALink(p)) else Ok(fs.link[key])
  }

  /** `normpath(target).split("/")`. */
  function LinkParts(t: Raw): (parts: seq<Part>)
    ensures parts != []
  {
    var norm := Normpath(t);
    if t.abs then [""] + (if norm == [] then [""] else norm)
    else if norm == [] then ["."]
    else norm
  }

  /** `__is_path_below`, which compares texts; `TextBelow` says why components will do. */
  predicate IsPathBelow(file: Path, root: Path) {
    root.comps <= file.comps
  }

  /** `len(file) >= len(root)` for a file below the root; see `TextNotShorter`. */
  predicate NotShorter(file: Path, root: Path) {
    file.slash || file.comps != root.comps
  }

  /** One round of the loop in `__realpath_rel` for "..": never climb above the root. */
  function Climb(start: Path, root: Path): Path {
    if NotShorter(start, root) then Dirname(start) else start
  }

  /** `__realpath_rel`, from the middle of its loop: `parts` are still to be resolved. */
  function ResolveRel(fs: Tree, mode: Mode, root: Path, start: Path, parts: seq<Part>, budget: nat,
                      haveDir: bool, assumeDir: bool): Result<Path>
    decreases budget, 1, |parts|
  {
    if parts == [] then Ok(start)
    else if !haveDir && !assumeDir then Err(NoDirectory(start))
    else
      var step := if parts[0] == ".." then Ok(Found(Climb(start, root), haveDir))
                  else ResolveLink(fs, mode, root, Join(start, parts[0]), budget, assumeDir);
      if step.Err? then Err(step.error)
      else if !IsPathBelow(step.value.path, root) then Err(AssertionFailed)
      else ResolveRel(fs, mode, root, step.value.path, parts[1..], budget, step.value.isDir, assumeDir)
  }

  /** `__realpath`, from the head of its loop. */
  function ResolveLink(fs: Tree, mode: Mode, root: Path, file: Path, budget: nat, assumeDir: bool): Result<Found>
    decreases budget, 0, 0
  {
    if !IsLink(fs, mode, file) || !NotShorter(file, root) then Ok(Found(file, IsDir(fs, file)))
    else if budget == 0 then Err(TooManyLinks(file))
    else
      var target := Readlink(fs, file);
      if target.Err? then Err(target.error)
      else if !target.value.abs && !IsPathBelow(Dirname(file), root) then Err(AssertionFailed)
      else
        var tdir := if target.value.abs then root else Dirname(file);
        var next := ResolveRel(fs, mode, root, tdir, LinkParts(target.value), budget - 1, true, assumeDir);
        if next.Err? then Err(next.error)
        else ResolveLink(fs, mode, root, next.value, budget - 1, assumeDir)
  }

  /** `file[(len(root) - 1):].split("/")` for a normalised file below root. */
  function RelParts(file: Path, root: Path): (parts: seq<Part>)
    requires root.comps <= file.comps
    ensures parts != []
  {
    [""] + (if file.comps == [] then [""] else file.comps[|root.comps|..])
  }

  function RootPath(root: Raw): Path
    requires root.abs
  {
    Path(Absolute(root).comps, true)
  }

  /** `realpath(file, root, use_physdir, loop_cnt, assume_dir)`. */
  function Resolve(fs: Tree, mode: Mode, file: Raw, root: Raw, usePhysdir: bool, budget: nat, assumeDir: bool): Result<Path>
    requires root.abs
  {
    var r := RootPath(root);
    if !file.abs || !IsPathBelow(Absolute(file), r) then Err(NotBelow)
    else
      var f := Absolute(file);
      var found := if usePhysdir then ResolveRel(fs, mode, r, r, RelParts(f, r), budget, true, assumeDir)
                   else
                     var res := ResolveLink(fs, mode, r, f, budget, assumeDir);
                     if res.Err? then Err(res.error) else Ok(res.value.path);
      if found.Err? && found.error.TooManyLinks? then Err(LoopIn(f, found.error.at)) else found
  }

  /** The textual test compares whole components: "/ab" is not below "/a/". */
  lemma TextBelow(file: Path, root: Path)
    requires root.slash
    ensures StartsWith(Text(file) + "/", Text(root)) <==> IsPathBelow(file, root)
  {
    var tail := if file.slash then "//" else "/";
    assert Text(file) + "/" == CompsText(file.comps) + tail;
    if StartsWith(Text(file) + "/", Text(root)) {
      PrefixOfText(root.comps, file.comps, tail);
    }
    if root.comps <= file.comps {
      var rest := file.comps[|root.comps|..];
      assert file.comps == root.comps + rest;
      CompsTextAppend(root.comps, rest);
      assert Text(file) + "/" == CompsText(root.comps) + (CompsText(rest) + tail);
      assert (CompsText(rest) + tail)[0] == '/';
    }
  }

  /** Below the root, the length test fails only for the root spelled without its slash. */
  lemma TextNotShorter(file: Path, root: Path)
    requires root.slash && IsPathBelow(file, root)
    ensures |Text(file)| >= |Text(root)| <==> NotShorter(file, root)
  {
    var rest := file.comps[|root.comps|..];
    assert file.comps == root.comps + rest;
    CompsTextAppend(root.comps, rest);
  }

  /** Every round of the loop ends in the containment check, so a result is below the root. */
  lemma {:induction false} RelEndsBelow(fs: Tree, mode: Mode, root: Path, start: Path, parts: seq<Part>, budget: nat,
                                        haveDir: bool, assumeDir: bool)
    requires IsPathBelow(start, root)
    ensures var r := ResolveRel(fs, mode, root, start, parts, budget, haveDir, assumeDir); r.Ok? ==> IsPathBelow(r.value, root)
    decreases |parts|
  {
    if parts != [] && (haveDir || assumeDir) {
      var step := if parts[0] == ".." then Ok(Found(Climb(start, root), haveDir))
                  else ResolveLink(fs, mode, root, Join(start, parts[0]), budget, assumeDir);
      if step.Ok? && IsPathBelow(step.value.path, root) {
        RelEndsBelow(fs, mode, root, step.value.path, parts[1..], budget, step.value.isDir, assumeDir);
      }
    }
  }
}
