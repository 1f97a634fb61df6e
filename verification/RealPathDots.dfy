/** A link to "." and a link that begins with "..", in one directory: the resolvers answer another path than
    a kernel walks to. */
module RealPathDots {
  import opened PosixPath
  import opened RealPath
  import opened RealPathWalk
  import opened RealPathKernel
  import opened RealPathResults

  /** /d/l is a link to "." and /d/b one to "../x". */
  ghost predicate HasDotLink(fs: Tree, d: Name, l: Name, b: Name, x: Name) {
    && d != "." && l != "." && b != "." && x != "."
    && LinkAt(fs, [d] + [l]) && [d] + [l] in fs.link && fs.link[[d] + [l]] == Raw(false, ["."])
    && LinkAt(fs, [d] + [b]) && [d] + [b] in fs.link && fs.link[[d] + [b]] == Raw(false, [".."] + [x])
    && !LinkAt(fs, [d]) && !LinkAt(fs, [x]) && !LinkAt(fs, [d] + [x])
  }

  lemma TargetParts(x: Name)
    requires x != "."
    ensures LinkParts(Raw(false, ["."])) == ["."]
    ensures LinkParts(Raw(false, [".."] + [x])) == [".."] + [x]
  {
    var stack: seq<Part> := [".."] + [x];
    NormpathKeeps(false, stack);
    assert Raw(false, ["."]).(parts := ["."][..0]) == Raw(false, []);
  }

  lemma Entry(pos: seq<Name>, d: Name)
    requires "." !in pos && d != "."
    ensures DropDots(pos + [d]) == pos + [d] && [] + (pos + [d]) == pos + [d]
  {
    DropDotsId(pos + [d]);
  }

  // ---- the kernel ------------------------------------------------------------------------

  lemma KernelName(fs: Tree, pos: seq<Name>, d: Name, rest: seq<Part>, k: nat, end: seq<Name>)
    requires "." !in pos && d != "." && !LinkAt(fs, pos + [d])
    requires KernelReaches(fs, [], k, Walker(pos + [d], rest), end)
    ensures KernelReaches(fs, [], k + 1, Walker(pos, [d] + rest), end)
  {
    Entry(pos, d);
    assert ([d] + rest)[1..] == rest;
  }

  lemma KernelLink(fs: Tree, pos: seq<Name>, d: Name, rest: seq<Part>, t: Raw, k: nat, end: seq<Name>)
    requires "." !in pos && d != "." && LinkAt(fs, pos + [d]) && pos + [d] in fs.link && fs.link[pos + [d]] == t && !t.abs
    requires KernelReaches(fs, [], k, Walker(pos, LinkParts(t) + rest), end)
    ensures KernelReaches(fs, [], k + 1, Walker(pos, [d] + rest), end)
  {
    Entry(pos, d);
    assert ([d] + rest)[1..] == rest;
  }

  lemma KernelStays(fs: Tree, pos: seq<Name>, d: Part, rest: seq<Part>, k: nat, end: seq<Name>)
    requires (d == "" || d == ".") && KernelReaches(fs, [], k, Walker(pos, rest), end)
    ensures KernelReaches(fs, [], k + 1, Walker(pos, [d] + rest), end)
  {
    assert ([d] + rest)[1..] == rest;
  }

  lemma KernelUp(fs: Tree, d: Name, rest: seq<Part>, k: nat, end: seq<Name>)
    requires KernelReaches(fs, [], k, Walker([], rest), end)
    ensures KernelReaches(fs, [], k + 1, Walker([d], [".."] + rest), end)
  {
    assert ([".."] + rest)[1..] == rest && Up([d]) == [];
  }

  lemma DotTargetWalked(fs: Tree, d: Name, l: Name, b: Name, x: Name)
    requires HasDotLink(fs, d, l, b, x)
    ensures KernelReaches(fs, [], 7, Walker([], [""] + ([d] + ([l] + ([b] + [])))), [x])
  {
    TargetParts(x);
    assert [] + [x] == [x] && [] + [d] == [d];
    assert KernelReaches(fs, [], 0, Walker([x], []), [x]);
    KernelName(fs, [], x, [], 0, [x]);
    KernelUp(fs, d, [x] + [], 1, [x]);
    assert [".."] + ([x] + []) == ([".."] + [x]) + [];
    KernelLink(fs, [d], b, [], Raw(false, [".."] + [x]), 2, [x]);
    KernelStays(fs, [d], ".", [b] + [], 3, [x]);
    KernelLink(fs, [d], l, [b] + [], Raw(false, ["."]), 4, [x]);
    KernelName(fs, [], d, [l] + ([b] + []), 5, [x]);
    KernelStays(fs, [], "", [d] + ([l] + ([b] + [])), 6, [x]);
  }

  // ---- the resolver ----------------------------------------------------------------------

  const TOP: Path := Path([], true)

  /** One name of a path that is not "..". */
  lemma OneName(fs: Tree, start: Path, d: Part, rest: seq<Part>, n: nat, haveDir: bool, p: Path)
    requires d != ".." && ResolveLink(fs, Plain, TOP, Join(start, d), n, true) == Ok(Found(p, IsDir(fs, p)))
    ensures ResolveRel(fs, Plain, TOP, start, [d] + rest, n, haveDir, true)
         == ResolveRel(fs, Plain, TOP, p, rest, n, IsDir(fs, p), true)
  {
    assert ([d] + rest)[1..] == rest;
  }

  lemma NoParts(fs: Tree, start: Path, n: nat, haveDir: bool)
    ensures ResolveRel(fs, Plain, TOP, start, [], n, haveDir, true) == Ok(start)
  {
  }

  /** What is no link is found as it stands. */
  lemma NoLink(fs: Tree, p: Path, n: nat)
    requires !IsLink(fs, Plain, p)
    ensures ResolveLink(fs, Plain, TOP, p, n, true) == Ok(Found(p, IsDir(fs, p)))
  {
  }

  /** A relative link, resolved in one round. */
  lemma RelativeLink(fs: Tree, dir: Path, d: Name, t: Raw, n: nat, p: Path)
    requires !dir.slash && n > 0 && IsLink(fs, Plain, Join(dir, d)) && Readlink(fs, Join(dir, d)) == Ok(t) && !t.abs
    requires !IsLink(fs, Plain, p) && ResolveRel(fs, Plain, TOP, dir, LinkParts(t), n - 1, true, true) == Ok(p)
    ensures ResolveLink(fs, Plain, TOP, Join(dir, d), n, true) == Ok(Found(p, IsDir(fs, p)))
  {
    assert Dirname(Join(dir, d)) == dir;
    NoLink(fs, p, n - 1);
  }

  lemma LinkEntry(fs: Tree, comps: seq<Name>, d: Name, t: Raw)
    requires d != "." && LinkAt(fs, DropDots(comps) + [d]) && DropDots(comps) + [d] in fs.link && fs.link[DropDots(comps) + [d]] == t
    ensures IsLink(fs, Plain, Path(comps + [d], false)) && Readlink(fs, Path(comps + [d], false)) == Ok(t)
  {
    DropDotsLast(comps, d);
  }

  lemma AtDot(fs: Tree, d: Name, l: Name, b: Name, x: Name)
    requires HasDotLink(fs, d, l, b, x)
    ensures var dir, dot := Path([d], false), Path([d] + ["."], false);
            ResolveLink(fs, Plain, TOP, Join(dir, l), 2, true) == Ok(Found(dot, IsDir(fs, dot)))
  {
    var dir, dot := Path([d], false), Path([d] + ["."], false);
    TargetParts(x);
    DropDotsId([d]);
    LinkEntry(fs, [d], l, Raw(false, ["."]));
    NoLink(fs, dot, 1);
    OneName(fs, dir, ".", [], 1, true, dot);
    NoParts(fs, dot, 1, IsDir(fs, dot));
    assert ["."] + [] == ["."];
    RelativeLink(fs, dir, l, Raw(false, ["."]), 2, dot);
  }

  lemma UpFromDot(fs: Tree, d: Name, rest: seq<Part>, n: nat)
    ensures ResolveRel(fs, Plain, TOP, Path([d] + ["."], false), [".."] + rest, n, true, true)
         == ResolveRel(fs, Plain, TOP, Path([d], false), rest, n, true, true)
  {
    assert ([".."] + rest)[1..] == rest && ([d] + ["."])[..1] == [d];
  }

  lemma AtB(fs: Tree, d: Name, l: Name, b: Name, x: Name)
    requires HasDotLink(fs, d, l, b, x)
    ensures var dot, end := Path([d] + ["."], false), Path([d] + [x], false);
            ResolveLink(fs, Plain, TOP, Join(dot, b), 2, true) == Ok(Found(end, IsDir(fs, end)))
  {
    var dot, end := Path([d] + ["."], false), Path([d] + [x], false);
    TargetParts(x);
    DropDotsId([d]);
    DropDotsLast([d], ".");
    LinkEntry(fs, [d] + ["."], b, Raw(false, [".."] + [x]));
    DropDotsLast([d], x);
    NoLink(fs, end, 1);
    UpFromDot(fs, d, [x], 1);
    assert [x] + [] == [x];
    OneName(fs, Path([d], false), x, [], 1, true, end);
    NoParts(fs, end, 1, IsDir(fs, end));
    RelativeLink(fs, dot, b, Raw(false, [".."] + [x]), 2, end);
  }

  /** From the directory on: the link to ".", then the other. */
  lemma PastDot(fs: Tree, d: Name, l: Name, b: Name, x: Name, haveDir: bool)
    requires HasDotLink(fs, d, l, b, x)
    ensures ResolveRel(fs, Plain, TOP, Path([d], false), [l] + ([b] + []), 2, haveDir, true) == Ok(Path([d] + [x], false))
  {
    var dir, dot, end := Path([d], false), Path([d] + ["."], false), Path([d] + [x], false);
    AtDot(fs, d, l, b, x);
    OneName(fs, dir, l, [b] + [], 2, haveDir, dot);
    AtB(fs, d, l, b, x);
    OneName(fs, dot, b, [], 2, IsDir(fs, dot), end);
    NoParts(fs, end, 2, IsDir(fs, end));
  }

  lemma DotTargetResolved(fs: Tree, d: Name, l: Name, b: Name, x: Name)
    requires HasDotLink(fs, d, l, b, x)
    ensures ResolveRel(fs, Plain, TOP, TOP, [""] + ([d] + ([l] + ([b] + []))), 2, true, true) == Ok(Path([d] + [x], false))
  {
    var dir := Path([d], false);
    NoLink(fs, TOP, 2);
    OneName(fs, TOP, "", [d] + ([l] + ([b] + [])), 2, true, TOP);
    DropDotsId([d]);
    assert [] + [d] == [d];
    NoLink(fs, dir, 2);
    OneName(fs, TOP, d, [l] + ([b] + []), 2, IsDir(fs, TOP), dir);
    PastDot(fs, d, l, b, x, IsDir(fs, dir));
  }

  // ---- both ------------------------------------------------------------------------------

  lemma DotOutset(d: Name, l: Name, b: Name)
    requires d != "." && l != "." && b != "."
    ensures var file, root := Raw(true, [d, l, b]), Raw(true, []);
            && Absolute(file) == Path([d, l, b], false) && RootPath(root) == TOP && Absolute(root).comps == []
            && RelParts(Absolute(file), TOP) == [""] + ([d] + ([l] + ([b] + [])))
  {
    NormalOfComps([d, l, b]);
    DropDotsId([d, l, b]);
  }

  /** On every tree with two such links: a kernel walks /d/l/b to /x, `realpath` answers /d/x. */
  lemma DotTargetMisleads(fs: Tree, d: Name, l: Name, b: Name, x: Name)
    requires HasDotLink(fs, d, l, b, x)
    ensures var file, root := Raw(true, [d, l, b]), Raw(true, []);
            && Resolve(fs, Plain, file, root, true, 2, true) == Ok(Path([d, x], false))
            && IsPathBelow(Absolute(file), RootPath(root)) && KernelEnds(fs, file, root, 7, [x])
  {
    DotOutset(d, l, b);
    DotTargetResolved(fs, d, l, b, x);
    DotTargetWalked(fs, d, l, b, x);
    assert [d] + [x] == [d, x];
  }

  /** A tree with the directory /d, the two links in it and the file /x. */
  function DotTree(): Tree {
    Tree(map[[] := StatInfo(Directory, 0), ["d"] := StatInfo(Directory, 1), ["d", "l"] := StatInfo(Symlink, 2),
             ["d", "b"] := StatInfo(Symlink, 3), ["x"] := StatInfo(Regular, 4)],
         map[[] := StatInfo(Directory, 0), ["d"] := StatInfo(Directory, 1), ["d", "l"] := StatInfo(Directory, 1),
             ["d", "b"] := StatInfo(Regular, 4), ["x"] := StatInfo(Regular, 4)],
         map[["d", "l"] := Raw(false, ["."]), ["d", "b"] := Raw(false, ["..", "x"])],
         map[], map[])
  }

  lemma DotTreeHasDotLink()
    ensures HasDotLink(DotTree(), "d", "l", "b", "x")
  {
    assert ["d"] + ["l"] == ["d", "l"] && ["d"] + ["b"] == ["d", "b"] && ["d"] + ["x"] == ["d", "x"] && [".."] + ["x"] == ["..", "x"];
    assert ["d", "x"][1] == "x" && ["d", "b"][1] == "b" && ["d", "l"][1] == "l";
  }
}
