/** An independent reading of rooted resolution: one flat walk over a work list of path parts, in which a
    link is replaced by the parts of its target. The mutually recursive resolver with a link budget
    computes exactly what this walk reaches, on every tree. */
module RealPathWalk {
  import opened Wrappers
  import opened PosixPath
  import opened RealPath
  import opened RealPathSafety

  /** `pos` lists the components below the root; `todo` what is still to be walked. */
  datatype Walker = Walker(pos: seq<Name>, todo: seq<Part>)

  function Up(pos: seq<Name>): seq<Name> {
    if pos == [] then [] else pos[..|pos| - 1]
  }

  /** At the path is a link: so says `lstat`, which does not follow it. */
  predicate LstatsLink(fs: Tree, comps: seq<Name>) {
    comps in fs.lstat && fs.lstat[comps].kind == Symlink && comps in fs.link
  }

  /** The part `d` at `pos` is the name of a link. */
  predicate AtLink(fs: Tree, root: seq<Name>, pos: seq<Name>, d: Part) {
    d != "" && d != "." && d != ".." && LstatsLink(fs, DropDots(root + (pos + [d])))
  }

  /** One step. A "." is kept in the position, as the resolvers keep it in their paths. */
  function WalkStep(fs: Tree, root: seq<Name>, w: Walker): Walker
    requires w.todo != []
  {
    var d, rest := w.todo[0], w.todo[1..];
    if d == "" then Walker(w.pos, rest)
    else if d == ".." then Walker(Up(w.pos), rest)
    else if AtLink(fs, root, w.pos, d) then
      var t := fs.link[DropDots(root + (w.pos + [d]))];
      Walker(if t.abs then [] else w.pos, LinkParts(t) + rest)
    else Walker(w.pos + [d], rest)
  }

  /** The walk from `w` runs out of parts after exactly `k` steps, at `end`. */
  ghost predicate Reaches(fs: Tree, root: seq<Name>, k: nat, w: Walker, end: seq<Name>) {
    if w.todo == [] then k == 0 && w.pos == end
    else k > 0 && Reaches(fs, root, k - 1, WalkStep(fs, root, w), end)
  }

  lemma ReachesStep(fs: Tree, root: seq<Name>, k: nat, w: Walker, w': Walker, end: seq<Name>)
    requires w.todo != [] && WalkStep(fs, root, w) == w' && Reaches(fs, root, k, w', end)
    ensures Reaches(fs, root, k + 1, w, end)
  {
  }

  lemma {:induction false} ReachesThen(fs: Tree, root: seq<Name>, k: nat, w: Walker, mid: seq<Name>,
                                       rest: seq<Part>, j: nat, end: seq<Name>)
    requires Reaches(fs, root, k, w, mid) && Reaches(fs, root, j, Walker(mid, rest), end)
    ensures Reaches(fs, root, k + j, Walker(w.pos, w.todo + rest), end)
    decreases k
  {
    if w.todo == [] {
      assert w.todo + rest == rest;
    } else {
      var w' := WalkStep(fs, root, w);
      ReachesThen(fs, root, k - 1, w', mid, rest, j, end);
      StepFrame(fs, root, w, rest);
    }
  }

  lemma StepFrame(fs: Tree, root: seq<Name>, w: Walker, rest: seq<Part>)
    requires w.todo != []
    ensures var w' := WalkStep(fs, root, w);
            WalkStep(fs, root, Walker(w.pos, w.todo + rest)) == Walker(w'.pos, w'.todo + rest)
  {
    assert (w.todo + rest)[1..] == w.todo[1..] + rest;
    if AtLink(fs, root, w.pos, w.todo[0]) {
      Regroup(LinkParts(fs.link[DropDots(root + (w.pos + [w.todo[0]]))]), w.todo[1..], rest);
    }
  }

  /** A walk over two part lists passes a first position where the first list is used up. */
  lemma {:induction false} ReachesSplit(fs: Tree, root: seq<Name>, k: nat, w: Walker, rest: seq<Part>, end: seq<Name>)
    returns (j: nat, mid: seq<Name>)
    requires Reaches(fs, root, k, Walker(w.pos, w.todo + rest), end)
    ensures j <= k && Reaches(fs, root, j, w, mid) && Reaches(fs, root, k - j, Walker(mid, rest), end)
    decreases k
  {
    if w.todo == [] {
      assert w.todo + rest == rest;
      j, mid := 0, w.pos;
    } else {
      StepFrame(fs, root, w, rest);
      var w' := WalkStep(fs, root, w);
      assert Reaches(fs, root, k - 1, Walker(w'.pos, w'.todo + rest), end);
      j, mid := ReachesSplit(fs, root, k - 1, w', rest, end);
      ReachesStep(fs, root, j, w, w', mid);
      j := j + 1;
    }
  }

  /** Kernel law: every link has a target. */
  ghost predicate LinksHaveTargets(fs: Tree) {
    forall c | LinkAt(fs, c) :: c in fs.link
  }

  function Rel(p: Path, root: Path): seq<Name>
    requires root.comps <= p.comps
  {
    p.comps[|root.comps|..]
  }

  /** A link-free path below the root; only the root itself may end in '/'. */
  ghost predicate Standing(fs: Tree, root: Path, p: Path) {
    Resolved(fs, Plain, root, p) && (p.slash ==> p.comps == root.comps)
  }

  /** Parts as the resolver gets them: "" only in front, with the walk at the root. */
  ghost predicate Walkable(root: Path, start: Path, parts: seq<Part>) {
    "" in parts ==> start.comps == root.comps && parts[0] == "" && Walkable(root, start, parts[1..])
  }

  lemma LinkPartsWalkable(fs: Tree, root: Path, start: Path, c: seq<Name>)
    requires c in fs.link
    requires fs.link[c].abs ==> start.comps == root.comps
    ensures Walkable(root, start, LinkParts(fs.link[c]))
  {
    var parts := LinkParts(fs.link[c]);
    if fs.link[c].abs {
      assert parts[1..] == if Normpath(fs.link[c]) == [] then [""] else Normpath(fs.link[c]);
    }
  }

  lemma WalkableRest(root: Path, start: Path, parts: seq<Part>)
    requires Below(start, root) && Walkable(root, start, parts) && parts != []
    ensures Walkable(root, Next(start, root, parts[0]), parts[1..])
  {
    if "" in parts {
      WalkableAtRoot(root, start, Next(start, root, parts[0]), parts[1..]);
    }
  }

  lemma {:induction false} WalkableAtRoot(root: Path, p: Path, q: Path, parts: seq<Part>)
    requires p.comps == q.comps && Walkable(root, p, parts)
    ensures Walkable(root, q, parts)
  {
    if "" in parts {
      WalkableAtRoot(root, p, q, parts[1..]);
    }
  }

  predicate Moves(fs: Tree, start: Path, d: Part) {
    d == "" || d == "." || d == ".." || !LinkAt(fs, DropDots(start.comps + [d]))
  }

  /** Where one round that follows no link leads. */
  function Next(start: Path, root: Path, d: Part): Path {
    if d == ".." then Climb(start, root) else Join(start, d)
  }

  /** A round that follows no link keeps the path standing ... */
  lemma MoveStands(fs: Tree, root: Path, start: Path, d: Part)
    requires Standing(fs, root, start) && Moves(fs, start, d) && (d == "" ==> start.comps == root.comps)
    ensures Standing(fs, root, Next(start, root, d))
    ensures d != ".." ==> !IsLink(fs, Plain, Next(start, root, d))
  {
    var next := Next(start, root, d);
    if d == ".." {
      ClimbBelow(start, root);
      ClearPrefix(fs, Plain, root, start.comps, next.comps, |next.comps|);
    } else if d != "" {
      ClearPrefix(fs, Plain, root, start.comps, next.comps, |start.comps|);
      LastIsClear(fs, Plain, root, next);
    }
  }

  /** ... is one step of the walk ... */
  lemma MoveWalks(fs: Tree, root: Path, start: Path, parts: seq<Part>)
    requires Below(start, root) && (start.slash ==> start.comps == root.comps)
    requires parts != [] && Moves(fs, start, parts[0])
    ensures Below(Next(start, root, parts[0]), root)
    ensures WalkStep(fs, root.comps, Walker(Rel(start, root), parts))
         == Walker(Rel(Next(start, root, parts[0]), root), parts[1..])
  {
    var d := parts[0];
    assert root.comps + Rel(start, root) == start.comps;
    if d == ".." {
      ClimbBelow(start, root);
    } else if d != "" {
      assert root.comps + (Rel(start, root) + [d]) == start.comps + [d];
    }
  }

  /** ... and one round of the resolver's loop. */
  lemma MoveRounds(fs: Tree, root: Path, start: Path, parts: seq<Part>, n: nat, haveDir: bool, assumeDir: bool)
    requires parts != [] && (haveDir || assumeDir) && Below(Next(start, root, parts[0]), root)
    requires parts[0] != ".." ==> !IsLink(fs, Plain, Next(start, root, parts[0]))
    ensures var next := Next(start, root, parts[0]);
            ResolveRel(fs, Plain, root, start, parts, n, haveDir, assumeDir)
            == ResolveRel(fs, Plain, root, next, parts[1..], n, if parts[0] == ".." then haveDir else IsDir(fs, next), assumeDir)
  {
  }

  /** The directory a link's target starts from. */
  function TargetDir(fs: Tree, root: Path, start: Path, d: Name): Path
    requires DropDots(start.comps + [d]) in fs.link
  {
    if fs.link[DropDots(start.comps + [d])].abs then root else Path(start.comps, start.comps == [])
  }

  /** What a link sends both sides to. */
  lemma LinkStep(fs: Tree, root: Path, start: Path, parts: seq<Part>)
    requires Standing(fs, root, start) && Walkable(root, start, parts)
    requires parts != [] && !Moves(fs, start, parts[0]) && LinksHaveTargets(fs)
    ensures var c := DropDots(start.comps + [parts[0]]);
            var tdir := TargetDir(fs, root, start, parts[0]);
            && Standing(fs, root, tdir) && Walkable(root, tdir, LinkParts(fs.link[c]))
            && "" !in parts[1..]
            && WalkStep(fs, root.comps, Walker(Rel(start, root), parts))
               == Walker(Rel(tdir, root), LinkParts(fs.link[c]) + parts[1..])
  {
    var c := DropDots(start.comps + [parts[0]]);
    LinkPartsWalkable(fs, root, TargetDir(fs, root, start, parts[0]), c);
    SamePlace(root, start, parts[0]);
    assert AtLink(fs, root.comps, Rel(start, root), parts[0]);
  }

  /** The walker's place and the resolver's path are one. */
  lemma SamePlace(root: Path, start: Path, d: Part)
    requires root.comps <= start.comps && d != "" && d != ".."
    ensures root.comps + (Rel(start, root) + [d]) == start.comps + [d]
  {
  }

  /** The resolver at a link: the target first, with one link less, then the other parts. */
  lemma LinkRound(fs: Tree, root: Path, start: Path, parts: seq<Part>, n: nat, haveDir: bool, assumeDir: bool)
    requires Standing(fs, root, start) && parts != []
    requires !Moves(fs, start, parts[0]) && LinksHaveTargets(fs) && (haveDir || assumeDir)
    ensures var r := ResolveRel(fs, Plain, root, start, parts, n, haveDir, assumeDir);
            if n == 0 then r.Err? && r.error.TooManyLinks? else
            var t := ResolveRel(fs, Plain, root, TargetDir(fs, root, start, parts[0]),
                                LinkParts(fs.link[DropDots(start.comps + [parts[0]])]), n - 1, true, assumeDir);
            if t.Err? then r == Err(t.error)
            else Resolved(fs, Plain, root, t.value) ==>
                   r == ResolveRel(fs, Plain, root, t.value, parts[1..], n, IsDir(fs, t.value), assumeDir)
  {
    var d := parts[0];
    LinkEntered(fs, root, start, d);
    if n > 0 {
      var t := ResolveRel(fs, Plain, root, TargetDir(fs, root, start, d), LinkParts(fs.link[DropDots(start.comps + [d])]), n - 1, true, assumeDir);
      if t.Ok? && Resolved(fs, Plain, root, t.value) {
        OneLinkPerLoop(fs, Plain, root, t.value, n - 1, assumeDir);
        assert ResolveLink(fs, Plain, root, Join(start, d), n, assumeDir) == Ok(Found(t.value, IsDir(fs, t.value)));
      }
    }
  }

  lemma LinkEntered(fs: Tree, root: Path, start: Path, d: Part)
    requires Standing(fs, root, start) && !Moves(fs, start, d) && LinksHaveTargets(fs)
    ensures var file := Join(start, d);
            && IsLink(fs, Plain, file) && NotShorter(file, root)
            && Readlink(fs, file) == Ok(fs.link[DropDots(start.comps + [d])])
            && IsPathBelow(Dirname(file), root) && Dirname(file) == Path(start.comps, start.comps == [])
  {
  }

  /** The three facts about a round that follows no link, together. */
  lemma Move(fs: Tree, root: Path, start: Path, parts: seq<Part>, n: nat, haveDir: bool, assumeDir: bool) returns (next: Path, haveDir': bool)
    requires Standing(fs, root, start) && Walkable(root, start, parts)
    requires parts != [] && Moves(fs, start, parts[0]) && (haveDir || assumeDir)
    ensures Standing(fs, root, next) && Walkable(root, next, parts[1..])
    ensures haveDir' == if parts[0] == ".." then haveDir else IsDir(fs, next)
    ensures WalkStep(fs, root.comps, Walker(Rel(start, root), parts)) == Walker(Rel(next, root), parts[1..])
    ensures ResolveRel(fs, Plain, root, start, parts, n, haveDir, assumeDir)
         == ResolveRel(fs, Plain, root, next, parts[1..], n, haveDir', assumeDir)
  {
    next := Next(start, root, parts[0]);
    haveDir' := if parts[0] == ".." then haveDir else IsDir(fs, next);
    MoveStands(fs, root, start, parts[0]);
    MoveWalks(fs, root, start, parts);
    WalkableRest(root, start, parts);
    MoveRounds(fs, root, start, parts, n, haveDir, assumeDir);
  }

  /** ... and those about a round that follows one. */
  lemma Follow(fs: Tree, root: Path, start: Path, parts: seq<Part>, n: nat, haveDir: bool, assumeDir: bool) returns (tdir: Path, todo: seq<Part>)
    requires Standing(fs, root, start) && Walkable(root, start, parts) && LinksHaveTargets(fs)
    requires parts != [] && !Moves(fs, start, parts[0]) && (haveDir || assumeDir)
    ensures Standing(fs, root, tdir) && Walkable(root, tdir, todo) && "" !in parts[1..]
    ensures WalkStep(fs, root.comps, Walker(Rel(start, root), parts)) == Walker(Rel(tdir, root), todo + parts[1..])
    ensures var r := ResolveRel(fs, Plain, root, start, parts, n, haveDir, assumeDir);
            if n == 0 then r.Err? else
            var t := ResolveRel(fs, Plain, root, tdir, todo, n - 1, true, assumeDir);
            if t.Err? then r.Err?
            else Resolved(fs, Plain, root, t.value) ==>
                   r == ResolveRel(fs, Plain, root, t.value, parts[1..], n, IsDir(fs, t.value), assumeDir)
  {
    tdir, todo := TargetDir(fs, root, start, parts[0]), LinkParts(fs.link[DropDots(start.comps + [parts[0]])]);
    LinkStep(fs, root, start, parts);
    LinkRound(fs, root, start, parts, n, haveDir, assumeDir);
  }

  /** Walking `w` for `k` steps uses up everything before `w'`. */
  ghost predicate Leads(fs: Tree, root: seq<Name>, k: nat, w: Walker, w': Walker) {
    forall j: nat, end :: Reaches(fs, root, j, w', end) ==> Reaches(fs, root, k + j, w, end)
  }

  lemma LeadsThrough(fs: Tree, root: seq<Name>, w: Walker, target: Walker, rest: seq<Part>, k: nat, mid: seq<Name>)
    requires w.todo != [] && WalkStep(fs, root, w) == Walker(target.pos, target.todo + rest)
    requires Reaches(fs, root, k, target, mid)
    ensures Leads(fs, root, k + 1, w, Walker(mid, rest))
  {
    forall j: nat, end | Reaches(fs, root, j, Walker(mid, rest), end)
      ensures Reaches(fs, root, k + 1 + j, w, end)
    {
      ReachesThen(fs, root, k, target, mid, rest, j, end);
      ReachesStep(fs, root, k + j, w, Walker(target.pos, target.todo + rest), end);
    }
  }

  /** Soundness: what the resolver returns is where the walk ends. */
  lemma {:induction false} ResolverFollowsWalk(fs: Tree, root: Path, start: Path, parts: seq<Part>, n: nat,
                                               haveDir: bool, assumeDir: bool) returns (k: nat, p: Path)
    requires Standing(fs, root, start) && Walkable(root, start, parts) && LinksHaveTargets(fs)
    requires ResolveRel(fs, Plain, root, start, parts, n, haveDir, assumeDir).Ok?
    ensures ResolveRel(fs, Plain, root, start, parts, n, haveDir, assumeDir) == Ok(p)
    ensures Standing(fs, root, p) && Reaches(fs, root.comps, k, Walker(Rel(start, root), parts), Rel(p, root))
    decreases n, |parts|, 1
  {
    if parts == [] {
      k, p := 0, start;
    } else if Moves(fs, start, parts[0]) {
      var next, haveDir' := Move(fs, root, start, parts, n, haveDir, assumeDir);
      k, p := ResolverFollowsWalk(fs, root, next, parts[1..], n, haveDir', assumeDir);
      ReachesStep(fs, root.comps, k, Walker(Rel(start, root), parts), Walker(Rel(next, root), parts[1..]), Rel(p, root));
      k := k + 1;
    } else {
      var k1, mid := TargetFollowsWalk(fs, root, start, parts, n, haveDir, assumeDir);
      k, p := ResolverFollowsWalk(fs, root, mid, parts[1..], n, IsDir(fs, mid), assumeDir);
      k := k1 + k;
    }
  }

  /** The link's own target, walked to its end at `mid`. */
  lemma {:induction false} TargetFollowsWalk(fs: Tree, root: Path, start: Path, parts: seq<Part>, n: nat,
                                             haveDir: bool, assumeDir: bool) returns (k: nat, mid: Path)
    requires Standing(fs, root, start) && Walkable(root, start, parts) && LinksHaveTargets(fs)
    requires parts != [] && !Moves(fs, start, parts[0])
    requires ResolveRel(fs, Plain, root, start, parts, n, haveDir, assumeDir).Ok?
    ensures Standing(fs, root, mid) && Walkable(root, mid, parts[1..])
    ensures ResolveRel(fs, Plain, root, start, parts, n, haveDir, assumeDir)
         == ResolveRel(fs, Plain, root, mid, parts[1..], n, IsDir(fs, mid), assumeDir)
    ensures Leads(fs, root.comps, k, Walker(Rel(start, root), parts), Walker(Rel(mid, root), parts[1..]))
    decreases n, |parts|, 0
  {
    var tdir, todo := FollowOn(fs, root, start, parts, n, haveDir, assumeDir);
    k, mid := ResolverFollowsWalk(fs, root, tdir, todo, n - 1, true, assumeDir);
    LeadsThrough(fs, root.comps, Walker(Rel(start, root), parts), Walker(Rel(tdir, root), todo), parts[1..], k, Rel(mid, root));
    k := k + 1;
  }

  /** `Follow` where the resolution succeeds. */
  lemma FollowOn(fs: Tree, root: Path, start: Path, parts: seq<Part>, n: nat, haveDir: bool, assumeDir: bool) returns (tdir: Path, todo: seq<Part>)
    requires Standing(fs, root, start) && Walkable(root, start, parts) && LinksHaveTargets(fs)
    requires parts != [] && !Moves(fs, start, parts[0])
    requires ResolveRel(fs, Plain, root, start, parts, n, haveDir, assumeDir).Ok?
    ensures n > 0 && Standing(fs, root, tdir) && Walkable(root, tdir, todo) && "" !in parts[1..]
    ensures WalkStep(fs, root.comps, Walker(Rel(start, root), parts)) == Walker(Rel(tdir, root), todo + parts[1..])
    ensures var t := ResolveRel(fs, Plain, root, tdir, todo, n - 1, true, assumeDir);
            && t.Ok?
            && (Resolved(fs, Plain, root, t.value) ==>
                  ResolveRel(fs, Plain, root, start, parts, n, haveDir, assumeDir)
                  == ResolveRel(fs, Plain, root, t.value, parts[1..], n, IsDir(fs, t.value), assumeDir))
  {
    tdir, todo := Follow(fs, root, start, parts, n, haveDir, assumeDir);
  }

  /** Completeness: a walk of `k` steps needs a budget of at most `k`. */
  lemma {:induction false} WalkGivesResolver(fs: Tree, root: Path, start: Path, parts: seq<Part>, n: nat,
                                             haveDir: bool, assumeDir: bool, k: nat, end: seq<Name>) returns (p: Path)
    requires Standing(fs, root, start) && Walkable(root, start, parts) && LinksHaveTargets(fs)
    requires assumeDir && k <= n && Reaches(fs, root.comps, k, Walker(Rel(start, root), parts), end)
    ensures ResolveRel(fs, Plain, root, start, parts, n, haveDir, assumeDir) == Ok(p)
    ensures Standing(fs, root, p) && Rel(p, root) == end
    decreases k, 1
  {
    if parts == [] {
      p := start;
    } else if Moves(fs, start, parts[0]) {
      var next, haveDir' := Move(fs, root, start, parts, n, haveDir, assumeDir);
      assert Reaches(fs, root.comps, k - 1, Walker(Rel(next, root), parts[1..]), end);
      p := WalkGivesResolver(fs, root, next, parts[1..], n, haveDir', assumeDir, k - 1, end);
    } else {
      var tdir, todo, i, pos := SplitAtLink(fs, root, start, parts, k, end);
      var mid := WalkGivesTarget(fs, root, start, parts, n, haveDir, assumeDir, i, pos);
      p := WalkGivesResolver(fs, root, mid, parts[1..], n, IsDir(fs, mid), assumeDir, k - 1 - i, end);
    }
  }

  /** The link's own target, which the walk uses up in `i` steps. */
  lemma {:induction false} WalkGivesTarget(fs: Tree, root: Path, start: Path, parts: seq<Part>, n: nat, haveDir: bool,
                                           assumeDir: bool, i: nat, pos: seq<Name>) returns (mid: Path)
    requires Standing(fs, root, start) && LinksHaveTargets(fs)
    requires parts != [] && !Moves(fs, start, parts[0]) && assumeDir && i < n
    requires var tdir, todo := TargetDir(fs, root, start, parts[0]), LinkParts(fs.link[DropDots(start.comps + [parts[0]])]);
             && Standing(fs, root, tdir) && Walkable(root, tdir, todo)
             && Reaches(fs, root.comps, i, Walker(Rel(tdir, root), todo), pos)
    ensures Standing(fs, root, mid) && Rel(mid, root) == pos
    ensures ResolveRel(fs, Plain, root, start, parts, n, haveDir, assumeDir)
         == ResolveRel(fs, Plain, root, mid, parts[1..], n, IsDir(fs, mid), assumeDir)
    decreases i + 1, 0
  {
    var tdir, todo := TargetDir(fs, root, start, parts[0]), LinkParts(fs.link[DropDots(start.comps + [parts[0]])]);
    mid := WalkGivesResolver(fs, root, tdir, todo, n - 1, true, assumeDir, i, pos);
    LinkRoundTo(fs, root, start, parts, n, haveDir, assumeDir, mid);
  }

  /** A walk that starts at a link splits where the link's target is used up. */
  lemma SplitAtLink(fs: Tree, root: Path, start: Path, parts: seq<Part>, k: nat, end: seq<Name>)
    returns (tdir: Path, todo: seq<Part>, i: nat, pos: seq<Name>)
    requires Standing(fs, root, start) && Walkable(root, start, parts) && LinksHaveTargets(fs)
    requires parts != [] && !Moves(fs, start, parts[0])
    requires Reaches(fs, root.comps, k, Walker(Rel(start, root), parts), end)
    ensures tdir == TargetDir(fs, root, start, parts[0]) && todo == LinkParts(fs.link[DropDots(start.comps + [parts[0]])])
    ensures Standing(fs, root, tdir) && Walkable(root, tdir, todo) && "" !in parts[1..]
    ensures i < k && Reaches(fs, root.comps, i, Walker(Rel(tdir, root), todo), pos)
    ensures Reaches(fs, root.comps, k - 1 - i, Walker(pos, parts[1..]), end)
  {
    LinkStep(fs, root, start, parts);
    tdir, todo := TargetDir(fs, root, start, parts[0]), LinkParts(fs.link[DropDots(start.comps + [parts[0]])]);
    i, pos := ReachesSplit(fs, root.comps, k - 1, Walker(Rel(tdir, root), todo), parts[1..], end);
  }

  lemma LinkRoundTo(fs: Tree, root: Path, start: Path, parts: seq<Part>, n: nat, haveDir: bool, assumeDir: bool, mid: Path)
    requires Standing(fs, root, start) && parts != [] && n > 0 && Resolved(fs, Plain, root, mid)
    requires !Moves(fs, start, parts[0]) && LinksHaveTargets(fs) && (haveDir || assumeDir)
    requires ResolveRel(fs, Plain, root, TargetDir(fs, root, start, parts[0]),
                        LinkParts(fs.link[DropDots(start.comps + [parts[0]])]), n - 1, true, assumeDir) == Ok(mid)
    ensures ResolveRel(fs, Plain, root, start, parts, n, haveDir, assumeDir)
         == ResolveRel(fs, Plain, root, mid, parts[1..], n, IsDir(fs, mid), assumeDir)
  {
    LinkRound(fs, root, start, parts, n, haveDir, assumeDir);
  }
}
