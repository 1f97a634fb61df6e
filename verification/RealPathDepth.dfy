/** Exactly when `realpath` succeeds, and with which error it fails: what the flat walk must find. Its budget bounds
    how deep links are nested in the targets of links, not how many of them a path meets. */
module RealPathDepth {
  import opened Wrappers
  import opened PosixPath
  import opened RealPath
  import opened RealPathSafety
  import opened RealPathWalk
  import opened RealPathResults

  /** A part still to be walked, how many links it comes out of, and whether the place must be a directory when its
      turn comes. */
  datatype Leaf = Leaf(part: Part, level: nat, tested: bool)

  datatype Deep = Deep(pos: seq<Name>, todo: seq<Leaf>)

  /** The tree, the names of the root, the deepest level of links plus one, and whether places are tested. */
  datatype Setting = Setting(fs: Tree, root: seq<Name>, n: nat, tests: bool)

  /** Why a walk cannot go on: a link nested too deep, or a place that is no directory. */
  datatype Fault = TooDeep | NotDirectory(pos: seq<Name>)

  /** The parts of one path or link target. The place is tested before each part but the first, unless the part
      before it is ".."; `first` says whether it is before the first of these. */
  function At(parts: seq<Part>, level: nat, tests: bool, first: bool): (r: seq<Leaf>)
    ensures |r| == |parts|
  {
    seq(|parts|, i requires 0 <= i < |parts| =>
      Leaf(parts[i], level, tests && if i == 0 then first else parts[i - 1] != ".."))
  }

  function Plainly(w: Deep): Walker {
    Walker(w.pos, seq(|w.todo|, i requires 0 <= i < |w.todo| => w.todo[i].part))
  }

  predicate FollowsLink(u: Setting, w: Deep)
    requires w.todo != []
  {
    AtLink(u.fs, u.root, w.pos, w.todo[0].part)
  }

  function Before(w: Deep, rest: seq<Leaf>): Deep {
    Deep(w.pos, w.todo + rest)
  }

  /** Where a link leads, and its target's parts, one level deeper. */
  function Followed(u: Setting, pos: seq<Name>, leaf: Leaf): Deep
    requires AtLink(u.fs, u.root, pos, leaf.part)
  {
    var t := u.fs.link[DropDots(u.root + (pos + [leaf.part]))];
    Deep(if t.abs then [] else pos, At(LinkParts(t), leaf.level + 1, u.tests, false))
  }

  /** One step of the walk; the parts of a link's target are one level deeper than its name. */
  function DeepStep(u: Setting, w: Deep): Deep
    requires w.todo != []
  {
    var d, rest := w.todo[0].part, w.todo[1..];
    if d == "" then Deep(w.pos, rest)
    else if d == ".." then Deep(Up(w.pos), rest)
    else if FollowsLink(u, w) then Before(Followed(u, w.pos, w.todo[0]), rest)
    else Deep(w.pos + [d], rest)
  }

  /** Levels and tests change nothing about the walk. */
  lemma DeepIsTheWalk(u: Setting, w: Deep)
    requires w.todo != []
    ensures Plainly(DeepStep(u, w)) == WalkStep(u.fs, u.root, Plainly(w))
  {
    var d := w.todo[0].part;
    assert Plainly(w).todo[0] == d;
    assert Plainly(Deep(w.pos, w.todo[1..])).todo == Plainly(w).todo[1..];
    if FollowsLink(u, w) {
      var f := Followed(u, w.pos, w.todo[0]);
      assert Plainly(f).todo == LinkParts(u.fs.link[DropDots(u.root + (w.pos + [d]))]);
      assert Plainly(Before(f, w.todo[1..])).todo == Plainly(f).todo + Plainly(w).todo[1..];
    }
  }

  /** `stat`, which follows links, finds a directory at the path. */
  predicate StatsDirectory(fs: Tree, comps: seq<Name>) {
    DropDots(comps) in fs.stat && fs.stat[DropDots(comps)].kind == Directory
  }

  /** What keeps the walk from its next step. */
  function FaultAt(u: Setting, w: Deep): Option<Fault> {
    if w.todo == [] then None
    else if w.todo[0].tested && !StatsDirectory(u.fs, u.root + w.pos) then Some(NotDirectory(w.pos))
    else if FollowsLink(u, w) && w.todo[0].level >= u.n then Some(TooDeep)
    else None
  }

  /** The first fault of the walk comes after `j` steps. */
  ghost predicate FaultAfter(u: Setting, j: nat, w: Deep, x: Fault)
    decreases j
  {
    if j == 0 then FaultAt(u, w) == Some(x)
    else w.todo != [] && FaultAt(u, w).None? && FaultAfter(u, j - 1, DeepStep(u, w), x)
  }

  /** The walk ends after `k` steps without one. */
  ghost predicate EndsWell(u: Setting, k: nat, w: Deep, end: seq<Name>)
    decreases k
  {
    if w.todo == [] then k == 0 && w.pos == end
    else k > 0 && FaultAt(u, w).None? && EndsWell(u, k - 1, DeepStep(u, w), end)
  }

  lemma {:induction false} NotBoth(u: Setting, k: nat, w: Deep, end: seq<Name>, j: nat, x: Fault)
    requires EndsWell(u, k, w, end)
    ensures !FaultAfter(u, j, w, x)
    decreases k
  {
    if w.todo != [] && j > 0 {
      NotBoth(u, k - 1, DeepStep(u, w), end, j - 1, x);
    }
  }

  /** A walk has one first fault. */
  lemma {:induction false} OneFault(u: Setting, j: nat, w: Deep, x: Fault, i: nat, y: Fault)
    requires FaultAfter(u, j, w, x) && FaultAfter(u, i, w, y)
    ensures i == j && x == y
    decreases j
  {
    if j > 0 && i > 0 {
      OneFault(u, j - 1, DeepStep(u, w), x, i - 1, y);
    }
  }

  /** Where a walk ends well the flat walk ends. */
  lemma {:induction false} WellIsTheEnd(u: Setting, k: nat, w: Deep, end: seq<Name>)
    requires EndsWell(u, k, w, end)
    ensures Reaches(u.fs, u.root, k, Plainly(w), end)
    decreases k
  {
    if w.todo != [] {
      WellIsTheEnd(u, k - 1, DeepStep(u, w), end);
      DeepIsTheWalk(u, w);
    }
  }

  // ---- two lists in a row ----------------------------------------------------------------

  lemma FirstStays(todo: seq<Leaf>, rest: seq<Leaf>)
    requires todo != []
    ensures (todo + rest)[0] == todo[0] && (todo + rest)[1..] == todo[1..] + rest
  {
  }

  lemma LinkFrame(u: Setting, w: Deep, rest: seq<Leaf>)
    requires w.todo != [] && FollowsLink(u, w)
    ensures DeepStep(u, Before(w, rest)) == Before(DeepStep(u, w), rest)
  {
    FirstStays(w.todo, rest);
    Regroup(Followed(u, w.pos, w.todo[0]).todo, w.todo[1..], rest);
  }

  lemma DeepFrame(u: Setting, w: Deep, rest: seq<Leaf>)
    requires w.todo != []
    ensures DeepStep(u, Before(w, rest)) == Before(DeepStep(u, w), rest)
    ensures FaultAt(u, Before(w, rest)) == FaultAt(u, w)
  {
    FirstStays(w.todo, rest);
    if FollowsLink(u, w) {
      LinkFrame(u, w, rest);
    }
  }

  lemma {:induction false} WellThenWell(u: Setting, k: nat, w: Deep, mid: seq<Name>, rest: seq<Leaf>, j: nat, end: seq<Name>)
    requires EndsWell(u, k, w, mid) && EndsWell(u, j, Deep(mid, rest), end)
    ensures EndsWell(u, k + j, Before(w, rest), end)
    decreases k
  {
    if w.todo == [] {
      assert w.todo + rest == rest;
    } else {
      DeepFrame(u, w, rest);
      WellThenWell(u, k - 1, DeepStep(u, w), mid, rest, j, end);
    }
  }

  lemma {:induction false} WellThenFault(u: Setting, k: nat, w: Deep, mid: seq<Name>, rest: seq<Leaf>, j: nat, x: Fault)
    requires EndsWell(u, k, w, mid) && FaultAfter(u, j, Deep(mid, rest), x)
    ensures FaultAfter(u, k + j, Before(w, rest), x)
    decreases k
  {
    if w.todo == [] {
      assert w.todo + rest == rest;
    } else {
      DeepFrame(u, w, rest);
      WellThenFault(u, k - 1, DeepStep(u, w), mid, rest, j, x);
    }
  }

  lemma {:induction false} FaultAnyway(u: Setting, j: nat, w: Deep, rest: seq<Leaf>, x: Fault)
    requires FaultAfter(u, j, w, x) && w.todo != []
    ensures FaultAfter(u, j, Before(w, rest), x)
    decreases j
  {
    DeepFrame(u, w, rest);
    if j > 0 {
      FaultHasParts(u, j - 1, DeepStep(u, w), x);
      FaultAnyway(u, j - 1, DeepStep(u, w), rest, x);
    }
  }

  lemma FaultHasParts(u: Setting, j: nat, w: Deep, x: Fault)
    requires FaultAfter(u, j, w, x)
    ensures w.todo != []
  {
  }

  // ---- the resolver ----------------------------------------------------------------------

  /** The walk that `__realpath_rel` makes of its parts, found at level `level`. */
  function Start(root: Path, start: Path, parts: seq<Part>, level: nat, tests: bool, first: bool): Deep
    requires root.comps <= start.comps
  {
    Deep(Rel(start, root), At(parts, level, tests, first))
  }

  lemma PlaceOf(root: Path, start: Path)
    requires root.comps <= start.comps
    ensures root.comps + Rel(start, root) == start.comps
  {
  }

  lemma LinkHere(u: Setting, root: Path, start: Path, parts: seq<Part>, level: nat, first: bool)
    requires u.root == root.comps && Below(start, root) && parts != [] && LinksHaveTargets(u.fs)
    ensures FollowsLink(u, Start(root, start, parts, level, u.tests, first)) <==> !Moves(u.fs, start, parts[0])
  {
    if parts[0] != "" && parts[0] != ".." {
      SamePlace(root, start, parts[0]);
    }
  }

  lemma AtRest(parts: seq<Part>, level: nat, tests: bool, first: bool)
    requires parts != []
    ensures At(parts, level, tests, first)[1..] == At(parts[1..], level, tests, parts[0] != "..")
  {
    forall i | 0 <= i < |parts| - 1
      ensures At(parts, level, tests, first)[1..][i] == At(parts[1..], level, tests, parts[0] != "..")[i]
    {
    }
  }

  /** A step that follows no link goes where the walk without levels goes. */
  lemma DeepMove(u: Setting, root: Path, start: Path, parts: seq<Part>, level: nat, first: bool, next: Path)
    requires u.root == root.comps && Below(start, root) && Below(next, root) && LinksHaveTargets(u.fs)
    requires parts != [] && Moves(u.fs, start, parts[0])
    requires WalkStep(u.fs, root.comps, Walker(Rel(start, root), parts)) == Walker(Rel(next, root), parts[1..])
    ensures DeepStep(u, Start(root, start, parts, level, u.tests, first)) ==
            Start(root, next, parts[1..], level, u.tests, parts[0] != "..")
  {
    LinkHere(u, root, start, parts, level, first);
    AtRest(parts, level, u.tests, first);
  }

  lemma DeepFollow(u: Setting, root: Path, start: Path, parts: seq<Part>, level: nat, first: bool, tdir: Path, todo: seq<Part>)
    requires u.root == root.comps && Below(start, root) && Below(tdir, root) && LinksHaveTargets(u.fs)
    requires parts != [] && !Moves(u.fs, start, parts[0])
    requires tdir == TargetDir(u.fs, root, start, parts[0]) && todo == LinkParts(u.fs.link[DropDots(start.comps + [parts[0]])])
    ensures DeepStep(u, Start(root, start, parts, level, u.tests, first)) ==
            Before(Start(root, tdir, todo, level + 1, u.tests, false), At(parts[1..], level, u.tests, true))
  {
    LinkHere(u, root, start, parts, level, first);
    SamePlace(root, start, parts[0]);
    AtRest(parts, level, u.tests, first);
  }

  /** The error that a fault brings. */
  ghost predicate Brings(root: Path, x: Fault, e: Error) {
    match x
    case TooDeep => e.TooManyLinks?
    case NotDirectory(pos) => e.NoDirectory? && e.at.comps == root.comps + pos
  }

  /** What the walk does, in line with an answer of the resolver. */
  ghost predicate Answers(u: Setting, root: Path, w: Deep, r: Result<Path>) {
    match r
    case Ok(p) => Standing(u.fs, root, p) && exists k: nat :: EndsWell(u, k, w, Rel(p, root))
    case Err(e) => exists j: nat, x :: FaultAfter(u, j, w, x) && Brings(root, x, e)
  }

  lemma AnswersBefore(u: Setting, root: Path, w: Deep, next: Deep, r: Result<Path>)
    requires w.todo != [] && DeepStep(u, w) == next && FaultAt(u, w).None? && Answers(u, root, next, r)
    ensures Answers(u, root, w, r)
  {
    match r
    case Ok(p) =>
      var k: nat :| EndsWell(u, k, next, Rel(p, root));
      assert EndsWell(u, k + 1, w, Rel(p, root));
    case Err(e) =>
      var j: nat, x :| FaultAfter(u, j, next, x) && Brings(root, x, e);
      assert FaultAfter(u, j + 1, w, x);
  }

  lemma AnswersThen(u: Setting, root: Path, w: Deep, mid: Path, rest: seq<Leaf>, r: Result<Path>)
    requires Answers(u, root, w, Ok(mid)) && Answers(u, root, Deep(Rel(mid, root), rest), r)
    ensures Answers(u, root, Before(w, rest), r)
  {
    var k: nat :| EndsWell(u, k, w, Rel(mid, root));
    match r
    case Ok(p) =>
      var j: nat :| EndsWell(u, j, Deep(Rel(mid, root), rest), Rel(p, root));
      WellThenWell(u, k, w, Rel(mid, root), rest, j, Rel(p, root));
    case Err(e) =>
      var j: nat, x :| FaultAfter(u, j, Deep(Rel(mid, root), rest), x) && Brings(root, x, e);
      WellThenFault(u, k, w, Rel(mid, root), rest, j, x);
  }

  lemma ErrorBefore(u: Setting, root: Path, w: Deep, rest: seq<Leaf>, e: Error)
    requires Answers(u, root, w, Err(e))
    ensures Answers(u, root, Before(w, rest), Err(e))
  {
    var j: nat, x :| FaultAfter(u, j, w, x) && Brings(root, x, e);
    FaultHasParts(u, j, w, x);
    FaultAnyway(u, j, w, rest, x);
  }

  /** `haveDir` as the loop has it before the first of its parts. */
  ghost predicate HaveDirIs(fs: Tree, start: Path, tests: bool, first: bool, haveDir: bool) {
    tests ==> haveDir == (first ==> IsDir(fs, start))
  }

  lemma TestHere(u: Setting, root: Path, start: Path, parts: seq<Part>, level: nat, first: bool, haveDir: bool)
    requires u.root == root.comps && Below(start, root) && parts != [] && HaveDirIs(u.fs, start, u.tests, first, haveDir)
    ensures var w := Start(root, start, parts, level, u.tests, first);
            if u.tests && !haveDir then FaultAt(u, w) == Some(NotDirectory(Rel(start, root)))
            else FaultAt(u, w) == if FollowsLink(u, w) && level >= u.n then Some(TooDeep) else None
  {
    PlaceOf(root, start);
  }

  /** What is to be shown, as one relation of a call and the walk. */
  ghost predicate GoesAlong(fs: Tree, root: Path, start: Path, parts: seq<Part>, n: nat, level: nat, first: bool, haveDir: bool, assumeDir: bool)
    requires root.comps <= start.comps
  {
    var u := Setting(fs, root.comps, n + level, !assumeDir);
    Answers(u, root, Start(root, start, parts, level, u.tests, first), ResolveRel(fs, Plain, root, start, parts, n, haveDir, assumeDir))
  }

  lemma NothingLeft(fs: Tree, root: Path, start: Path, parts: seq<Part>, n: nat, level: nat, first: bool, haveDir: bool, assumeDir: bool)
    requires Standing(fs, root, start) && parts == []
    ensures GoesAlong(fs, root, start, parts, n, level, first, haveDir, assumeDir)
  {
    var u := Setting(fs, root.comps, n + level, !assumeDir);
    assert EndsWell(u, 0, Start(root, start, parts, level, u.tests, first), Rel(start, root));
  }

  /** The test before a part fails. */
  lemma NoDirectoryHere(fs: Tree, root: Path, start: Path, parts: seq<Part>, n: nat, level: nat, first: bool)
    requires Standing(fs, root, start) && parts != [] && HaveDirIs(fs, start, true, first, false)
    ensures GoesAlong(fs, root, start, parts, n, level, first, false, false)
  {
    var u := Setting(fs, root.comps, n + level, true);
    TestHere(u, root, start, parts, level, first, false);
    PlaceOf(root, start);
    var x := NotDirectory(Rel(start, root));
    assert FaultAfter(u, 0, Start(root, start, parts, level, u.tests, first), x) && Brings(root, x, NoDirectory(start));
  }

  /** A round that follows no link. */
  lemma MoveAnswers(u: Setting, root: Path, start: Path, parts: seq<Part>, level: nat, first: bool, haveDir: bool, next: Path, r: Result<Path>)
    requires u.root == root.comps && Standing(u.fs, root, start) && Standing(u.fs, root, next) && LinksHaveTargets(u.fs)
    requires parts != [] && Moves(u.fs, start, parts[0]) && HaveDirIs(u.fs, start, u.tests, first, haveDir) && (haveDir || !u.tests)
    requires WalkStep(u.fs, root.comps, Walker(Rel(start, root), parts)) == Walker(Rel(next, root), parts[1..])
    requires Answers(u, root, Start(root, next, parts[1..], level, u.tests, parts[0] != ".."), r)
    ensures Answers(u, root, Start(root, start, parts, level, u.tests, first), r)
  {
    DeepMove(u, root, start, parts, level, first, next);
    LinkHere(u, root, start, parts, level, first);
    TestHere(u, root, start, parts, level, first, haveDir);
    AnswersBefore(u, root, Start(root, start, parts, level, u.tests, first),
                  Start(root, next, parts[1..], level, u.tests, parts[0] != ".."), r);
  }

  lemma MoveGoesAlong(fs: Tree, root: Path, start: Path, parts: seq<Part>, n: nat, level: nat, first: bool, haveDir: bool, assumeDir: bool)
    returns (next: Path, haveDir': bool)
    requires Standing(fs, root, start) && Walkable(root, start, parts) && LinksHaveTargets(fs) && (haveDir || assumeDir)
    requires parts != [] && Moves(fs, start, parts[0]) && HaveDirIs(fs, start, !assumeDir, first, haveDir)
    ensures Standing(fs, root, next) && Walkable(root, next, parts[1..])
    ensures HaveDirIs(fs, next, !assumeDir, parts[0] != "..", haveDir')
    ensures GoesAlong(fs, root, next, parts[1..], n, level, parts[0] != "..", haveDir', assumeDir) ==>
            GoesAlong(fs, root, start, parts, n, level, first, haveDir, assumeDir)
  {
    next, haveDir' := Move(fs, root, start, parts, n, haveDir, assumeDir);
    if GoesAlong(fs, root, next, parts[1..], n, level, parts[0] != "..", haveDir', assumeDir) {
      MoveAnswers(Setting(fs, root.comps, n + level, !assumeDir), root, start, parts, level, first, haveDir, next,
                  ResolveRel(fs, Plain, root, start, parts, n, haveDir, assumeDir));
    }
  }

  /** A link without a budget. */
  lemma NoBudget(fs: Tree, root: Path, start: Path, parts: seq<Part>, level: nat, first: bool, haveDir: bool, assumeDir: bool)
    requires Standing(fs, root, start) && LinksHaveTargets(fs) && (haveDir || assumeDir)
    requires parts != [] && !Moves(fs, start, parts[0]) && HaveDirIs(fs, start, !assumeDir, first, haveDir)
    ensures GoesAlong(fs, root, start, parts, 0, level, first, haveDir, assumeDir)
  {
    var u := Setting(fs, root.comps, level, !assumeDir);
    LinkHere(u, root, start, parts, level, first);
    TestHere(u, root, start, parts, level, first, haveDir);
    LinkRound(fs, root, start, parts, 0, haveDir, assumeDir);
    assert FaultAfter(u, 0, Start(root, start, parts, level, u.tests, first), TooDeep);
    assert Brings(root, TooDeep, ResolveRel(fs, Plain, root, start, parts, 0, haveDir, assumeDir).error);
  }

  /** The resolver with budget `n`, at level `level`, goes with the walk that may follow links below level
      `n + level`. */
  lemma {:induction false} ResolverGoesAlong(fs: Tree, root: Path, start: Path, parts: seq<Part>, n: nat, level: nat,
                                             first: bool, haveDir: bool, assumeDir: bool)
    requires Standing(fs, root, start) && Walkable(root, start, parts) && LinksHaveTargets(fs)
    requires HaveDirIs(fs, start, !assumeDir, first, haveDir)
    ensures GoesAlong(fs, root, start, parts, n, level, first, haveDir, assumeDir)
    decreases n, |parts|
  {
    if parts == [] {
      NothingLeft(fs, root, start, parts, n, level, first, haveDir, assumeDir);
    } else if !haveDir && !assumeDir {
      NoDirectoryHere(fs, root, start, parts, n, level, first);
    } else if Moves(fs, start, parts[0]) {
      var next, haveDir' := MoveGoesAlong(fs, root, start, parts, n, level, first, haveDir, assumeDir);
      ResolverGoesAlong(fs, root, next, parts[1..], n, level, parts[0] != "..", haveDir', assumeDir);
    } else if n == 0 {
      NoBudget(fs, root, start, parts, level, first, haveDir, assumeDir);
    } else {
      TargetGoesAlong(fs, root, start, parts, n, level, first, haveDir, assumeDir);
    }
  }

  /** The answer at a link from the answers for its target and for the parts after it. */
  lemma LinkAnswers(u: Setting, root: Path, w: Deep, target: Deep, rest: seq<Leaf>, t: Result<Path>, r: Result<Path>)
    requires w.todo != [] && DeepStep(u, w) == Before(target, rest) && FaultAt(u, w).None?
    requires Answers(u, root, target, t)
    requires if t.Err? then r == Err(t.error) else Answers(u, root, Deep(Rel(t.value, root), rest), r)
    ensures Answers(u, root, w, r)
  {
    if t.Err? {
      ErrorBefore(u, root, target, rest, t.error);
    } else {
      AnswersThen(u, root, target, t.value, rest, r);
    }
    AnswersBefore(u, root, w, Before(target, rest), r);
  }

  /** Where the target of a link leads, and what is left then. */
  lemma TargetFacts(fs: Tree, root: Path, start: Path, parts: seq<Part>, n: nat, haveDir: bool, assumeDir: bool) returns (tdir: Path, todo: seq<Part>)
    requires Standing(fs, root, start) && Walkable(root, start, parts) && LinksHaveTargets(fs)
    requires n > 0 && parts != [] && !Moves(fs, start, parts[0]) && (haveDir || assumeDir)
    ensures tdir == TargetDir(fs, root, start, parts[0]) && todo == LinkParts(fs.link[DropDots(start.comps + [parts[0]])])
    ensures Standing(fs, root, tdir) && Walkable(root, tdir, todo) && "" !in parts[1..]
    ensures var r := ResolveRel(fs, Plain, root, start, parts, n, haveDir, assumeDir);
            var t := ResolveRel(fs, Plain, root, tdir, todo, n - 1, true, assumeDir);
            if t.Err? then r == Err(t.error)
            else Resolved(fs, Plain, root, t.value) ==>
                   r == ResolveRel(fs, Plain, root, t.value, parts[1..], n, IsDir(fs, t.value), assumeDir)
  {
    tdir, todo := TargetDir(fs, root, start, parts[0]), LinkParts(fs.link[DropDots(start.comps + [parts[0]])]);
    LinkStep(fs, root, start, parts);
    LinkRound(fs, root, start, parts, n, haveDir, assumeDir);
  }

  /** A round that follows a link with some budget left. */
  lemma FollowAnswers(u: Setting, root: Path, start: Path, parts: seq<Part>, level: nat, first: bool, haveDir: bool,
                      tdir: Path, todo: seq<Part>, t: Result<Path>, r: Result<Path>)
    requires u.root == root.comps && Below(start, root) && Below(tdir, root) && LinksHaveTargets(u.fs) && level < u.n
    requires parts != [] && !Moves(u.fs, start, parts[0]) && HaveDirIs(u.fs, start, u.tests, first, haveDir) && (haveDir || !u.tests)
    requires tdir == TargetDir(u.fs, root, start, parts[0]) && todo == LinkParts(u.fs.link[DropDots(start.comps + [parts[0]])])
    requires Answers(u, root, Start(root, tdir, todo, level + 1, u.tests, false), t)
    requires if t.Err? then r == Err(t.error) else Answers(u, root, Start(root, t.value, parts[1..], level, u.tests, true), r)
    ensures Answers(u, root, Start(root, start, parts, level, u.tests, first), r)
  {
    DeepFollow(u, root, start, parts, level, first, tdir, todo);
    TestHere(u, root, start, parts, level, first, haveDir);
    LinkAnswers(u, root, Start(root, start, parts, level, u.tests, first), Start(root, tdir, todo, level + 1, u.tests, false),
                At(parts[1..], level, u.tests, true), t, r);
  }

  /** A link's target, and then, if it is resolved to some `mid`, the parts after it. */
  lemma FollowGoesAlong(fs: Tree, root: Path, start: Path, parts: seq<Part>, n: nat, level: nat, first: bool, haveDir: bool, assumeDir: bool)
    returns (tdir: Path, todo: seq<Part>, mid: Option<Path>)
    requires Standing(fs, root, start) && Walkable(root, start, parts) && LinksHaveTargets(fs) && (haveDir || assumeDir)
    requires n > 0 && parts != [] && !Moves(fs, start, parts[0]) && HaveDirIs(fs, start, !assumeDir, first, haveDir)
    ensures Standing(fs, root, tdir) && Walkable(root, tdir, todo)
    ensures GoesAlong(fs, root, tdir, todo, n - 1, level + 1, false, true, assumeDir) ==>
              if mid.None? then GoesAlong(fs, root, start, parts, n, level, first, haveDir, assumeDir)
              else
                && Standing(fs, root, mid.value) && Walkable(root, mid.value, parts[1..])
                && (GoesAlong(fs, root, mid.value, parts[1..], n, level, true, IsDir(fs, mid.value), assumeDir) ==>
                      GoesAlong(fs, root, start, parts, n, level, first, haveDir, assumeDir))
  {
    tdir, todo := TargetFacts(fs, root, start, parts, n, haveDir, assumeDir);
    var r, t := ResolveRel(fs, Plain, root, start, parts, n, haveDir, assumeDir), ResolveRel(fs, Plain, root, tdir, todo, n - 1, true, assumeDir);
    mid := if t.Ok? then Some(t.value) else None;
    if GoesAlong(fs, root, tdir, todo, n - 1, level + 1, false, true, assumeDir) {
      if t.Err? || GoesAlong(fs, root, t.value, parts[1..], n, level, true, IsDir(fs, t.value), assumeDir) {
        FollowAnswers(Setting(fs, root.comps, n + level, !assumeDir), root, start, parts, level, first, haveDir, tdir, todo, t, r);
      }
    }
  }

  lemma {:induction false} TargetGoesAlong(fs: Tree, root: Path, start: Path, parts: seq<Part>, n: nat, level: nat,
                                           first: bool, haveDir: bool, assumeDir: bool)
    requires Standing(fs, root, start) && Walkable(root, start, parts) && LinksHaveTargets(fs) && (haveDir || assumeDir)
    requires n > 0 && parts != [] && !Moves(fs, start, parts[0]) && HaveDirIs(fs, start, !assumeDir, first, haveDir)
    ensures GoesAlong(fs, root, start, parts, n, level, first, haveDir, assumeDir)
    decreases n, |parts|, 0
  {
    var tdir, todo, mid := FollowGoesAlong(fs, root, start, parts, n, level, first, haveDir, assumeDir);
    ResolverGoesAlong(fs, root, tdir, todo, n - 1, level + 1, false, true, assumeDir);
    if mid.Some? {
      ResolverGoesAlong(fs, root, mid.value, parts[1..], n, level, true, IsDir(fs, mid.value), assumeDir);
    }
  }

  // ---- realpath --------------------------------------------------------------------------

  /** The walk of a file, from the root. */
  function DeepOutset(file: Raw, root: Raw, tests: bool): Deep
    requires root.abs && file.abs && IsPathBelow(Absolute(file), RootPath(root))
  {
    Deep([], At(RelParts(Absolute(file), RootPath(root)), 0, tests, false))
  }

  ghost predicate Meets(fs: Tree, file: Raw, root: Raw, n: nat, assumeDir: bool, j: nat, x: Fault)
    requires root.abs && file.abs && IsPathBelow(Absolute(file), RootPath(root))
  {
    FaultAfter(Setting(fs, Absolute(root).comps, n, !assumeDir), j, DeepOutset(file, root, !assumeDir), x)
  }

  ghost predicate Arrives(fs: Tree, file: Raw, root: Raw, n: nat, assumeDir: bool, k: nat, end: seq<Name>)
    requires root.abs && file.abs && IsPathBelow(Absolute(file), RootPath(root))
  {
    EndsWell(Setting(fs, Absolute(root).comps, n, !assumeDir), k, DeepOutset(file, root, !assumeDir), end)
  }

  /** Every answer of `realpath` from the walk: a success is its end; ENOENT is raised at the first place that is no
      directory where one is tested, ELOOP at a link nested too deep, whichever the walk meets first. */
  lemma AnswerOfTheWalk(fs: Tree, file: Raw, root: Raw, n: nat, assumeDir: bool)
    requires root.abs && file.abs && IsPathBelow(Absolute(file), RootPath(root)) && LinksHaveTargets(fs)
    ensures match Resolve(fs, Plain, file, root, true, n, assumeDir) {
              case Ok(p) => Below(p, RootPath(root)) && exists k: nat :: Arrives(fs, file, root, n, assumeDir, k, Rel(p, RootPath(root)))
              case Err(NoDirectory(at)) =>
                Below(at, RootPath(root)) && exists j: nat :: Meets(fs, file, root, n, assumeDir, j, NotDirectory(Rel(at, RootPath(root))))
              case Err(LoopIn(_, _)) => exists j: nat :: Meets(fs, file, root, n, assumeDir, j, TooDeep)
              case Err(_) => false
            }
  {
    var r := RootPath(root);
    var parts := RelParts(Absolute(file), r);
    OutsetIsWalkable(file, root);
    assert Rel(r, r) == [];
    ResolverGoesAlong(fs, r, r, parts, n, 0, false, true, assumeDir);
    var u, w := Setting(fs, r.comps, n, !assumeDir), DeepOutset(file, root, !assumeDir);
    assert w == Start(r, r, parts, 0, u.tests, false);
    var res := ResolveRel(fs, Plain, r, r, parts, n, true, assumeDir);
    if res.Err? {
      var j: nat, x :| FaultAfter(u, j, w, x) && Brings(r, x, res.error);
      assert Meets(fs, file, root, n, assumeDir, j, x);
      if x.NotDirectory? {
        assert Rel(res.error.at, r) == x.pos;
      }
    } else {
      var k: nat :| EndsWell(u, k, w, Rel(res.value, r));
      assert Arrives(fs, file, root, n, assumeDir, k, Rel(res.value, r));
    }
  }

  /** And so, on every tree, with `assume_dir` or without: `realpath` succeeds if and only if its walk meets neither
      a link nested `n` deep nor, before a further part, a place that is no directory. */
  lemma ResolvesIffFaultless(fs: Tree, file: Raw, root: Raw, n: nat, assumeDir: bool)
    requires root.abs && file.abs && IsPathBelow(Absolute(file), RootPath(root)) && LinksHaveTargets(fs)
    ensures Resolve(fs, Plain, file, root, true, n, assumeDir).Ok? <==>
            forall j: nat, x :: !Meets(fs, file, root, n, assumeDir, j, x)
  {
    AnswerOfTheWalk(fs, file, root, n, assumeDir);
    var res := Resolve(fs, Plain, file, root, true, n, assumeDir);
    if res.Ok? {
      var u, w := Setting(fs, Absolute(root).comps, n, !assumeDir), DeepOutset(file, root, !assumeDir);
      var end := Rel(res.value, RootPath(root));
      var k: nat :| Arrives(fs, file, root, n, assumeDir, k, end);
      forall j: nat, x
        ensures !Meets(fs, file, root, n, assumeDir, j, x)
      {
        NotBoth(u, k, w, end, j, x);
      }
    } else {
      var x := if res.error.NoDirectory? then NotDirectory(Rel(res.error.at, RootPath(root))) else TooDeep;
      var j: nat :| Meets(fs, file, root, n, assumeDir, j, x);
    }
  }

  /** The error is ENOENT if and only if the first fault is a place that is no directory, and then names it. */
  lemma NoDirectoryIff(fs: Tree, file: Raw, root: Raw, n: nat, assumeDir: bool, j: nat, x: Fault)
    requires root.abs && file.abs && IsPathBelow(Absolute(file), RootPath(root)) && LinksHaveTargets(fs)
    requires Meets(fs, file, root, n, assumeDir, j, x)
    ensures var res := Resolve(fs, Plain, file, root, true, n, assumeDir);
            && res.Err?
            && (x.NotDirectory? <==> res.error.NoDirectory?)
            && (x.NotDirectory? ==> Below(res.error.at, RootPath(root)) && Rel(res.error.at, RootPath(root)) == x.pos)
  {
    AnswerOfTheWalk(fs, file, root, n, assumeDir);
    ResolvesIffFaultless(fs, file, root, n, assumeDir);
    var u, w := Setting(fs, Absolute(root).comps, n, !assumeDir), DeepOutset(file, root, !assumeDir);
    var res := Resolve(fs, Plain, file, root, true, n, assumeDir);
    var y := if res.error.NoDirectory? then NotDirectory(Rel(res.error.at, RootPath(root))) else TooDeep;
    var i: nat :| Meets(fs, file, root, n, assumeDir, i, y);
    OneFault(u, j, w, x, i, y);
  }

  /** With `assume_dir` only the nesting of links matters; how many links the walk meets does not. */
  lemma ResolvesIffShallow(fs: Tree, file: Raw, root: Raw, n: nat)
    requires root.abs && file.abs && IsPathBelow(Absolute(file), RootPath(root)) && LinksHaveTargets(fs)
    ensures Resolve(fs, Plain, file, root, true, n, true).Ok? <==> forall j: nat :: !Meets(fs, file, root, n, true, j, TooDeep)
  {
    ResolvesIffFaultless(fs, file, root, n, true);
    forall j: nat, x | Meets(fs, file, root, n, true, j, x)
      ensures x == TooDeep
    {
      Untested(Setting(fs, Absolute(root).comps, n, false), j, DeepOutset(file, root, false), x);
    }
  }

  lemma {:induction false} Untested(u: Setting, j: nat, w: Deep, x: Fault)
    requires !u.tests && (forall i | 0 <= i < |w.todo| :: !w.todo[i].tested) && FaultAfter(u, j, w, x)
    ensures x == TooDeep
    decreases j
  {
    if j > 0 {
      Untested(u, j - 1, DeepStep(u, w), x);
    }
  }
}
