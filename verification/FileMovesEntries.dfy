/** What is reported about the paths that both lists have. */
module FileMovesEntries {
  import opened Wrappers
  import opened FileMoves

  /** A change of what a list says about a path. */
  predicate OfEntry(c: FileChange) {
    c.Type? || c.Perms? || c.OwnerGroup? || c.LinkTarget?
  }

  /** The change is what became of an entry, old value first; ownership counts only where it is compared, and the
      target only of what is a link now. */
  predicate Became(a: Entry, b: Entry, compareOwnership: bool, c: FileChange)
    requires a.mode != "" && b.mode != ""
  {
    match c
    case Type(_, before, after) => before == a.mode[0] && after == b.mode[0] && before != after
    case Perms(_, was, now) => was == a.mode[1..] && now == b.mode[1..] && was != now
    case OwnerGroup(_, whose, whom) =>
      compareOwnership && whose == a.owner + "/" + a.group && whom == b.owner + "/" + b.group && whose != whom
    case LinkTarget(_, pointed, points) => b.mode[0] == 'l' && pointed == a.target && Some(points) == b.target && pointed != b.target
    case Added(_) => false
    case Removed(_) => false
    case Moved(_, _) => false
  }

  lemma CountAppend<T>(a: seq<T>, b: seq<T>, x: T)
    ensures multiset(a + b)[x] == multiset(a)[x] + multiset(b)[x]
  {
  }

  /** A part of the report that is there or not. */
  function Part(there: bool, c: FileChange): seq<FileChange> {
    if there then [c] else []
  }

  lemma FourParts(a: seq<FileChange>, b: seq<FileChange>, d: seq<FileChange>, e: seq<FileChange>, c: FileChange)
    ensures multiset(a + b + d + e)[c] == multiset(a)[c] + multiset(b)[c] + multiset(d)[c] + multiset(e)[c]
  {
    CountAppend(a + b + d, e, c);
    CountAppend(a + b, d, c);
    CountAppend(a, b, c);
  }

  function Picked(t: seq<FileChange>, p: seq<FileChange>, o: seq<FileChange>, l: seq<FileChange>, c: FileChange): seq<FileChange> {
    match c
    case Type(_, _, _) => t
    case Perms(_, _, _) => p
    case OwnerGroup(_, _, _) => o
    case _ => l
  }

  predicate FourKinds(t: seq<FileChange>, p: seq<FileChange>, o: seq<FileChange>, l: seq<FileChange>) {
    && |t| <= 1 && |p| <= 1 && |o| <= 1 && |l| <= 1
    && (forall x | x in t :: x.Type?)
    && (forall x | x in p :: x.Perms?)
    && (forall x | x in o :: x.OwnerGroup?)
    && (forall x | x in l :: x.LinkTarget?)
  }

  /** Parts of four kinds: a change is reported by the one of its own kind, if at all. */
  lemma KindsCount(all: seq<FileChange>, t: seq<FileChange>, p: seq<FileChange>, o: seq<FileChange>, l: seq<FileChange>, c: FileChange)
    requires all == t + p + o + l && FourKinds(t, p, o, l)
    ensures multiset(all)[c] == if c in Picked(t, p, o, l, c) then 1 else 0
  {
    FourParts(t, p, o, l, c);
    AtMostOne(t, c);
    AtMostOne(p, c);
    AtMostOne(o, c);
    AtMostOne(l, c);
  }

  lemma AtMostOne(part: seq<FileChange>, c: FileChange)
    requires |part| <= 1
    ensures multiset(part)[c] == if c in part then 1 else 0
  {
    if part != [] {
      assert part == [part[0]];
    }
  }

  function TypePart(path: string, a: Entry, b: Entry): seq<FileChange>
    requires a.mode != "" && b.mode != ""
  {
    Part(a.mode[0] != b.mode[0], Type(path, a.mode[0], b.mode[0]))
  }

  function PermsPart(path: string, was: string, now: string): seq<FileChange> {
    Part(was != now, Perms(path, was, now))
  }

  function OwnerPart(path: string, compareOwnership: bool, whose: string, whom: string): seq<FileChange> {
    Part(compareOwnership && whose != whom, OwnerGroup(path, whose, whom))
  }

  function LinkPart(path: string, a: Entry, b: Entry): seq<FileChange>
    requires b.mode != "" && (b.mode[0] == 'l' ==> b.target.Some?)
  {
    if b.mode[0] == 'l' then Part(a.target != b.target, LinkTarget(path, a.target, b.target.value)) else []
  }

  /** The part that reports changes of the kind of `c`. */
  function PartOf(path: string, a: Entry, b: Entry, compareOwnership: bool, c: FileChange): seq<FileChange>
    requires a.mode != "" && b.mode != "" && (b.mode[0] == 'l' ==> b.target.Some?)
  {
    Picked(TypePart(path, a, b), PermsPart(path, a.mode[1..], b.mode[1..]),
           OwnerPart(path, compareOwnership, a.owner + "/" + a.group, b.owner + "/" + b.group), LinkPart(path, a, b), c)
  }

  lemma PartCounts(path: string, a: Entry, b: Entry, compareOwnership: bool, c: FileChange)
    requires a.mode != "" && b.mode != "" && (b.mode[0] == 'l' ==> b.target.Some?)
    ensures multiset(EntryChanges(path, a, b, compareOwnership))[c] == if c in PartOf(path, a, b, compareOwnership, c) then 1 else 0
  {
    var t, p, o, l := EntryParts(path, a, b, compareOwnership);
    KindsCount(EntryChanges(path, a, b, compareOwnership), t, p, o, l, c);
  }

  /** One path: each change that happened is reported once, and nothing else. */
  lemma EntryCounts(path: string, a: Entry, b: Entry, compareOwnership: bool, c: FileChange)
    requires a.mode != "" && b.mode != "" && (b.mode[0] == 'l' ==> b.target.Some?)
    ensures multiset(EntryChanges(path, a, b, compareOwnership))[c] ==
            if c.path == path && Became(a, b, compareOwnership, c) then 1 else 0
  {
    PartCounts(path, a, b, compareOwnership, c);
    InItsPart(path, a, b, compareOwnership, c);
  }

  lemma InItsPart(path: string, a: Entry, b: Entry, compareOwnership: bool, c: FileChange)
    requires a.mode != "" && b.mode != "" && (b.mode[0] == 'l' ==> b.target.Some?)
    ensures c in PartOf(path, a, b, compareOwnership, c) <==> c.path == path && Became(a, b, compareOwnership, c)
  {
    match c
    case Type(_, _, _) =>
    case Perms(_, _, _) =>
    case OwnerGroup(_, _, _) =>
    case LinkTarget(_, _, _) =>
    case _ =>
  }

  lemma EntryParts(path: string, a: Entry, b: Entry, compareOwnership: bool)
    returns (t: seq<FileChange>, p: seq<FileChange>, o: seq<FileChange>, l: seq<FileChange>)
    requires a.mode != "" && b.mode != "" && (b.mode[0] == 'l' ==> b.target.Some?)
    ensures EntryChanges(path, a, b, compareOwnership) == t + p + o + l && FourKinds(t, p, o, l)
    ensures t == TypePart(path, a, b) && p == PermsPart(path, a.mode[1..], b.mode[1..])
    ensures o == OwnerPart(path, compareOwnership, a.owner + "/" + a.group, b.owner + "/" + b.group) && l == LinkPart(path, a, b)
  {
    t, p := TypePart(path, a, b), PermsPart(path, a.mode[1..], b.mode[1..]);
    o, l := OwnerPart(path, compareOwnership, a.owner + "/" + a.group, b.owner + "/" + b.group), LinkPart(path, a, b);
  }

  /** The two lists have the path, and this became of its entry. */
  ghost predicate Happened(a: seq<Item>, b: seq<Item>, compareOwnership: bool, c: FileChange)
    requires Proper(a) && Proper(b)
  {
    exists i, j | 0 <= i < |a| && 0 <= j < |b| :: a[i].path == b[j].path == c.path && Became(a[i].entry, b[j].entry, compareOwnership, c)
  }

  lemma SamePath(items: seq<Item>, i: nat, j: nat)
    requires Proper(items) && i < |items| && j < |items| && items[i].path == items[j].path
    ensures i == j
  {
    assert Paths(items)[i] == Paths(items)[j];
  }

  lemma OtherPath(items: seq<Item>, i: nat, j: nat)
    requires Proper(items) && i < j < |items|
    ensures items[i].path != items[j].path
  {
    assert Paths(items)[i] != Paths(items)[j];
  }

  /** What happened before the last item, and what became of it. */
  lemma HappenedLast(a: seq<Item>, b: seq<Item>, compareOwnership: bool, c: FileChange)
    requires Proper(a) && Proper(b) && a != [] && Proper(a[..|a| - 1])
    ensures var n := |a| - 1;
            var found := Lookup(b, a[n].path);
            && (found.Some? ==> found.value.mode != "")
            && (found.Some? && c.path == a[n].path && Became(a[n].entry, found.value, compareOwnership, c) ==>
                  Happened(a, b, compareOwnership, c))
            && (Happened(a, b, compareOwnership, c) ==>
                  || Happened(a[..n], b, compareOwnership, c)
                  || (found.Some? && c.path == a[n].path && Became(a[n].entry, found.value, compareOwnership, c)))
            && (Happened(a[..n], b, compareOwnership, c) ==> Happened(a, b, compareOwnership, c) && c.path != a[n].path)
  {
    var n := |a| - 1;
    LookupProper(b, a[n].path);
    var found := Lookup(b, a[n].path);
    if i, j :| 0 <= i < |a| && 0 <= j < |b| && a[i].path == b[j].path == c.path && Became(a[i].entry, b[j].entry, compareOwnership, c) {
      if i == n {
        FoundIs(b, j);
      } else {
        assert a[..n][i] == a[i];
      }
    }
    if i, j :| 0 <= i < n && 0 <= j < |b| && a[..n][i].path == b[j].path == c.path && Became(a[..n][i].entry, b[j].entry, compareOwnership, c) {
      assert a[..n][i] == a[i];
      OtherPath(a, i, n);
    }
  }

  lemma FoundIs(b: seq<Item>, j: nat)
    requires Proper(b) && j < |b|
    ensures Lookup(b, b[j].path) == Some(b[j].entry)
  {
    LookupProper(b, b[j].path);
    var k :| 0 <= k < |b| && b[k].path == b[j].path && b[k].entry == Lookup(b, b[j].path).value;
    SamePath(b, j, k);
  }

  lemma {:induction false} CommonCounts(a: seq<Item>, b: seq<Item>, compareOwnership: bool, c: FileChange)
    requires Proper(a) && Proper(b)
    ensures multiset(CommonChanges(a, b, compareOwnership))[c] == if Happened(a, b, compareOwnership, c) then 1 else 0
    decreases |a|
  {
    if a != [] {
      var n := |a| - 1;
      ProperPrefix(a);
      LookupProper(b, a[n].path);
      CommonCounts(a[..n], b, compareOwnership, c);
      HappenedLast(a, b, compareOwnership, c);
      var found := Lookup(b, a[n].path);
      if found.Some? {
        EntryCounts(a[n].path, a[n].entry, found.value, compareOwnership, c);
        CountAppend(CommonChanges(a[..n], b, compareOwnership), EntryChanges(a[n].path, a[n].entry, found.value, compareOwnership), c);
      } else {
        CountAppend(CommonChanges(a[..n], b, compareOwnership), [], c);
      }
    }
  }

  // ---- the search reports nothing of the kind --------------------------------------------

  lemma {:induction false} MovesAreMoves(ms: seq<Move>)
    ensures forall c | c in MoveChanges(ms) :: c.Moved?
  {
    if ms != [] {
      MovesAreMoves(ms[..|ms| - 1]);
    }
  }

  lemma {:induction false} RenamesAreMoves(rs: seq<Rename>)
    ensures forall c | c in RenameChanges(rs) :: c.Moved?
  {
    if rs != [] {
      RenamesAreMoves(rs[..|rs| - 1]);
    }
  }

  lemma {:induction false} AddedAre(ps: seq<string>)
    ensures forall c :: c in AddedChanges(ps) <==> c.Added? && c.path in ps
  {
    if ps != [] {
      var n := |ps| - 1;
      AddedAre(ps[..n]);
      assert ps == ps[..n] + [ps[n]];
    }
  }

  lemma {:induction false} RemovedAre(ps: seq<string>)
    ensures forall c :: c in RemovedChanges(ps) <==> c.Removed? && c.path in ps
  {
    if ps != [] {
      var n := |ps| - 1;
      RemovedAre(ps[..n]);
      assert ps == ps[..n] + [ps[n]];
    }
  }

  lemma SearchReportsPaths(s: Search, c: FileChange)
    requires OfEntry(c)
    ensures multiset(SearchChanges(s))[c] == 0
  {
    MovesAreMoves(s.l.moves);
    RenamesAreMoves(s.l.renames);
    AddedAre(s.added);
    RemovedAre(s.removed);
    assert c !in SearchChanges(s);
  }

  /** The whole comparison: a change of type, permissions, ownership or link target is reported, once, if and only if
      it happened to a path that both lists have, old value first. */
  lemma EntriesReportedIff(a: seq<Item>, b: seq<Item>, compareOwnership: bool, c: FileChange)
    requires Proper(a) && Proper(b) && OfEntry(c)
    ensures multiset(Comparison(a, b, compareOwnership))[c] == if Happened(a, b, compareOwnership, c) then 1 else 0
  {
    CommonCounts(a, b, compareOwnership, c);
    SearchReportsPaths(Found(ListsOf(a, b)), c);
    CountAppend(CommonChanges(a, b, compareOwnership), SearchChanges(Found(ListsOf(a, b))), c);
  }
}
