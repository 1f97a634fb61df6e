/** The accounts of a search for moves: no path is lost, none is booked twice, and all are reported. */
module FileMovesBooks {
  import opened Wrappers
  import opened FileMoves

  function Targets(ms: seq<Move>): seq<string> {
    if ms == [] then [] else Targets(ms[..|ms| - 1]) + [ms[|ms| - 1].target]
  }

  function Gained(ab: seq<Absorbed>): seq<string> {
    if ab == [] then [] else Gained(ab[..|ab| - 1]) + [ab[|ab| - 1].target]
  }

  function Lost(ab: seq<Absorbed>): seq<string> {
    if ab == [] then [] else Lost(ab[..|ab| - 1]) + [ab[|ab| - 1].source]
  }

  /** Both lists are accounted for, each path exactly once. */
  ghost predicate Balanced(l: Ledger, added0: seq<string>, removed0: seq<string>, added: seq<string>, removed: seq<string>) {
    && multiset(added0) == multiset(added) + multiset(Targets(l.moves)) + multiset(Gained(l.absorbed))
    && multiset(removed0) == multiset(removed) + multiset(l.freed) + multiset(Lost(l.absorbed))
  }

  ghost predicate IsSource(l: Ledger, path: string) {
    exists m | m in l.moves :: m.source == path
  }

  /** Where a directory rename comes from: an addition and a removal that agree up to digits, cut after
      the first component in which they differ; the new directory was not there before, and the old one
      is not itself an addition. */
  ghost predicate Justified(r: Rename, added0: seq<string>, removed0: seq<string>, before: seq<string>) {
    && r.dir !in before && r.was !in added0
    && exists a, d, i | a in added0 && d in removed0 :: ParallelDirs(r, a, d, i)
  }

  ghost predicate ParallelDirs(r: Rename, a: string, d: string, i: nat) {
    && Translate(a) == Translate(d)
    && i < |Split(a)| == |Split(d)| && Split(a)[i] != Split(d)[i] && Split(a)[..i] == Split(d)[..i]
    && r.dir == Join(Split(a)[..i + 1]) && r.was == Join(Split(d)[..i + 1])
  }

  /** What the entries of the ledger mean. */
  ghost predicate Meaningful(l: Ledger, added0: seq<string>, removed0: seq<string>, before: seq<string>) {
    && (forall m | m in l.moves :: m.source in removed0 && Translate(m.source) == Translate(m.target))
    && (forall r | r in l.renames :: Justified(r, added0, removed0, before))
    && (forall i, j | 0 <= i < j < |l.renames| :: l.renames[i].dir != l.renames[j].dir)
    && (forall a | a in l.absorbed :: a.rename in l.renames && a.rename.dir <= a.target && a.source == Replace(a.target, a.rename.dir, a.rename.was))
  }

  /** A removal that was the source of a move is taken off the list by the first of its moves. */
  ghost predicate SourcesGone(l: Ledger, removed: seq<string>) {
    && (forall m | m in l.moves :: m.source !in removed)
    && (forall p | p in l.freed :: IsSource(l, p))
  }

  /** The two sides of a search: what was only new and only old, and what is left of each. */
  datatype Sides = Sides(added0: seq<string>, removed0: seq<string>, added: seq<string>, removed: seq<string>)

  ghost predicate Booked(l: Ledger, s: Sides, before: seq<string>) {
    && Distinct(s.added) && Distinct(s.removed)
    && Balanced(l, s.added0, s.removed0, s.added, s.removed)
    && Meaningful(l, s.added0, s.removed0, before)
    && SourcesGone(l, s.removed)
  }

  /** One element moved from `a` to the end of one of the other two. */
  lemma ShiftOne(all: multiset<string>, a: seq<string>, rest: seq<string>, t: seq<string>, g: seq<string>, x: string)
    requires all == multiset(a) + multiset(t) + multiset(g) && multiset(a) == multiset(rest) + multiset{x}
    ensures all == multiset(rest) + multiset(t + [x]) + multiset(g)
    ensures all == multiset(rest) + multiset(t) + multiset(g + [x])
  {
  }

  lemma MoveBalances(l: Ledger, s: Sides, m: Move)
    requires Distinct(s.added) && Distinct(s.removed) && Balanced(l, s.added0, s.removed0, s.added, s.removed) && m.target in s.added
    ensures Balanced(WithMove(l, m, m.source in s.removed), s.added0, s.removed0, Remove(s.added, m.target), RemoveIfThere(s.removed, m.source))
    ensures Distinct(Remove(s.added, m.target)) && Distinct(RemoveIfThere(s.removed, m.source))
    ensures m.source !in RemoveIfThere(s.removed, m.source) && (forall p | p in RemoveIfThere(s.removed, m.source) :: p in s.removed)
  {
    TargetsAppend(l.moves, m);
    RemoveCounts(s.added, m.target);
    ShiftOne(multiset(s.added0), s.added, Remove(s.added, m.target), Targets(l.moves), Gained(l.absorbed), m.target);
    if m.source in s.removed {
      RemoveCounts(s.removed, m.source);
      ShiftOne(multiset(s.removed0), s.removed, Remove(s.removed, m.source), l.freed, Lost(l.absorbed), m.source);
    } else {
      assert l.freed + [] == l.freed;
    }
  }

  lemma TargetsAppend(ms: seq<Move>, m: Move)
    ensures Targets(ms + [m]) == Targets(ms) + [m.target]
  {
    assert (ms + [m])[..|ms|] == ms;
  }

  lemma BookMove(l: Ledger, s: Sides, before: seq<string>, m: Move)
    requires Booked(l, s, before) && m.target in s.added && m.source in s.removed0 && Translate(m.source) == Translate(m.target)
    ensures Booked(WithMove(l, m, m.source in s.removed), s.(added := Remove(s.added, m.target), removed := RemoveIfThere(s.removed, m.source)), before)
  {
    MoveBalances(l, s, m);
    var l' := WithMove(l, m, m.source in s.removed);
    assert m in l'.moves;
    forall p | p in l'.freed
      ensures IsSource(l', p)
    {
      if p in l.freed {
        var w :| w in l.moves && w.source == p;
        assert w in l'.moves;
      }
    }
  }

  lemma AbsorbedAppend(ab: seq<Absorbed>, a: Absorbed)
    ensures Gained(ab + [a]) == Gained(ab) + [a.target] && Lost(ab + [a]) == Lost(ab) + [a.source]
  {
    assert (ab + [a])[..|ab|] == ab;
  }

  lemma AbsorbedBalances(l: Ledger, s: Sides, a: Absorbed)
    requires Distinct(s.added) && Distinct(s.removed) && Balanced(l, s.added0, s.removed0, s.added, s.removed)
    requires a.target in s.added && a.source in s.removed
    ensures Balanced(l.(absorbed := l.absorbed + [a]), s.added0, s.removed0, Remove(s.added, a.target), Remove(s.removed, a.source))
    ensures Distinct(Remove(s.added, a.target)) && Distinct(Remove(s.removed, a.source))
    ensures forall p | p in Remove(s.removed, a.source) :: p in s.removed
  {
    AbsorbedAppend(l.absorbed, a);
    RemoveCounts(s.added, a.target);
    RemoveCounts(s.removed, a.source);
    ShiftOne(multiset(s.added0), s.added, Remove(s.added, a.target), Targets(l.moves), Gained(l.absorbed), a.target);
    ShiftOne(multiset(s.removed0), s.removed, Remove(s.removed, a.source), l.freed, Lost(l.absorbed), a.source);
  }

  lemma BookAbsorbed(l: Ledger, s: Sides, before: seq<string>, via: Rename, target: string)
    requires Booked(l, s, before) && target in s.added && via in l.renames && via.dir <= target
    requires Replace(target, via.dir, via.was) in s.removed
    ensures var source := Replace(target, via.dir, via.was);
            Booked(l.(absorbed := l.absorbed + [Absorbed(target, source, via)]),
                   s.(added := Remove(s.added, target), removed := Remove(s.removed, source)), before)
  {
    var source := Replace(target, via.dir, via.was);
    var l' := l.(absorbed := l.absorbed + [Absorbed(target, source, via)]);
    AbsorbedBalances(l, s, Absorbed(target, source, via));
    forall p | p in l'.freed
      ensures IsSource(l', p)
    {
      assert IsSource(l, p);
    }
  }

  lemma BookRename(l: Ledger, s: Sides, before: seq<string>, r: Rename)
    requires Booked(l, s, before) && Justified(r, s.added0, s.removed0, before)
    requires forall q | q in l.renames :: q.dir != r.dir
    ensures Booked(l.(renames := l.renames + [r]), s, before)
  {
    forall p | p in l.freed
      ensures IsSource(l.(renames := l.renames + [r]), p)
    {
      assert IsSource(l, p);
    }
  }

  // ---- the accounts of the whole search --------------------------------------------------

  ghost predicate InOrder(lists: Lists, s: Search) {
    Booked(s.l, Sides(lists.added, lists.removed, s.added, s.removed), lists.before)
  }

  ghost predicate Apart(lists: Lists) {
    && Distinct(lists.added) && Distinct(lists.removed)
    && (forall p | p in lists.removed :: p in lists.before)
    && (forall p | p in lists.added :: p !in lists.before && p in lists.standing)
  }

  lemma {:induction false} AbsorbingInOrder(lists: Lists, s: Search, via: Rename, additions: seq<string>)
    requires InOrder(lists, s) && via in s.l.renames && Distinct(additions) && forall a | a in additions :: a in s.added
    ensures InOrder(lists, AbsorbAll(s, via, additions))
    decreases |additions|
  {
    if additions != [] {
      var a, rest := additions[0], additions[1..];
      var t := AbsorbOne(s, via, a);
      if t != s {
        BookAbsorbed(s.l, Sides(lists.added, lists.removed, s.added, s.removed), lists.before, via, a);
        RemoveCounts(s.added, a);
      }
      forall x | x in rest ensures x in t.added {
        assert x in additions;
        OtherThanFirst(additions, x);
      }
      AbsorbingInOrder(lists, t, via, rest);
    }
  }

  lemma OtherThanFirst(s: seq<string>, x: string)
    requires s != [] && Distinct(s) && x in s[1..]
    ensures x != s[0]
  {
    var i :| 0 <= i < |s[1..]| && s[1..][i] == x;
    assert s[0] != s[i + 1];
  }

  /** The pair a rename is taken from. */
  lemma RenameParallel(addition: string, removal: string)
    requires Translate(addition) == Translate(removal) && addition != removal
    ensures ParallelDirs(RenameOf(addition, removal), addition, removal, DiffIndex(Split(addition), Split(removal)))
  {
    SomeComponentDiffers(addition, removal);
    DiffIndexDiffers(Split(addition), Split(removal));
  }

  lemma NewRename(renames: seq<Rename>, dir: string)
    requires !HasDir(renames, dir)
    ensures forall q | q in renames :: q.dir != dir
  {
  }

  lemma ConsiderInOrder(lists: Lists, s: Search, addition: string)
    requires Apart(lists) && InOrder(lists, s) && addition in lists.added
    ensures InOrder(lists, Consider(s, lists, addition))
  {
    var alike := Alike(lists.removed, Translate(addition));
    if addition in s.added && |alike| == 1 {
      AlikeMembers(lists.removed, Translate(addition), alike[0]);
      var sides := Sides(lists.added, lists.removed, s.added, s.removed);
      var r := RenameOf(addition, alike[0]);
      if IsRename(s, lists, r) {
        RenameParallel(addition, alike[0]);
        NewRename(s.l.renames, r.dir);
        BookRename(s.l, sides, lists.before, r);
        AbsorbingInOrder(lists, WithRename(s, r), r, s.added);
      } else {
        BookMove(s.l, sides, lists.before, Move(alike[0], addition));
      }
    }
  }

  lemma {:induction false} ConsiderAllInOrder(lists: Lists, s: Search, additions: seq<string>)
    requires Apart(lists) && InOrder(lists, s) && forall a | a in additions :: a in lists.added
    ensures InOrder(lists, ConsiderAll(s, lists, additions))
    decreases |additions|
  {
    if additions != [] {
      ConsiderInOrder(lists, s, additions[0]);
      ConsiderAllInOrder(lists, Consider(s, lists, additions[0]), additions[1..]);
    }
  }

  lemma BegunInOrder(lists: Lists)
    requires Apart(lists)
    ensures InOrder(lists, Begun(lists))
  {
  }

  lemma FoundInOrder(lists: Lists)
    requires Apart(lists)
    ensures InOrder(lists, Found(lists))
  {
    BegunInOrder(lists);
    ConsiderAllInOrder(lists, Begun(lists), lists.added);
  }

  lemma ListsApart(a: seq<Item>, b: seq<Item>)
    requires Proper(a) && Proper(b)
    ensures Apart(ListsOf(a, b))
  {
    OnlyInOne(a, b);
  }

  // ---- every path is reported ----------------------------------------------------------

  /** The changes report a path that is only in the new list: as added, as moved, or through a directory
      rename that makes it of a path only in the old list. */
  ghost predicate ReportedNew(changes: seq<FileChange>, onlyOld: seq<string>, p: string) {
    || Added(p) in changes
    || (exists source :: Moved(source, p) in changes)
    || (exists was, dir :: Moved(was, dir) in changes && dir <= p && Replace(p, dir, was) in onlyOld)
  }

  /** The changes report a path that is only in the old list. */
  ghost predicate ReportedOld(changes: seq<FileChange>, onlyNew: seq<string>, p: string) {
    || Removed(p) in changes
    || (exists target :: Moved(p, target) in changes)
    || (exists was, dir, t | t in onlyNew :: Moved(was, dir) in changes && dir <= t && p == Replace(t, dir, was))
  }

  lemma {:induction false} MoveListed(ms: seq<Move>, i: nat)
    requires i < |ms|
    ensures Moved(ms[i].source, ms[i].target) in MoveChanges(ms)
  {
    if i < |ms| - 1 {
      MoveListed(ms[..|ms| - 1], i);
    }
  }

  lemma {:induction false} RenameListed(rs: seq<Rename>, i: nat)
    requires i < |rs|
    ensures Moved(rs[i].was, rs[i].dir) in RenameChanges(rs)
  {
    if i < |rs| - 1 {
      RenameListed(rs[..|rs| - 1], i);
    }
  }

  lemma {:induction false} PathsListed(ps: seq<string>, p: string)
    requires p in ps
    ensures Added(p) in AddedChanges(ps) && Removed(p) in RemovedChanges(ps)
  {
    var n := |ps| - 1;
    if p in ps[..n] {
      PathsListed(ps[..n], p);
    }
  }

  lemma {:induction false} TargetOf(ms: seq<Move>, p: string) returns (i: nat)
    requires p in Targets(ms)
    ensures i < |ms| && ms[i].target == p
  {
    var n := |ms| - 1;
    if p in Targets(ms[..n]) {
      i := TargetOf(ms[..n], p);
    } else {
      i := n;
    }
  }

  lemma {:induction false} AbsorbedAt(ab: seq<Absorbed>, i: nat)
    requires i < |ab|
    ensures ab[i].target in Gained(ab) && ab[i].source in Lost(ab)
  {
    if i < |ab| - 1 {
      AbsorbedAt(ab[..|ab| - 1], i);
    }
  }

  lemma {:induction false} AbsorbedOf(ab: seq<Absorbed>, p: string) returns (i: nat)
    requires p in Gained(ab) || p in Lost(ab)
    ensures i < |ab| && (p in Gained(ab) && p !in Lost(ab) ==> ab[i].target == p)
    ensures p !in Gained(ab) && p in Lost(ab) ==> ab[i].source == p
    ensures ab[i].target == p || ab[i].source == p
  {
    var n := |ab| - 1;
    if ab[n].target == p || ab[n].source == p {
      i := n;
      AbsorbedAt(ab, n);
    } else {
      i := AbsorbedOf(ab[..n], p);
      AbsorbedAt(ab, i);
    }
  }

  /** The changes of one search contain every entry of its ledger and of what was left. */
  ghost predicate Tells(changes: seq<FileChange>, l: Ledger, s: Sides) {
    && (forall c | c in MoveChanges(l.moves) :: c in changes)
    && (forall c | c in RenameChanges(l.renames) :: c in changes)
    && (forall c | c in AddedChanges(s.added) :: c in changes)
    && (forall c | c in RemovedChanges(s.removed) :: c in changes)
  }

  lemma AbsorbedTold(l: Ledger, s: Sides, before: seq<string>, changes: seq<FileChange>, i: nat)
    requires Booked(l, s, before) && Tells(changes, l, s) && i < |l.absorbed|
    ensures ReportedNew(changes, s.removed0, l.absorbed[i].target)
    ensures ReportedOld(changes, s.added0, l.absorbed[i].source)
  {
    var a := l.absorbed[i];
    assert a in l.absorbed;
    AbsorbedAt(l.absorbed, i);
    assert multiset(s.removed0)[a.source] > 0 && multiset(s.added0)[a.target] > 0 by {
      assert a.source in multiset(Lost(l.absorbed)) && a.target in multiset(Gained(l.absorbed));
    }
    assert a.source in s.removed0 && a.target in s.added0;
    var k :| 0 <= k < |l.renames| && l.renames[k] == a.rename;
    RenameListed(l.renames, k);
    assert Moved(a.rename.was, a.rename.dir) in changes;
  }

  lemma NewPathTold(l: Ledger, s: Sides, before: seq<string>, changes: seq<FileChange>, p: string)
    requires Booked(l, s, before) && Tells(changes, l, s) && p in s.added0 && Distinct(s.removed0)
    requires p !in Lost(l.absorbed)
    ensures ReportedNew(changes, s.removed0, p)
  {
    assert p in multiset(s.added0);
    if p in s.added {
      PathsListed(s.added, p);
    } else if p in Targets(l.moves) {
      var i := TargetOf(l.moves, p);
      MoveListed(l.moves, i);
    } else {
      assert p in multiset(Gained(l.absorbed));
      var i := AbsorbedOf(l.absorbed, p);
      AbsorbedTold(l, s, before, changes, i);
    }
  }

  lemma OldPathTold(l: Ledger, s: Sides, before: seq<string>, changes: seq<FileChange>, p: string)
    requires Booked(l, s, before) && Tells(changes, l, s) && p in s.removed0
    requires p !in Gained(l.absorbed)
    ensures ReportedOld(changes, s.added0, p)
  {
    assert p in multiset(s.removed0);
    if p in s.removed {
      PathsListed(s.removed, p);
    } else if p in l.freed {
      var i :| 0 <= i < |l.moves| && l.moves[i].source == p;
      MoveListed(l.moves, i);
    } else {
      assert p in multiset(Lost(l.absorbed));
      var i := AbsorbedOf(l.absorbed, p);
      AbsorbedTold(l, s, before, changes, i);
    }
  }

  /** What is gained was only in the new list, what is lost only in the old one. */
  lemma BooksAreApart(l: Ledger, s: Sides, before: seq<string>, p: string)
    requires Booked(l, s, before)
    ensures p in Gained(l.absorbed) ==> p in s.added0
    ensures p in Lost(l.absorbed) ==> p in s.removed0
  {
    assert p in Gained(l.absorbed) ==> p in multiset(Gained(l.absorbed));
    assert p in Lost(l.absorbed) ==> p in multiset(Lost(l.absorbed));
    assert p in multiset(s.added0) ==> p in s.added0;
    assert p in multiset(s.removed0) ==> p in s.removed0;
  }

  lemma SearchTells(common: seq<FileChange>, s: Search, sides: Sides)
    requires sides.added == s.added && sides.removed == s.removed
    ensures Tells(common + SearchChanges(s), s.l, sides)
  {
  }

  /** Every path that is in one list only is reported. */
  lemma EveryPathReported(a: seq<Item>, b: seq<Item>, compareOwnership: bool, p: string)
    requires Proper(a) && Proper(b)
    ensures p in Paths(b) && p !in Paths(a) ==>
              ReportedNew(Comparison(a, b, compareOwnership), Paths(Without(a, Paths(b))), p)
    ensures p in Paths(a) && p !in Paths(b) ==>
              ReportedOld(Comparison(a, b, compareOwnership), Paths(Without(b, Paths(a))), p)
  {
    var lists, changes := ListsOf(a, b), Comparison(a, b, compareOwnership);
    var s := Found(lists);
    var sides := Sides(lists.added, lists.removed, s.added, s.removed);
    ListsApart(a, b);
    FoundInOrder(lists);
    SearchTells(CommonChanges(a, b, compareOwnership), s, sides);
    WithoutMembers(b, Paths(a), p);
    WithoutMembers(a, Paths(b), p);
    BooksAreApart(s.l, sides, lists.before, p);
    if p in lists.added {
      NewPathTold(s.l, sides, lists.before, changes, p);
    }
    if p in lists.removed {
      OldPathTold(s.l, sides, lists.before, changes, p);
    }
  }

  /** Conservation. A path that is only new is reported as added, or is the target of one move, or is
      absorbed by a directory rename: exactly one of them, exactly once. A path that is only old is
      reported as removed exactly when it is neither the source of a move nor absorbed. */
  lemma NothingIsLost(l: Ledger, s: Sides, before: seq<string>, p: string)
    requires Booked(l, s, before) && Distinct(s.added0) && Distinct(s.removed0)
    ensures p in s.added0 ==> multiset(s.added)[p] + multiset(Targets(l.moves))[p] + multiset(Gained(l.absorbed))[p] == 1
    ensures p in s.removed0 ==> (p in s.removed <==> !IsSource(l, p) && p !in Lost(l.absorbed))
  {
    if p in s.added0 {
      DistinctCount(s.added0, p);
    }
    if p in s.removed0 {
      DistinctCount(s.removed0, p);
      assert multiset(s.removed)[p] + multiset(l.freed)[p] + multiset(Lost(l.absorbed))[p] == 1;
      if p in s.removed {
        assert multiset(s.removed)[p] > 0;
        assert p !in multiset(Lost(l.absorbed));
      } else {
        assert p in multiset(l.freed) || p in multiset(Lost(l.absorbed));
      }
    }
  }

  lemma {:induction false} DistinctCount<T>(s: seq<T>, x: T)
    requires Distinct(s) && x in s
    ensures multiset(s)[x] == 1
  {
    assert s == [s[0]] + s[1..];
    if s[0] != x {
      DistinctCount(s[1..], x);
    }
  }
}
