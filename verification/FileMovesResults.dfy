/** Which directory renames are false, and which additions stay additions. */
module FileMovesResults {
  import opened Wrappers
  import opened FileMoves
  import opened FileMovesBooks

  // ---- renames of directories that are still there ---------------------------------------

  /** The test for a rename asks whether the old directory is among the additions, the common paths being
      popped by then. It lets a directory that is still there pass exactly when it is in both lists. */
  lemma RenameTestMisses(a: seq<Item>, b: seq<Item>, was: string)
    requires Proper(a) && Proper(b)
    ensures was !in ListsOf(a, b).added && was in Paths(b) <==> was in Paths(a) && was in Paths(b)
  {
    WithoutMembers(b, Paths(a), was);
  }

  /** Every reported rename is reported as a move of the directory, the new name is not in the old list, and if the
      old one is still in the new list it is in both. */
  lemma RenameReported(a: seq<Item>, b: seq<Item>, compareOwnership: bool, r: Rename)
    requires Proper(a) && Proper(b) && r in Found(ListsOf(a, b)).l.renames
    ensures Moved(r.was, r.dir) in Comparison(a, b, compareOwnership)
    ensures r.dir !in Paths(a) && (r.was in Paths(b) ==> r.was in Paths(a))
  {
    var lists := ListsOf(a, b);
    var s := Found(lists);
    ListsApart(a, b);
    FoundInOrder(lists);
    assert Justified(r, lists.added, lists.removed, lists.before);
    RenameTestMisses(a, b, r.was);
    var k :| 0 <= k < |s.l.renames| && s.l.renames[k] == r;
    RenameListed(s.l.renames, k);
    SearchTells(CommonChanges(a, b, compareOwnership), s, Sides(lists.added, lists.removed, s.added, s.removed));
  }

  // ---- against a search that looks into the whole new list -------------------------------

  /** The same with all new paths, as the comment beside the test has it: "in one dict and not the other". */
  function FairLists(a: seq<Item>, b: seq<Item>): Lists {
    ListsOf(a, b).(standing := Paths(b))
  }

  /** The search `s`, at this addition, takes a directory for renamed that is in both lists. */
  ghost predicate Misled(a: seq<Item>, b: seq<Item>, s: Search, addition: string) {
    var lists := ListsOf(a, b);
    var alike := Alike(lists.removed, Translate(addition));
    && addition in s.added && |alike| == 1
    && var r := RenameOf(addition, alike[0]);
       IsRename(s, lists, r) && r.was in Paths(a) && r.was in Paths(b)
  }

  lemma GuardIff(a: seq<Item>, b: seq<Item>, s: Search, r: Rename)
    requires Proper(a) && Proper(b)
    ensures IsRename(s, FairLists(a, b), r) ==> IsRename(s, ListsOf(a, b), r)
    ensures IsRename(s, ListsOf(a, b), r) && !IsRename(s, FairLists(a, b), r) <==>
            IsRename(s, ListsOf(a, b), r) && r.was in Paths(a) && r.was in Paths(b)
  {
    WithoutMembers(b, Paths(a), r.was);
  }

  /** A turn that makes a rename has one rename more than one that makes a move. */
  lemma RenameIsNoMove(s: Search, r: Rename, removal: string, addition: string)
    requires addition in s.added
    ensures AbsorbAll(WithRename(s, r), r, s.added) != MoveAway(s, removal, addition)
  {
    AbsorbingKeeps(WithRename(s, r), r, s.added);
    assert |s.l.renames + [r]| == |s.l.renames| + 1;
  }

  /** One turn: both searches do the same if and only if the code is not misled. */
  lemma TurnIsFairIff(a: seq<Item>, b: seq<Item>, s: Search, addition: string)
    requires Proper(a) && Proper(b)
    ensures Consider(s, ListsOf(a, b), addition) == Consider(s, FairLists(a, b), addition) <==> !Misled(a, b, s, addition)
  {
    var alike := Alike(ListsOf(a, b).removed, Translate(addition));
    if addition in s.added && |alike| == 1 {
      var r := RenameOf(addition, alike[0]);
      GuardIff(a, b, s, r);
      RenameIsNoMove(s, r, alike[0], addition);
    }
  }

  ghost predicate Agree(a: seq<Item>, b: seq<Item>, k: nat)
    requires k <= |ListsOf(a, b).added|
  {
    Before(ListsOf(a, b), k) == Before(FairLists(a, b), k)
  }

  ghost predicate MisledAt(a: seq<Item>, b: seq<Item>, k: nat)
    requires k < |ListsOf(a, b).added|
  {
    Misled(a, b, Before(FairLists(a, b), k), ListsOf(a, b).added[k])
  }

  lemma BeforeNext(lists: Lists, k: nat)
    requires k < |lists.added|
    ensures Before(lists, k + 1) == Consider(Before(lists, k), lists, lists.added[k])
  {
    var x := lists.added[k];
    assert lists.added[..k + 1] == lists.added[..k] + [x];
    ConsiderAllSplit(Begun(lists), lists, lists.added[..k], [x]);
    assert [x][1..] == [] && ConsiderAll(Consider(Before(lists, k), lists, x), lists, []) == Consider(Before(lists, k), lists, x);
  }

  lemma NextIsFair(a: seq<Item>, b: seq<Item>, k: nat)
    requires Proper(a) && Proper(b) && k < |ListsOf(a, b).added| && Agree(a, b, k)
    ensures Agree(a, b, k + 1) <==> !MisledAt(a, b, k)
  {
    BeforeNext(ListsOf(a, b), k);
    BeforeNext(FairLists(a, b), k);
    TurnIsFairIff(a, b, Before(FairLists(a, b), k), ListsOf(a, b).added[k]);
  }

  lemma {:induction false} UnmisledIsFair(a: seq<Item>, b: seq<Item>, k: nat)
    requires Proper(a) && Proper(b) && k <= |ListsOf(a, b).added|
    requires forall j | 0 <= j < k :: !MisledAt(a, b, j)
    ensures Agree(a, b, k)
  {
    if k > 0 {
      UnmisledIsFair(a, b, k - 1);
      NextIsFair(a, b, k - 1);
    } else {
      assert ListsOf(a, b).added[..0] == FairLists(a, b).added[..0] == [];
    }
  }

  /** The whole search: the code's and the fair one go together all the way if and only if no turn takes a
      directory for renamed that is in both lists. */
  lemma SearchIsFairIff(a: seq<Item>, b: seq<Item>)
    requires Proper(a) && Proper(b)
    ensures (forall k | 0 <= k <= |ListsOf(a, b).added| :: Agree(a, b, k)) <==>
            (forall k | 0 <= k < |ListsOf(a, b).added| :: !MisledAt(a, b, k))
  {
    if forall k | 0 <= k <= |ListsOf(a, b).added| :: Agree(a, b, k) {
      forall k | 0 <= k < |ListsOf(a, b).added|
        ensures !MisledAt(a, b, k)
      {
        NextIsFair(a, b, k);
        assert Agree(a, b, k + 1);
      }
    } else {
      var k :| 0 <= k <= |ListsOf(a, b).added| && !Agree(a, b, k);
      if forall j | 0 <= j < k :: !MisledAt(a, b, j) {
        UnmisledIsFair(a, b, k);
      }
    }
  }

  // ---- additions that stay although one removal is like them -----------------------------

  /** The search only takes away. */
  ghost predicate Shrunk(s: Search, t: Search) {
    (forall x | x in t.added :: x in s.added) && (forall x | x in t.removed :: x in s.removed)
  }

  lemma {:induction false} RemoveShrinks(s: seq<string>, x: string, y: string)
    requires y in Remove(s, x)
    ensures y in s
  {
    if s[0] != x && y != s[0] {
      assert y in Remove(s[1..], x);
      RemoveShrinks(s[1..], x, y);
    }
  }

  lemma TakenAway(added: seq<string>, removed: seq<string>, x: string, y: string)
    ensures forall z | z in Remove(added, x) :: z in added
    ensures forall z | z in Remove(removed, y) :: z in removed
  {
    forall z | z in Remove(added, x) ensures z in added {
      RemoveShrinks(added, x, z);
    }
    forall z | z in Remove(removed, y) ensures z in removed {
      RemoveShrinks(removed, y, z);
    }
  }

  lemma {:induction false} AbsorbingShrinks(s: Search, via: Rename, additions: seq<string>)
    ensures Shrunk(s, AbsorbAll(s, via, additions))
    decreases |additions|
  {
    if additions != [] {
      TakenAway(s.added, s.removed, additions[0], Replace(additions[0], via.dir, via.was));
      AbsorbingShrinks(AbsorbOne(s, via, additions[0]), via, additions[1..]);
    }
  }

  lemma ConsiderShrinks(s: Search, lists: Lists, x: string)
    ensures Shrunk(s, Consider(s, lists, x))
  {
    var alike := Alike(lists.removed, Translate(x));
    if x in s.added && |alike| == 1 {
      var r := RenameOf(x, alike[0]);
      AbsorbingShrinks(WithRename(s, r), r, s.added);
      TakenAway(s.added, s.removed, x, alike[0]);
    }
  }

  lemma {:induction false} SearchShrinks(s: Search, lists: Lists, xs: seq<string>)
    ensures Shrunk(s, ConsiderAll(s, lists, xs))
    decreases |xs|
  {
    if xs != [] {
      ConsiderShrinks(s, lists, xs[0]);
      SearchShrinks(Consider(s, lists, xs[0]), lists, xs[1..]);
    }
  }

  /** Only considered additions become move targets. */
  lemma {:induction false} MovesAreConsidered(s: Search, lists: Lists, xs: seq<string>, p: string)
    requires p !in Targets(s.l.moves) && p !in xs
    ensures p !in Targets(ConsiderAll(s, lists, xs).l.moves)
    decreases |xs|
  {
    if xs != [] {
      NoMoveTo(s, lists, xs[0], p);
      MovesAreConsidered(Consider(s, lists, xs[0]), lists, xs[1..], p);
    }
  }

  lemma NoMoveTo(s: Search, lists: Lists, x: string, p: string)
    requires p !in Targets(s.l.moves)
    requires p != x || (|Alike(lists.removed, Translate(x))| == 1 && IsRename(s, lists, RenameOf(x, Alike(lists.removed, Translate(x))[0])))
    ensures p !in Targets(Consider(s, lists, x).l.moves)
  {
    var alike := Alike(lists.removed, Translate(x));
    if x in s.added && |alike| == 1 {
      var r := RenameOf(x, alike[0]);
      AbsorbingKeeps(WithRename(s, r), r, s.added);
      TargetsAppend(s.l.moves, Move(alike[0], x));
    }
  }

  lemma {:induction false} ConsiderAllSplit(s: Search, lists: Lists, xs: seq<string>, ys: seq<string>)
    ensures ConsiderAll(s, lists, xs + ys) == ConsiderAll(ConsiderAll(s, lists, xs), lists, ys)
    decreases |xs|
  {
    if xs == [] {
      assert xs + ys == ys;
    } else {
      assert (xs + ys)[0] == xs[0] && (xs + ys)[1..] == xs[1..] + ys;
      ConsiderAllSplit(Consider(s, lists, xs[0]), lists, xs[1..], ys);
    }
  }

  /** The search before the addition at index `k`. */
  function Before(lists: Lists, k: nat): Search
    requires k <= |lists.added|
  {
    ConsiderAll(Begun(lists), lists, lists.added[..k])
  }

  lemma FoundFrom(lists: Lists, k: nat)
    requires k < |lists.added|
    ensures Found(lists) == ConsiderAll(Consider(Before(lists, k), lists, lists.added[k]), lists, lists.added[k + 1..])
  {
    var xs, ys := lists.added[..k], lists.added[k..];
    assert lists.added == xs + ys;
    ConsiderAllSplit(Begun(lists), lists, xs, ys);
    assert ys[0] == lists.added[k] && ys[1..] == lists.added[k + 1..];
  }

  /** An addition a rename leaves behind replaces no path that is still a removal. */
  lemma {:induction false} LeftBehind(s: Search, via: Rename, additions: seq<string>, x: string)
    requires Distinct(s.added) && x in additions && via.dir <= x
    ensures var t := AbsorbAll(s, via, additions);
            x in t.added ==> Replace(x, via.dir, via.was) !in t.removed
    decreases |additions|
  {
    var a, rest := additions[0], additions[1..];
    var t := AbsorbOne(s, via, a);
    AbsorbingShrinks(t, via, rest);
    if a == x {
      if Replace(x, via.dir, via.was) in s.removed {
        GoneOnce(s.added, x);
      }
    } else {
      assert x in rest;
      if t != s {
        if a in s.added {
          RemoveCounts(s.added, a);
        } else {
          RemoveAbsent(s.added, a);
        }
      }
      LeftBehind(t, via, rest, x);
    }
  }

  lemma GoneOnce(s: seq<string>, x: string)
    requires Distinct(s)
    ensures x !in Remove(s, x)
  {
    if x in s {
      RemoveCounts(s, x);
    } else {
      RemoveAbsent(s, x);
    }
  }

  lemma {:induction false} RemoveAbsent(s: seq<string>, x: string)
    requires x !in s
    ensures Remove(s, x) == s
  {
    if s != [] {
      RemoveAbsent(s[1..], x);
    }
  }

  lemma {:induction false} JoinPrefix(parts: seq<string>, k: nat)
    requires 0 < k <= |parts|
    ensures Join(parts[..k]) <= Join(parts)
  {
    if k == |parts| {
      assert parts[..k] == parts;
    } else if k == 1 {
      assert parts[..1] == [parts[0]];
    } else {
      assert parts[..k][1..] == parts[1..][..k - 1] && parts[..k][0] == parts[0];
      JoinPrefix(parts[1..], k - 1);
      PrefixAfter(parts[0] + "/", Join(parts[1..][..k - 1]), Join(parts[1..]));
    }
  }

  lemma PrefixAfter(head: string, a: string, b: string)
    requires a <= b
    ensures head + a <= head + b
  {
    assert b == a + b[|a|..];
    assert head + b == (head + a) + b[|a|..];
  }

  lemma RenameIsAbove(addition: string, removal: string)
    ensures RenameOf(addition, removal).dir <= addition
  {
    var parts := Split(addition);
    var k := DiffIndex(parts, Split(removal));
    JoinSplits(addition);
    if k + 1 <= |parts| {
      JoinPrefix(parts, k + 1);
    }
  }

  /** Where an addition stands in a list without repetition. */
  lemma OnlyAt(s: seq<string>, k: nat)
    requires Distinct(s) && k < |s|
    ensures s[k] !in s[..k] && s[k] !in s[k + 1..]
  {
  }

  /** Exactly one removal is like the addition at `k`, and it is reported as an addition all the same: exactly
      when it was still there at its turn, its turn made a directory rename, and no rename absorbed it. Then
      the path it replaces under that rename is no longer, or never was, a removal. */
  lemma StaysAddedIff(lists: Lists, k: nat)
    requires Apart(lists) && k < |lists.added| && |Alike(lists.removed, Translate(lists.added[k]))| == 1
    ensures var p, before, s := lists.added[k], Before(lists, k), Found(lists);
            var r := RenameOf(p, Alike(lists.removed, Translate(p))[0]);
            && (p in s.added <==> p in before.added && IsRename(before, lists, r) && p !in Gained(s.l.absorbed))
            && (p in s.added ==> r in s.l.renames && Replace(p, r.dir, r.was) !in s.removed)
  {
    var p, before, s := lists.added[k], Before(lists, k), Found(lists);
    var r := RenameOf(p, Alike(lists.removed, Translate(p))[0]);
    var turn := Consider(before, lists, p);
    FoundFrom(lists, k);
    OnlyAt(lists.added, k);
    PrefixInOrder(lists, k);
    FoundInOrder(lists);
    ConsiderShrinks(before, lists, p);
    SearchShrinks(turn, lists, lists.added[k + 1..]);
    NothingIsLost(s.l, Sides(lists.added, lists.removed, s.added, s.removed), lists.before, p);
    if p in s.added {
      if !IsRename(before, lists, r) {
        GoneOnce(before.added, p);
      }
      RenameIsAbove(p, Alike(lists.removed, Translate(p))[0]);
      LeftBehind(WithRename(before, r), r, before.added, p);
      AbsorbingKeeps(WithRename(before, r), r, before.added);
      RenamesStay(turn, lists, lists.added[k + 1..], r);
    } else if IsRename(before, lists, r) {
      MovesAreConsidered(Begun(lists), lists, lists.added[..k], p);
      NoMoveTo(before, lists, p, p);
      MovesAreConsidered(turn, lists, lists.added[k + 1..], p);
    }
  }

  lemma PrefixInOrder(lists: Lists, k: nat)
    requires Apart(lists) && k < |lists.added|
    ensures InOrder(lists, Before(lists, k))
  {
    BegunInOrder(lists);
    ConsiderAllInOrder(lists, Begun(lists), lists.added[..k]);
  }

  lemma {:induction false} RenamesStay(s: Search, lists: Lists, xs: seq<string>, r: Rename)
    requires r in s.l.renames
    ensures r in ConsiderAll(s, lists, xs).l.renames
    decreases |xs|
  {
    if xs != [] {
      var alike := Alike(lists.removed, Translate(xs[0]));
      if xs[0] in s.added && |alike| == 1 {
        var q := RenameOf(xs[0], alike[0]);
        AbsorbingKeeps(WithRename(s, q), q, s.added);
      }
      RenamesStay(Consider(s, lists, xs[0]), lists, xs[1..], r);
    }
  }

  // ---- a false rename --------------------------------------------------------------------

  /** A directory `d` with one file `da`, beside which a directory `n` with one file `na` appears. */
  lemma AppearingLists(d: string, da: string, n: string, na: string, e: Entry)
    requires Distinct([d, da, n, na]) && e.mode != "" && (e.mode[0] == 'l' ==> e.target.Some?)
    ensures var a, b := [Item(d, e), Item(da, e)], [Item(d, e), Item(n, e), Item(na, e)];
            && Proper(a) && Proper(b) && Paths(a) == [d, da] && Paths(b) == [d, n, na]
            && ListsOf(a, b) == Lists([n, na], [da], [d, da], [n, na])
  {
    var x, xa, y, ya := Item(d, e), Item(da, e), Item(n, e), Item(na, e);
    var all := [d, da, n, na];
    assert all[0] == d && all[1] == da && all[2] == n && all[3] == na;
    PathsOf2(x, xa);
    PathsOf3(x, y, ya);
    WithoutOf2(x, xa, [d, n, na]);
    WithoutOf3(x, y, ya, [d, da]);
    PathsOf2(y, ya);
    PathsOf1(xa);
  }

  lemma PathsOf1(x: Item)
    ensures Paths([x]) == [x.path]
  {
    PathsCons(x, [], "");
    assert [x] + [] == [x];
  }

  lemma PathsOf2(x: Item, y: Item)
    ensures Paths([x, y]) == [x.path, y.path]
  {
    PathsOf1(y);
    PathsCons(x, [y], "");
    assert [x] + [y] == [x, y];
  }

  lemma PathsOf3(x: Item, y: Item, z: Item)
    ensures Paths([x, y, z]) == [x.path, y.path, z.path]
  {
    PathsOf2(y, z);
    PathsCons(x, [y, z], "");
    assert [x] + [y, z] == [x, y, z];
  }

  lemma WithoutOf1(x: Item, others: seq<string>)
    ensures Without([x], others) == if x.path in others then [] else [x]
  {
    WithoutCons(x, [], others);
    assert [x] + [] == [x];
  }

  lemma WithoutOf2(x: Item, y: Item, others: seq<string>)
    ensures Without([x, y], others) == (if x.path in others then [] else [x]) + if y.path in others then [] else [y]
  {
    WithoutOf1(y, others);
    WithoutCons(x, [y], others);
    assert [x] + [y] == [x, y];
  }

  lemma WithoutOf3(x: Item, y: Item, z: Item, others: seq<string>)
    requires x.path in others && y.path !in others && z.path !in others
    ensures Without([x, y, z], others) == [y, z]
  {
    WithoutOf2(y, z, others);
    WithoutCons(x, [y, z], others);
    assert [x] + [y, z] == [x, y, z];
  }

  /** What such lists must be like for the search to take `d` to be renamed to `n`. */
  predicate LooksRenamed(d: string, da: string, n: string, na: string) {
    && Distinct([d, da, n, na]) && n <= na
    && Translate(n) != Translate(da) && Translate(na) == Translate(da) && RenameOf(na, da) == Rename(n, d)
    && Replace(n, n, d) != da && Replace(na, n, d) == da
  }

  lemma AllDiffer(d: string, da: string, n: string, na: string)
    requires Distinct([d, da, n, na])
    ensures d != da && d != n && d != na && da != n && da != na && n != na
  {
    var all := [d, da, n, na];
    assert all[0] == d && all[1] == da && all[2] == n && all[3] == na;
  }

  lemma FirstTurn(d: string, da: string, n: string, na: string)
    requires LooksRenamed(d, da, n, na)
    ensures var lists := Lists([n, na], [da], [d, da], [n, na]); Consider(Begun(lists), lists, n) == Begun(lists)
  {
    AlikeOne(da, Translate(n));
  }

  lemma SecondTurn(d: string, da: string, n: string, na: string)
    requires LooksRenamed(d, da, n, na)
    ensures var lists, r := Lists([n, na], [da], [d, da], [n, na]), Rename(n, d);
            Consider(Begun(lists), lists, na) == AbsorbAll(Search(Ledger([], [r], [], []), [n, na], [da]), r, [n, na])
  {
    AllDiffer(d, da, n, na);
    AlikeOne(da, Translate(na));
    var lists, r := Lists([n, na], [da], [d, da], [n, na]), Rename(n, d);
    assert na in Begun(lists).added && Begun(lists).added == [n, na] by {
      assert [n, na][1] == na;
    }
    TellsRename(d, da, n, na);
    assert [] + [r] == [r];
  }

  lemma TellsRename(d: string, da: string, n: string, na: string)
    requires LooksRenamed(d, da, n, na)
    ensures var lists := Lists([n, na], [da], [d, da], [n, na]); IsRename(Begun(lists), lists, Rename(n, d))
  {
    AllDiffer(d, da, n, na);
  }

  lemma BothAbsorbed(d: string, da: string, n: string, na: string)
    requires LooksRenamed(d, da, n, na)
    ensures var r := Rename(n, d);
            AbsorbAll(Search(Ledger([], [r], [], []), [n, na], [da]), r, [n, na]) ==
            Search(Ledger([], [r], [Absorbed(na, da, r)], []), [n], [])
  {
    AllDiffer(d, da, n, na);
    var r := Rename(n, d);
    var s := Search(Ledger([], [r], [], []), [n, na], [da]);
    assert AbsorbOne(s, r, n) == s;
    RemoveSecond(n, na);
    RemoveSecond(n, da);
    assert [] + [Absorbed(na, da, r)] == [Absorbed(na, da, r)];
    TwoAbsorbed(s, r, n, na);
  }

  /** The search over such lists takes `d` to be renamed to `n`. */
  lemma AppearingSearch(d: string, da: string, n: string, na: string)
    requires LooksRenamed(d, da, n, na)
    ensures Found(Lists([n, na], [da], [d, da], [n, na])) ==
            Search(Ledger([], [Rename(n, d)], [Absorbed(na, da, Rename(n, d))], []), [n], [])
  {
    var lists := Lists([n, na], [da], [d, da], [n, na]);
    FirstTurn(d, da, n, na);
    SecondTurn(d, da, n, na);
    BothAbsorbed(d, da, n, na);
    TwoConsidered(Begun(lists), lists, n, na);
  }

  lemma TwoAbsorbed(s: Search, via: Rename, x: string, y: string)
    ensures AbsorbAll(s, via, [x, y]) == AbsorbOne(AbsorbOne(s, via, x), via, y)
  {
    assert [x, y][1..] == [y] && [y][1..] == [];
    var t := AbsorbOne(s, via, x);
    assert AbsorbAll(t, via, [y]) == AbsorbAll(AbsorbOne(t, via, y), via, []);
    assert AbsorbAll(s, via, [x, y]) == AbsorbAll(t, via, [y]);
  }

  lemma TwoConsidered(s: Search, lists: Lists, x: string, y: string)
    ensures ConsiderAll(s, lists, [x, y]) == Consider(Consider(s, lists, x), lists, y)
  {
    assert [x, y][1..] == [y] && [y][1..] == [];
    var t := Consider(s, lists, x);
    assert ConsiderAll(t, lists, [y]) == ConsiderAll(Consider(t, lists, y), lists, []);
    assert ConsiderAll(s, lists, [x, y]) == ConsiderAll(t, lists, [y]);
  }

  lemma RemoveSecond(x: string, y: string)
    requires x != y
    ensures Remove([x, y], y) == [x] && Remove([y], y) == []
  {
    assert [x, y][1..] == [y] && [y][1..] == [];
  }

  lemma AlikeOne(x: string, t: string)
    ensures Alike([x], t) == if Translate(x) == t then [x] else []
  {
    assert [x][..0] == [];
  }

  /** The texts of the example. */
  lemma ExampleTexts()
    ensures Translate("/2") == "/X" && Translate("/1/a") == "/X/a" && Translate("/2/a") == "/X/a"
    ensures Replace("/2", "/2", "/1") == "/1" && Replace("/2/a", "/2", "/1") == "/1/a"
  {
    TranslateStep("/2");
    TranslateStep("2");
    TranslateStep("/1/a");
    TranslateStep("1/a");
    TranslateStep("/a");
    TranslateStep("a");
    TranslateStep("/2/a");
    TranslateStep("2/a");
    assert "/2"[|"/2"|..] == "" && "/2/a"[2..] == "/a" && "/a"[1..] == "a" && "a"[1..] == "";
    assert Replace("a", "/2", "/1") == "a" && Replace("/a", "/2", "/1") == "/a" && Replace("", "/2", "/1") == "";
  }

  lemma TranslateStep(s: string)
    requires s != ""
    ensures Translate(s) == [Digitless(s[0])] + Translate(s[1..])
  {
  }

  lemma ExampleSplits()
    ensures Split("/2/a") == ["", "2", "a"] && Split("/1/a") == ["", "1", "a"]
    ensures RenameOf("/2/a", "/1/a") == Rename("/2", "/1")
  {
    SplitOf('2');
    SplitOf('1');
    assert "/2/a" == ['/', '2', '/', 'a'] && "/1/a" == ['/', '1', '/', 'a'];
    var p, q := ["", "2", "a"], ["", "1", "a"];
    assert p[1..] == ["2", "a"] && q[1..] == ["1", "a"];
    assert DiffIndex(p[1..], q[1..]) == 0 && DiffIndex(p, q) == 1;
    assert p[..2] == ["", "2"] && q[..2] == ["", "1"];
    JoinTwo("2");
    JoinTwo("1");
  }

  lemma JoinTwo(x: string)
    ensures Join(["", x]) == "/" + x
  {
    assert ["", x][1..] == [x];
  }

  lemma SplitChar(c: char, s: string)
    ensures Split([c] + s) == if c == '/' then [""] + Split(s) else [[c] + Split(s)[0]] + Split(s)[1..]
  {
    assert ([c] + s)[1..] == s;
  }

  lemma SplitOf(c: char)
    requires c != '/'
    ensures Split(['/', c, '/', 'a']) == ["", [c], "a"]
  {
    SplitChar('a', []);
    assert ['a'] + [] == ['a'] && ['a'] + "" == "a" && Split([]) == [""];
    SplitChar('/', ['a']);
    assert ['/'] + ['a'] == ['/', 'a'] && Split(['/', 'a']) == ["", "a"];
    SplitChar(c, ['/', 'a']);
    assert [c] + ['/', 'a'] == [c, '/', 'a'] && [c] + "" == [c] && ["", "a"][1..] == ["a"];
    SplitChar('/', [c, '/', 'a']);
    assert ['/'] + [c, '/', 'a'] == ['/', c, '/', 'a'];
  }

  const PLAIN := Entry("-rw", "root", "root", None)

  /** /1 with /1/a before, and /2 with /2/a beside it after: /1 is reported as moved to /2, with /1 in both
      lists. */
  lemma FalseRename()
    ensures var a, b := [Item("/1", PLAIN), Item("/1/a", PLAIN)],
                        [Item("/1", PLAIN), Item("/2", PLAIN), Item("/2/a", PLAIN)];
            && Proper(a) && Proper(b) && "/1" in Paths(a) && "/1" in Paths(b)
            && Moved("/1", "/2") in Comparison(a, b, true)
  {
    assert "/1"[1] == '1' && "/2"[1] == '2' && "/1/a"[1] == '1' && "/2/a"[1] == '2';
    var all := ["/1", "/1/a", "/2", "/2/a"];
    assert Distinct(all);
    AppearingLists("/1", "/1/a", "/2", "/2/a", PLAIN);
    ExampleTexts();
    ExampleSplits();
    assert "/2/a"[..2] == "/2";
    AppearingSearch("/1", "/1/a", "/2", "/2/a");
    var a, b := [Item("/1", PLAIN), Item("/1/a", PLAIN)], [Item("/1", PLAIN), Item("/2", PLAIN), Item("/2/a", PLAIN)];
    assert Found(ListsOf(a, b)).l.renames == [Rename("/2", "/1")];
    assert Rename("/2", "/1") in Found(ListsOf(a, b)).l.renames;
    RenameReported(a, b, true, Rename("/2", "/1"));
  }
}
