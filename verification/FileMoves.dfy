/** buildhistory_analysis.py: `compare_file_lists`, which reports renamed trees and similar names as moves
    instead of additions and removals. */
module FileMoves {
  import opened Wrappers

  /** A file list entry: mode, owner, group and, for a symbolic link, its target. */
  datatype Entry = Entry(mode: string, owner: string, group: string, target: Option<string>)

  datatype Item = Item(path: string, entry: Entry)

  datatype FileChange =
    | Added(path: string)
    | Removed(path: string)
    | Moved(path: string, to: string)
    | Type(path: string, before: char, after: char)
    | Perms(path: string, was: string, now: string)
    | OwnerGroup(path: string, whose: string, whom: string)
    | LinkTarget(path: string, pointed: Option<string>, points: string)

  // ---- paths as texts ------------------------------------------------------------------

  function Digitless(c: char): char {
    if '0' <= c <= '9' then 'X' else c
  }

  /** `path.translate(numeric_removal)`. */
  function Translate(s: string): (r: string)
    ensures |r| == |s| && forall i | 0 <= i < |s| :: r[i] == Digitless(s[i])
  {
    if s == "" then "" else [Digitless(s[0])] + Translate(s[1..])
  }

  /** `s.split("/")`. */
  function Split(s: string): (parts: seq<string>)
    ensures parts != []
  {
    if s == "" then [""]
    else
      var rest := Split(s[1..]);
      if s[0] == '/' then [""] + rest else [[s[0]] + rest[0]] + rest[1..]
  }

  /** `"/".join(parts)`. */
  function Join(parts: seq<string>): string {
    if parts == [] then "" else if |parts| == 1 then parts[0] else parts[0] + "/" + Join(parts[1..])
  }

  /** `s.replace(x, y)`. */
  function Replace(s: string, x: string, y: string): string
    decreases |s|
  {
    if s == "" || x == "" then s
    else if x <= s then y + Replace(s[|x|..], x, y)
    else [s[0]] + Replace(s[1..], x, y)
  }

  /** `x` stands at place `i` of the text and nowhere before. */
  predicate FirstOf(s: string, x: string, i: nat) {
    i + |x| <= |s| && x <= s[i..] && forall j | 0 <= j < i :: !(x <= s[j..])
  }

  lemma LaterOf(s: string, x: string, i: nat)
    requires FirstOf(s, x, i) && i > 0
    ensures FirstOf(s[1..], x, i - 1) && !(x <= s)
  {
    assert s[0..] == s && s[1..][i - 1..] == s[i..];
    assert forall j | 0 <= j < i - 1 :: s[1..][j..] == s[j + 1..];
  }

  lemma Rejoin(s: string, y: string, rest: string, i: nat, n: nat)
    requires 0 < i && i + n <= |s|
    ensures [s[0]] + (s[1..][..i - 1] + y + rest) == s[..i] + y + rest && s[1..][i - 1 + n..] == s[i + n..]
  {
    assert s[..i] == [s[0]] + s[1..][..i - 1];
    Regroup([s[0]], s[1..][..i - 1], y);
    Regroup([s[0]], s[1..][..i - 1] + y, rest);
  }

  lemma ReplaceHere(s: string, x: string, y: string)
    requires x != "" && x <= s
    ensures Replace(s, x, y) == y + Replace(s[|x|..], x, y)
  {
  }

  lemma ReplaceLater(s: string, x: string, y: string)
    requires s != "" && !(x <= s)
    ensures Replace(s, x, y) == [s[0]] + Replace(s[1..], x, y)
  {
  }

  /** Replacing goes on behind the first occurrence, and a text without one stays. */
  lemma {:induction false} ReplaceFirst(s: string, x: string, y: string, i: nat)
    requires x != "" && FirstOf(s, x, i)
    ensures Replace(s, x, y) == s[..i] + y + Replace(s[i + |x|..], x, y)
    decreases |s|
  {
    if i == 0 {
      assert s[0..] == s && s[..0] + y == y;
      ReplaceHere(s, x, y);
    } else {
      var t := s[1..];
      LaterOf(s, x, i);
      ReplaceFirst(t, x, y, i - 1);
      ReplaceStep(s, t, x, y, i);
    }
  }

  lemma ReplaceStep(s: string, t: string, x: string, y: string, i: nat)
    requires i > 0 && i + |x| <= |s| && !(x <= s) && t == s[1..]
    requires Replace(t, x, y) == t[..i - 1] + y + Replace(t[i - 1 + |x|..], x, y)
    ensures Replace(s, x, y) == s[..i] + y + Replace(s[i + |x|..], x, y)
  {
    ReplaceLater(s, x, y);
    Rejoin(s, y, Replace(t[i - 1 + |x|..], x, y), i, |x|);
  }

  lemma {:induction false} ReplaceNone(s: string, x: string, y: string)
    requires x == "" || forall j | 0 <= j <= |s| :: !(x <= s[j..])
    ensures Replace(s, x, y) == s
    decreases |s|
  {
    if s != "" && x != "" {
      assert s[0..] == s;
      assert forall j | 0 <= j <= |s| - 1 :: s[1..][j..] == s[j + 1..];
      ReplaceNone(s[1..], x, y);
    }
  }

  /** Only the ten digits are made alike. */
  lemma DigitlessIs(c: char)
    ensures Digitless(c) == if c in DIGITS then 'X' else c
  {
    TenDigits(c);
  }

  // ---- lists ---------------------------------------------------------------------------

  /** `s.remove(x)`: the first occurrence goes. */
  function Remove<T(==)>(s: seq<T>, x: T): seq<T> {
    if s == [] then [] else if s[0] == x then s[1..] else [s[0]] + Remove(s[1..], x)
  }

  lemma {:induction false} RemoveCounts<T>(s: seq<T>, x: T)
    requires x in s
    ensures multiset(s) == multiset(Remove(s, x)) + multiset{x}
    ensures Distinct(s) ==> Distinct(Remove(s, x)) && forall y :: y in Remove(s, x) <==> y in s && y != x
  {
    assert s == [s[0]] + s[1..];
    DistinctTail(s[0], s[1..]);
    if s[0] != x {
      RemoveCounts(s[1..], x);
      DistinctTail(s[0], Remove(s[1..], x));
    }
  }

  function Paths(items: seq<Item>): (ps: seq<string>)
    ensures |ps| == |items| && forall i | 0 <= i < |items| :: ps[i] == items[i].path
  {
    if items == [] then [] else [items[0].path] + Paths(items[1..])
  }

  function Lookup(items: seq<Item>, path: string): Option<Entry> {
    if items == [] then None else if items[0].path == path then Some(items[0].entry) else Lookup(items[1..], path)
  }

  /** The items whose path is not in `others`, in order. */
  function Without(items: seq<Item>, others: seq<string>): seq<Item> {
    if items == [] then []
    else (if items[0].path in others then [] else [items[0]]) + Without(items[1..], others)
  }

  // ---- paths in both lists -------------------------------------------------------------

  predicate Proper(items: seq<Item>) {
    && Distinct(Paths(items))
    && forall i | 0 <= i < |items| :: items[i].entry.mode != "" && (items[i].entry.mode[0] == 'l' ==> items[i].entry.target.Some?)
  }

  /** What is reported about a path that both lists have. */
  function EntryChanges(path: string, a: Entry, b: Entry, compareOwnership: bool): seq<FileChange>
    requires a.mode != "" && b.mode != "" && (b.mode[0] == 'l' ==> b.target.Some?)
  {
    (if a.mode[0] != b.mode[0] then [Type(path, a.mode[0], b.mode[0])] else []) +
    (if a.mode[1..] != b.mode[1..] then [Perms(path, a.mode[1..], b.mode[1..])] else []) +
    (if compareOwnership && a.owner + "/" + a.group != b.owner + "/" + b.group
     then [OwnerGroup(path, a.owner + "/" + a.group, b.owner + "/" + b.group)] else []) +
    (if b.mode[0] == 'l' && a.target != b.target then [LinkTarget(path, a.target, b.target.value)] else [])
  }

  // ---- the search for moves ------------------------------------------------------------

  datatype Move = Move(source: string, target: string)

  /** A directory rename, under the new name first as in the script's dictionary. */
  datatype Rename = Rename(dir: string, was: string)

  /** An addition that a directory rename accounts for, with the removal it replaces. */
  datatype Absorbed = Absorbed(target: string, source: string, rename: Rename)

  /** The books of the search: reported moves, directory renames, what the renames absorbed, and the
      removals that moves took off the list. */
  datatype Ledger = Ledger(moves: seq<Move>, renames: seq<Rename>, absorbed: seq<Absorbed>, freed: seq<string>)

  /** The search under way: its books, and what is left of the additions and the removals. */
  datatype Search = Search(l: Ledger, added: seq<string>, removed: seq<string>)

  /** What the search looks things up in: the paths only new, those only old, all old ones, and those it takes to
      be still there. */
  datatype Lists = Lists(added: seq<string>, removed: seq<string>, before: seq<string>, standing: seq<string>)

  function WithMove(l: Ledger, m: Move, freed: bool): Ledger {
    l.(moves := l.moves + [m], freed := l.freed + if freed then [m.source] else [])
  }

  function RemoveIfThere(s: seq<string>, x: string): seq<string> {
    if x in s then Remove(s, x) else s
  }

  /** The removals that look like `t` up to digits. */
  function Alike(removals: seq<string>, t: string): seq<string> {
    if removals == [] then []
    else
      var n := |removals| - 1;
      Alike(removals[..n], t) + if Translate(removals[n]) == t then [removals[n]] else []
  }

  /** The index at which two component lists first differ. */
  function DiffIndex(p: seq<string>, q: seq<string>): nat {
    if p == [] || q == [] || p[0] != q[0] then 0 else 1 + DiffIndex(p[1..], q[1..])
  }

  function UpTo(parts: seq<string>, k: nat): seq<string> {
    if k + 1 <= |parts| then parts[..k + 1] else parts
  }

  /** The directories of an addition and a removal, each up to the first difference. */
  function RenameOf(addition: string, removal: string): Rename {
    var k := DiffIndex(Split(addition), Split(removal));
    Rename(Join(UpTo(Split(addition), k)), Join(UpTo(Split(removal), k)))
  }

  predicate HasDir(renames: seq<Rename>, dir: string) {
    exists k | 0 <= k < |renames| :: renames[k].dir == dir
  }

  /** Whether the pair is taken for the rename of a directory. */
  predicate IsRename(s: Search, lists: Lists, r: Rename) {
    r.was !in lists.standing && r.dir !in lists.before && !HasDir(s.l.renames, r.dir)
  }

  /** One addition under a rename: with the removal it replaces it leaves both lists. */
  function AbsorbOne(s: Search, via: Rename, addition: string): Search {
    var removal := Replace(addition, via.dir, via.was);
    if via.dir <= addition && removal in s.removed then
      Search(s.l.(absorbed := s.l.absorbed + [Absorbed(addition, removal, via)]),
             Remove(s.added, addition), Remove(s.removed, removal))
    else s
  }

  function AbsorbAll(s: Search, via: Rename, additions: seq<string>): Search
    decreases |additions|
  {
    if additions == [] then s else AbsorbAll(AbsorbOne(s, via, additions[0]), via, additions[1..])
  }

  function WithRename(s: Search, r: Rename): Search {
    s.(l := s.l.(renames := s.l.renames + [r]))
  }

  function MoveAway(s: Search, removal: string, addition: string): Search {
    Search(WithMove(s.l, Move(removal, addition), removal in s.removed),
           Remove(s.added, addition), RemoveIfThere(s.removed, removal))
  }

  /** The search considers one addition. */
  function Consider(s: Search, lists: Lists, addition: string): Search {
    var alike := Alike(lists.removed, Translate(addition));
    if addition !in s.added || |alike| != 1 then s
    else
      var r := RenameOf(addition, alike[0]);
      if IsRename(s, lists, r) then AbsorbAll(WithRename(s, r), r, s.added)
      else MoveAway(s, alike[0], addition)
  }

  function ConsiderAll(s: Search, lists: Lists, additions: seq<string>): Search
    decreases |additions|
  {
    if additions == [] then s else ConsiderAll(Consider(s, lists, additions[0]), lists, additions[1..])
  }

  function Begun(lists: Lists): Search {
    Search(Ledger([], [], [], []), lists.added, lists.removed)
  }

  /** The whole search. */
  function Found(lists: Lists): Search {
    ConsiderAll(Begun(lists), lists, lists.added)
  }

  function MoveChanges(ms: seq<Move>): seq<FileChange> {
    if ms == [] then [] else MoveChanges(ms[..|ms| - 1]) + [Moved(ms[|ms| - 1].source, ms[|ms| - 1].target)]
  }

  function RenameChanges(rs: seq<Rename>): seq<FileChange> {
    if rs == [] then [] else RenameChanges(rs[..|rs| - 1]) + [Moved(rs[|rs| - 1].was, rs[|rs| - 1].dir)]
  }

  function AddedChanges(ps: seq<string>): seq<FileChange> {
    if ps == [] then [] else AddedChanges(ps[..|ps| - 1]) + [Added(ps[|ps| - 1])]
  }

  function RemovedChanges(ps: seq<string>): seq<FileChange> {
    if ps == [] then [] else RemovedChanges(ps[..|ps| - 1]) + [Removed(ps[|ps| - 1])]
  }

  /** What is reported about a search: moves, directory renames, additions, removals. */
  function SearchChanges(s: Search): seq<FileChange> {
    MoveChanges(s.l.moves) + RenameChanges(s.l.renames) + AddedChanges(s.added) + RemovedChanges(s.removed)
  }

  // ---- components ----------------------------------------------------------------------

  lemma FirstGrows(c: char, rest: seq<string>, rest': seq<string>)
    requires |rest| == |rest'| > 0 && forall k | 0 <= k < |rest| :: rest'[k] == Translate(rest[k])
    ensures var all, all' := [[c] + rest[0]] + rest[1..], [[Digitless(c)] + rest'[0]] + rest'[1..];
            |all| == |all'| && forall k | 0 <= k < |all| :: all'[k] == Translate(all[k])
  {
    assert ([c] + rest[0])[1..] == rest[0];
  }

  lemma {:induction false} SplitTranslates(s: string)
    ensures |Split(Translate(s))| == |Split(s)|
    ensures forall k | 0 <= k < |Split(s)| :: Split(Translate(s))[k] == Translate(Split(s)[k])
  {
    if s != "" {
      SplitTranslates(s[1..]);
      assert Translate(s)[1..] == Translate(s[1..]);
      if s[0] != '/' {
        assert Digitless(s[0]) != '/';
        FirstGrows(s[0], Split(s[1..]), Split(Translate(s[1..])));
      }
    }
  }

  lemma {:induction false} JoinSplits(s: string)
    ensures Join(Split(s)) == s
  {
    if s != "" {
      JoinSplits(s[1..]);
      var rest := Split(s[1..]);
      if s[0] == '/' {
        assert ([""] + rest)[1..] == rest;
      } else {
        assert Split(s)[1..] == rest[1..];
        if |rest| == 1 {
          assert Join(rest) == rest[0];
        }
      }
      assert s == [s[0]] + s[1..];
    }
  }

  /** Two different paths that agree up to digits have equally many components, and some component differs. */
  lemma SomeComponentDiffers(a: string, d: string)
    requires Translate(a) == Translate(d) && a != d
    ensures |Split(a)| == |Split(d)| && exists k | 0 <= k < |Split(a)| :: Split(a)[k] != Split(d)[k]
  {
    SplitTranslates(a);
    SplitTranslates(d);
    if forall k | 0 <= k < |Split(a)| :: Split(a)[k] == Split(d)[k] {
      assert Split(a) == Split(d);
      JoinSplits(a);
      JoinSplits(d);
    }
  }

  /** The loop over the components: the index of the first difference, which is always in range. */
  method FirstDifference(a: string, d: string) returns (i: nat)
    requires Translate(a) == Translate(d) && a != d
    ensures i < |Split(a)| == |Split(d)| && Split(a)[i] != Split(d)[i] && Split(a)[..i] == Split(d)[..i]
    ensures i == DiffIndex(Split(a), Split(d))
  {
    SomeComponentDiffers(a, d);
    var p, q := Split(a), Split(d);
    i := 0;
    while p[i] == q[i]
      invariant i < |p| && p[..i] == q[..i]
      invariant exists k | i <= k < |p| :: p[k] != q[k]
      decreases |p| - i
    {
      i := i + 1;
    }
    DiffIndexDiffers(p, q);
    SameFirst(p, q, i, DiffIndex(p, q));
  }

  /** There is only one first difference. */
  lemma SameFirst(p: seq<string>, q: seq<string>, i: nat, j: nat)
    requires i < |p| == |q| && p[i] != q[i] && p[..i] == q[..i]
    requires j < |p| && p[j] != q[j] && p[..j] == q[..j]
    ensures i == j
  {
    assert forall k | 0 <= k < i :: p[..i][k] == q[..i][k];
    assert forall k | 0 <= k < j :: p[..j][k] == q[..j][k];
  }

  lemma {:induction false} DiffIndexDiffers(p: seq<string>, q: seq<string>)
    requires |p| == |q| && exists k | 0 <= k < |p| :: p[k] != q[k]
    ensures var i := DiffIndex(p, q); i < |p| && p[i] != q[i] && p[..i] == q[..i]
  {
    if p[0] == q[0] {
      var k :| 0 <= k < |p| && p[k] != q[k];
      assert p[1..][k - 1] != q[1..][k - 1];
      DiffIndexDiffers(p[1..], q[1..]);
      var i := DiffIndex(p[1..], q[1..]);
      assert p[..i + 1] == [p[0]] + p[1..][..i] && q[..i + 1] == [q[0]] + q[1..][..i];
    }
  }

  // ---- how it is searched --------------------------------------------------------------

  lemma {:induction false} AlikeMembers(removals: seq<string>, t: string, x: string)
    requires x in Alike(removals, t)
    ensures x in removals && Translate(x) == t
  {
    var n := |removals| - 1;
    if x in Alike(removals[..n], t) {
      AlikeMembers(removals[..n], t, x);
    }
  }

  function Under(revmap: map<string, seq<string>>, t: string): seq<string> {
    if t in revmap then revmap[t] else []
  }

  lemma AlikeNext(removals: seq<string>, i: nat, t: string)
    requires i < |removals|
    ensures Alike(removals[..i + 1], t) ==
            if Translate(removals[i]) == t then Alike(removals[..i], t) + [removals[i]] else Alike(removals[..i], t)
  {
    assert removals[..i + 1][..i] == removals[..i];
  }

  method ReverseMap(removals: seq<string>) returns (revmap: map<string, seq<string>>)
    ensures forall t :: Alike(removals, t) == if t in revmap then revmap[t] else []
  {
    revmap := map[];
    for i := 0 to |removals|
      invariant forall t :: Alike(removals[..i], t) == Under(revmap, t)
    {
      ghost var before := revmap;
      var translated := Translate(removals[i]);
      if translated !in revmap {
        revmap := revmap[translated := []];
      }
      revmap := revmap[translated := revmap[translated] + [removals[i]]];
      forall t ensures Alike(removals[..i + 1], t) == Under(revmap, t) {
        AlikeNext(removals, i, t);
        assert Alike(removals[..i], t) == Under(before, t);
      }
    }
    assert removals[..|removals|] == removals;
    forall t ensures Alike(removals, t) == Under(revmap, t) {
    }
  }

  /** The additions under a renamed directory whose counterpart was removed leave both lists. */
  method Absorb(via: Rename, added0: seq<string>, removed0: seq<string>, ghost s0: Search)
    returns (added: seq<string>, removed: seq<string>, ghost s: Search)
    requires s0.added == added0 && s0.removed == removed0
    ensures s == AbsorbAll(s0, via, added0) && s.added == added && s.removed == removed
  {
    added, removed, s := added0, removed0, s0;
    for j := 0 to |added0|
      invariant s.added == added && s.removed == removed
      invariant AbsorbAll(s, via, added0[j..]) == AbsorbAll(s0, via, added0)
    {
      assert added0[j..][0] == added0[j] && added0[j..][1..] == added0[j + 1..];
      s := AbsorbOne(s, via, added0[j]);
      var addition := added0[j];
      if via.dir <= addition {
        var removal := Replace(addition, via.dir, via.was);
        if removal in removed {
          added, removed := Remove(added, addition), Remove(removed, removal);
        }
      }
    }
  }

  /** One round of the outer loop. */
  method ConsiderAddition(lists: Lists, revmap: map<string, seq<string>>, addition: string, changes0: seq<FileChange>,
                          renames0: seq<Rename>, added0: seq<string>, removed0: seq<string>, ghost s0: Search)
    returns (changes: seq<FileChange>, renames: seq<Rename>, added: seq<string>, removed: seq<string>)
    requires forall t :: Alike(lists.removed, t) == if t in revmap then revmap[t] else []
    requires addition in lists.added && forall p | p in lists.removed :: p !in lists.added
    requires s0.added == added0 && s0.removed == removed0 && s0.l.renames == renames0 && changes0 == MoveChanges(s0.l.moves)
    ensures var s := Consider(s0, lists, addition);
            s.added == added && s.removed == removed && s.l.renames == renames && changes == MoveChanges(s.l.moves)
  {
    changes, renames, added, removed := changes0, renames0, added0, removed0;
    if addition !in added {
      return;
    }
    var translated := Translate(addition);
    if translated !in revmap || |revmap[translated]| != 1 {
      assert Alike(lists.removed, translated) == Under(revmap, translated);
      return;
    }
    var removal := revmap[translated][0];
    assert removal in Alike(lists.removed, translated);
    AlikeMembers(lists.removed, translated, removal);
    var i := FirstDifference(addition, removal);
    var r := Rename(Join(Split(addition)[..i + 1]), Join(Split(removal)[..i + 1]));
    assert r == RenameOf(addition, removal);
    if r.was !in lists.standing && r.dir !in lists.before {
      if !HasDir(renames, r.dir) {
        renames := renames + [r];
        ghost var s;
        added, removed, s := Absorb(r, added, removed, WithRename(s0, r));
        AbsorbingKeeps(WithRename(s0, r), r, added0);
        return;
      }
    }
    changes := changes + [Moved(removal, addition)];
    MoveListedLast(s0.l.moves, Move(removal, addition));
    added := Remove(added, addition);
    removed := if removal in removed then Remove(removed, removal) else removed;
  }

  lemma MoveListedLast(ms: seq<Move>, m: Move)
    ensures MoveChanges(ms + [m]) == MoveChanges(ms) + [Moved(m.source, m.target)]
  {
    assert (ms + [m])[..|ms|] == ms;
  }

  /** Absorbing adds to the absorbed pairs only. */
  lemma {:induction false} AbsorbingKeeps(s: Search, via: Rename, additions: seq<string>)
    ensures var t := AbsorbAll(s, via, additions);
            t.l.moves == s.l.moves && t.l.renames == s.l.renames && t.l.freed == s.l.freed && s.l.absorbed <= t.l.absorbed
    decreases |additions|
  {
    if additions != [] {
      AbsorbingKeeps(AbsorbOne(s, via, additions[0]), via, additions[1..]);
    }
  }

  /** Everything after the comparison of the common paths. */
  method DetectMoves(lists: Lists) returns (changes: seq<FileChange>)
    requires forall p | p in lists.removed :: p !in lists.added
    ensures changes == SearchChanges(Found(lists))
  {
    var revmap := ReverseMap(lists.removed);
    var added, removed, renames: seq<Rename> := lists.added, lists.removed, [];
    changes := [];
    ghost var s := Begun(lists);
    for i := 0 to |lists.added|
      invariant s.added == added && s.removed == removed && s.l.renames == renames && changes == MoveChanges(s.l.moves)
      invariant ConsiderAll(s, lists, lists.added[i..]) == Found(lists)
    {
      assert lists.added[i..][0] == lists.added[i] && lists.added[i..][1..] == lists.added[i + 1..];
      changes, renames, added, removed :=
        ConsiderAddition(lists, revmap, lists.added[i], changes, renames, added, removed, s);
      s := Consider(s, lists, lists.added[i]);
    }
    assert lists.added[|lists.added|..] == [];
    changes := ReportRest(changes, renames, added, removed);
  }

  method ReportRest(changes0: seq<FileChange>, renames: seq<Rename>, added: seq<string>, removed: seq<string>) returns (changes: seq<FileChange>)
    ensures changes == changes0 + RenameChanges(renames) + AddedChanges(added) + RemovedChanges(removed)
  {
    changes := changes0;
    for i := 0 to |renames|
      invariant changes == changes0 + RenameChanges(renames[..i])
    {
      assert renames[..i + 1][..i] == renames[..i];
      changes := changes + [Moved(renames[i].was, renames[i].dir)];
    }
    assert renames[..|renames|] == renames;
    ghost var c1 := changes;
    for i := 0 to |added|
      invariant changes == c1 + AddedChanges(added[..i])
    {
      assert added[..i + 1][..i] == added[..i];
      changes := changes + [Added(added[i])];
    }
    assert added[..|added|] == added;
    ghost var c2 := changes;
    for i := 0 to |removed|
      invariant changes == c2 + RemovedChanges(removed[..i])
    {
      assert removed[..i + 1][..i] == removed[..i];
      changes := changes + [Removed(removed[i])];
    }
    assert removed[..|removed|] == removed;
  }

  // ---- the whole comparison ------------------------------------------------------------

  function CommonChanges(a: seq<Item>, b: seq<Item>, compareOwnership: bool): seq<FileChange>
    requires Proper(a) && Proper(b)
  {
    if a == [] then []
    else
      var n := |a| - 1;
      ProperPrefix(a);
      LookupProper(b, a[n].path);
      var found := Lookup(b, a[n].path);
      CommonChanges(a[..n], b, compareOwnership) +
      if found.Some? then EntryChanges(a[n].path, a[n].entry, found.value, compareOwnership) else []
  }

  lemma ProperPrefix(a: seq<Item>)
    requires Proper(a) && a != []
    ensures Proper(a[..|a| - 1])
  {
    assert forall i | 0 <= i < |a| - 1 :: Paths(a[..|a| - 1])[i] == Paths(a)[i];
  }

  lemma {:induction false} LookupProper(b: seq<Item>, path: string)
    ensures Lookup(b, path).Some? <==> path in Paths(b)
    ensures Lookup(b, path).Some? ==> exists i | 0 <= i < |b| :: b[i].entry == Lookup(b, path).value && b[i].path == path
  {
    if b != [] && b[0].path != path {
      LookupProper(b[1..], path);
      assert forall i | 1 <= i < |b| :: b[i] == b[1..][i - 1];
      assert Paths(b) == [b[0].path] + Paths(b[1..]);
    }
  }

  lemma PathsCons(x: Item, rest: seq<Item>, p: string)
    ensures p in Paths([x] + rest) <==> p == x.path || p in Paths(rest)
    ensures Paths([x] + rest) == [x.path] + Paths(rest)
  {
    assert ([x] + rest)[1..] == rest;
  }

  lemma {:induction false} WithoutMembers(items: seq<Item>, others: seq<string>, p: string)
    ensures p in Paths(Without(items, others)) <==> p in Paths(items) && p !in others
  {
    if items != [] {
      var x, tail := items[0], items[1..];
      assert items == [x] + tail;
      WithoutMembers(tail, others, p);
      PathsCons(x, tail, p);
      if x.path in others {
        assert Without(items, others) == Without(tail, others);
      } else {
        PathsCons(x, Without(tail, others), p);
        assert Without(items, others) == [x] + Without(tail, others);
      }
    }
  }

  lemma {:induction false} WithoutDistinct(items: seq<Item>, others: seq<string>)
    requires Distinct(Paths(items))
    ensures Distinct(Paths(Without(items, others)))
  {
    if items != [] {
      DistinctTail(items[0].path, Paths(items[1..]));
      WithoutDistinct(items[1..], others);
      var rest := Without(items[1..], others);
      if items[0].path !in others {
        WithoutMembers(items[1..], others, items[0].path);
        DistinctTail(items[0].path, Paths(rest));
        assert Paths([items[0]] + rest) == [items[0].path] + Paths(rest);
      }
    }
  }

  lemma WithoutCons(x: Item, rest: seq<Item>, others: seq<string>)
    ensures Without([x] + rest, others) == (if x.path in others then [] else [x]) + Without(rest, others)
  {
    assert ([x] + rest)[1..] == rest;
  }

  lemma {:induction false} WithoutMore(items: seq<Item>, others: seq<string>, p: string)
    ensures Without(Without(items, others), [p]) == Without(items, others + [p])
  {
    if items != [] {
      WithoutMore(items[1..], others, p);
      var rest := Without(items[1..], others);
      if items[0].path in others {
        assert Without(items, others) == rest;
      } else {
        WithoutCons(items[0], rest, [p]);
      }
    }
  }

  lemma {:induction false} LookupWithout(items: seq<Item>, others: seq<string>, p: string)
    requires p !in others
    ensures Lookup(Without(items, others), p) == Lookup(items, p)
  {
    if items != [] {
      LookupWithout(items[1..], others, p);
      var rest := Without(items[1..], others);
      if items[0].path in others {
        assert Without(items, others) == rest;
      } else {
        assert ([items[0]] + rest)[1..] == rest;
      }
    }
  }

  lemma {:induction false} WithoutNothing(items: seq<Item>)
    ensures Without(items, []) == items
  {
    if items != [] {
      WithoutNothing(items[1..]);
    }
  }

  lemma {:induction false} WithoutAppend(items: seq<Item>, x: Item, others: seq<string>)
    ensures Without(items + [x], others) == Without(items, others) + if x.path in others then [] else [x]
  {
    if items == [] {
      assert [] + [x] == [x] && [x][1..] == [];
    } else {
      assert (items + [x])[1..] == items[1..] + [x];
      WithoutAppend(items[1..], x, others);
    }
  }

  lemma PathsAppend(a: seq<Item>, x: Item)
    ensures Paths(a + [x]) == Paths(a) + [x.path]
  {
  }

  /** The loop over the old paths, which pops what it finds from the new ones. */
  method CompareCommon(a: seq<Item>, b: seq<Item>, compareOwnership: bool)
    returns (changes: seq<FileChange>, removals: seq<string>, left: seq<Item>)
    requires Proper(a) && Proper(b)
    ensures changes == CommonChanges(a, b, compareOwnership)
    ensures removals == Paths(Without(a, Paths(b))) && left == Without(b, Paths(a))
  {
    changes, removals, left := [], [], b;
    WithoutNothing(b);
    assert a[..0] == [];
    for i := 0 to |a|
      invariant Proper(a[..i]) && changes == CommonChanges(a[..i], b, compareOwnership)
      invariant removals == Paths(Without(a[..i], Paths(b))) && left == Without(b, Paths(a[..i]))
    {
      var path, splitv := a[i].path, a[i].entry;
      NextItem(a, b, i);
      CommonNext(a, b, compareOwnership, i);
      var newsplitv := Lookup(left, path);
      left := Without(left, [path]);
      if newsplitv.Some? {
        changes := changes + EntryChanges(path, splitv, newsplitv.value, compareOwnership);
      } else {
        removals := removals + [path];
      }
    }
    assert a[..|a|] == a;
  }

  lemma CommonNext(a: seq<Item>, b: seq<Item>, compareOwnership: bool, i: nat)
    requires Proper(a) && Proper(b) && i < |a| && Proper(a[..i]) && Proper(a[..i + 1]) && a[..i + 1][..i] == a[..i]
    ensures var found := Lookup(b, a[i].path);
            && (found.Some? ==> found.value.mode != "" && (found.value.mode[0] == 'l' ==> found.value.target.Some?))
            && CommonChanges(a[..i + 1], b, compareOwnership) == CommonChanges(a[..i], b, compareOwnership) +
                 if found.Some? then EntryChanges(a[i].path, a[i].entry, found.value, compareOwnership) else []
  {
    LookupProper(b, a[i].path);
  }

  lemma NextItem(a: seq<Item>, b: seq<Item>, i: nat)
    requires Proper(a) && Proper(b) && i < |a|
    ensures Proper(a[..i + 1]) && a[..i + 1][..i] == a[..i]
    ensures Lookup(Without(b, Paths(a[..i])), a[i].path) == Lookup(b, a[i].path)
    ensures Lookup(b, a[i].path).Some? <==> a[i].path in Paths(b)
    ensures Lookup(b, a[i].path).Some? ==> exists k | 0 <= k < |b| :: b[k].entry == Lookup(b, a[i].path).value && b[k].path == a[i].path
    ensures Without(Without(b, Paths(a[..i])), [a[i].path]) == Without(b, Paths(a[..i + 1]))
    ensures Paths(Without(a[..i + 1], Paths(b))) == Paths(Without(a[..i], Paths(b))) + if a[i].path in Paths(b) then [] else [a[i].path]
  {
    NewPath(a, i);
    LookupWithout(b, Paths(a[..i]), a[i].path);
    LookupProper(b, a[i].path);
    WithoutMore(b, Paths(a[..i]), a[i].path);
    NextRemoval(a, Paths(b), i);
  }

  lemma NewPath(a: seq<Item>, i: nat)
    requires Proper(a) && i < |a|
    ensures Proper(a[..i + 1]) && a[..i + 1][..i] == a[..i]
    ensures Paths(a[..i + 1]) == Paths(a[..i]) + [a[i].path] && a[i].path !in Paths(a[..i])
  {
    assert a[..i + 1] == a[..i] + [a[i]];
    PathsAppend(a[..i], a[i]);
    PathsPrefix(a, i);
    PathsPrefix(a, i + 1);
    NewAtEnd(Paths(a), i);
  }

  lemma PathsPrefix(a: seq<Item>, i: nat)
    requires i <= |a|
    ensures Paths(a[..i]) == Paths(a)[..i]
  {
  }

  lemma NewAtEnd(s: seq<string>, i: nat)
    requires Distinct(s) && i < |s|
    ensures Distinct(s[..i + 1]) && s[i] !in s[..i]
  {
  }

  lemma NextRemoval(a: seq<Item>, others: seq<string>, i: nat)
    requires i < |a|
    ensures Paths(Without(a[..i + 1], others)) == Paths(Without(a[..i], others)) + if a[i].path in others then [] else [a[i].path]
  {
    assert a[..i + 1] == a[..i] + [a[i]];
    WithoutAppend(a[..i], a[i], others);
    PathsAppend(Without(a[..i], others), a[i]);
    assert Without(a[..i], others) + [] == Without(a[..i], others);
  }

  lemma OnlyInOne(a: seq<Item>, b: seq<Item>)
    requires Proper(a) && Proper(b)
    ensures Distinct(Paths(Without(b, Paths(a)))) && Distinct(Paths(Without(a, Paths(b))))
    ensures forall p | p in Paths(Without(a, Paths(b))) :: p in Paths(a)
    ensures forall p | p in Paths(Without(b, Paths(a))) :: p !in Paths(a)
  {
    WithoutDistinct(b, Paths(a));
    WithoutDistinct(a, Paths(b));
    forall p | p in Paths(Without(a, Paths(b)))
      ensures p in Paths(a)
    {
      WithoutMembers(a, Paths(b), p);
    }
    forall p | p in Paths(Without(b, Paths(a)))
      ensures p !in Paths(a)
    {
      WithoutMembers(b, Paths(a), p);
    }
  }

  /** The new paths have been popped where the old list has them, so that what is left is what was added. */
  function ListsOf(a: seq<Item>, b: seq<Item>): Lists {
    Lists(Paths(Without(b, Paths(a))), Paths(Without(a, Paths(b))), Paths(a), Paths(Without(b, Paths(a))))
  }

  /** All changes from `a` to `b`. */
  function Comparison(a: seq<Item>, b: seq<Item>, compareOwnership: bool): seq<FileChange>
    requires Proper(a) && Proper(b)
  {
    CommonChanges(a, b, compareOwnership) + SearchChanges(Found(ListsOf(a, b)))
  }

  /** `compare_file_lists`. */
  method CompareFileLists(a: seq<Item>, b: seq<Item>, compareOwnership: bool) returns (changes: seq<FileChange>)
    requires Proper(a) && Proper(b)
    ensures changes == Comparison(a, b, compareOwnership)
  {
    var common, removals, left := CompareCommon(a, b, compareOwnership);
    OnlyInOne(a, b);
    var found := DetectMoves(Lists(Paths(left), removals, Paths(a), Paths(left)));
    changes := common + found;
  }
}
