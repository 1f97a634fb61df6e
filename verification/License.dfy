/** license.py: choosing among the OR branches of a license expression, and printing an expression
    with the unwanted licenses removed. */
module License {
  import opened Wrappers

  /** What Python's parser makes of a license text; `Group` is a bracketed part, which only the
      manifest keeps (it parses brackets as lists). */
  datatype Expr =
    | Lic(name: string)
    | And(left: Expr, right: Expr)
    | Or(left: Expr, right: Expr)
    | Group(inner: Expr)

  /** The include and exclude lists as the tests `fnmatch` makes of them. */
  datatype Filters = Filters(included: string -> bool, excluded: string -> bool)

  function Matching(ls: seq<string>, p: string -> bool): (r: seq<string>)
  {
    if ls == [] then [] else (if p(ls[0]) then [ls[0]] else []) + Matching(ls[1..], p)
  }

  /** The weight `choose_licenses` gives an option. */
  function Weight(ls: seq<string>, f: Filters): int {
    |Matching(ls, f.included)| - 1000 * (if |Matching(ls, f.excluded)| > 0 then 1 else 0)
  }

  function Choose(alpha: seq<string>, beta: seq<string>, f: Filters): seq<string> {
    if Weight(alpha, f) >= Weight(beta, f) then alpha else beta
  }

  /** The licenses a `FlattenVisitor` collects. */
  function Flatten(e: Expr, f: Filters): seq<string> {
    match e
    case Lic(name) => [name]
    case And(l, r) => Flatten(l, f) + Flatten(r, f)
    case Or(l, r) => Choose(Flatten(l, f), Flatten(r, f), f)
    case Group(i) => Flatten(i, f)
  }

  class FlattenVisitor {
    const filters: Filters
    var licenses: seq<string>

    constructor (f: Filters)
      ensures filters == f && licenses == []
    {
      filters, licenses := f, [];
    }

    method Visit(e: Expr)
      modifies this
      ensures licenses == old(licenses) + Flatten(e, filters)
      decreases e
    {
      match e
      case Lic(name) =>
        licenses := licenses + [name];
      case And(l, r) =>
        Visit(l);
        Visit(r);
        assert old(licenses) + Flatten(l, filters) + Flatten(r, filters) == old(licenses) + Flatten(e, filters);
      case Or(l, r) =>
        var left := new FlattenVisitor(filters);
        left.Visit(l);
        var right := new FlattenVisitor(filters);
        right.Visit(r);
        assert [] + Flatten(l, filters) == Flatten(l, filters) && [] + Flatten(r, filters) == Flatten(r, filters);
        licenses := licenses + Choose(left.licenses, right.licenses, filters);
      case Group(i) =>
        Visit(i);
    }
  }

  /** `is_included`. */
  method IsIncluded(e: Expr, f: Filters) returns (ok: bool, ls: seq<string>)
    ensures var chosen := Flatten(e, f);
            && ok == (Matching(chosen, f.excluded) == [])
            && ls == Matching(chosen, if ok then f.included else f.excluded)
  {
    var flatten := new FlattenVisitor(f);
    flatten.Visit(e);
    assert [] + Flatten(e, f) == Flatten(e, f);
    var excluded, included := Matching(flatten.licenses, f.excluded), Matching(flatten.licenses, f.included);
    if excluded != [] {
      return false, excluded;
    } else {
      return true, included;
    }
  }

  /** The list comprehension: the licenses at the places that pass, in order. */
  lemma {:induction false} MatchingPlaces(ls: seq<string>, p: string -> bool) returns (ix: seq<nat>)
    ensures Picks(ls, p, ix)
    ensures |Matching(ls, p)| == |ix| && forall a | 0 <= a < |ix| :: Matching(ls, p)[a] == ls[ix[a]]
  {
    ix := [];
    if ls != [] {
      var init, last := ls[..|ls| - 1], ls[|ls| - 1];
      assert ls == init + [last];
      ix := MatchingPlaces(init, p);
      MatchingAppend(init, [last], p);
      OneMatching(last, p);
      PicksGrow(init, last, p, ix);
      ix := ix + if p(last) then [|init|] else [];
    }
  }

  ghost predicate HasExcluded(ls: seq<string>, f: Filters) {
    exists i | 0 <= i < |ls| :: f.excluded(ls[i])
  }

  /** Of two options alike in having excluded licenses the one with more included ones is taken, the left one if
      they have equally many; of two unlike ones the one without, unless the other has a thousand more. */
  lemma OptionTaken(l: Expr, r: Expr, f: Filters)
    ensures var a, b := Flatten(l, f), Flatten(r, f);
            var m, n := |Matching(a, f.included)|, |Matching(b, f.included)|;
            var left := if HasExcluded(a, f) == HasExcluded(b, f) then m >= n
                        else if HasExcluded(b, f) then n <= m + 1000 else m >= n + 1000;
            Flatten(Or(l, r), f) == if left then a else b
  {
    ExcludedIff(Flatten(l, f), f);
    ExcludedIff(Flatten(r, f), f);
  }

  lemma ExcludedIff(ls: seq<string>, f: Filters)
    ensures HasExcluded(ls, f) <==> |Matching(ls, f.excluded)| > 0
  {
    var ix := MatchingPlaces(ls, f.excluded);
    if i: nat :| i < |ls| && f.excluded(ls[i]) {
      assert i in ix;
    }
    if ix != [] {
      assert ix[0] in ix;
    }
  }

  /** `ls` takes one side of every OR of `e`, in order. */
  ghost predicate IsChoice(e: Expr, ls: seq<string>) {
    match e
    case Lic(name) => ls == [name]
    case And(l, r) => exists i | 0 <= i <= |ls| :: IsChoice(l, ls[..i]) && IsChoice(r, ls[i..])
    case Or(l, r) => IsChoice(l, ls) || IsChoice(r, ls)
    case Group(i) => IsChoice(i, ls)
  }

  ghost predicate Clean(ls: seq<string>, f: Filters) {
    Matching(ls, f.excluded) == []
  }

  function Leaves(e: Expr): (n: nat)
    ensures n > 0
  {
    match e
    case Lic(_) => 1
    case And(l, r) => Leaves(l) + Leaves(r)
    case Or(l, r) => Leaves(l) + Leaves(r)
    case Group(i) => Leaves(i)
  }

  /** No side of an OR has a thousand licenses. */
  predicate Moderate(e: Expr) {
    match e
    case Lic(_) => true
    case And(l, r) => Moderate(l) && Moderate(r)
    case Or(l, r) => Leaves(l) < 1000 && Leaves(r) < 1000 && Moderate(l) && Moderate(r)
    case Group(i) => Moderate(i)
  }

  lemma {:induction false} MatchingAppend(a: seq<string>, b: seq<string>, p: string -> bool)
    ensures Matching(a + b, p) == Matching(a, p) + Matching(b, p)
  {
    if a == [] {
      assert a + b == b;
    } else {
      assert (a + b)[1..] == a[1..] + b;
      MatchingAppend(a[1..], b, p);
    }
  }

  lemma {:induction false} MatchingBound(ls: seq<string>, p: string -> bool)
    ensures |Matching(ls, p)| <= |ls|
  {
    if ls != [] {
      MatchingBound(ls[1..], p);
    }
  }

  lemma {:induction false} FewerThanThousand(e: Expr)
    requires Leaves(e) < 1000
    ensures Moderate(e)
  {
    match e
    case Lic(_) =>
    case And(l, r) => FewerThanThousand(l); FewerThanThousand(r);
    case Or(l, r) => FewerThanThousand(l); FewerThanThousand(r);
    case Group(i) => FewerThanThousand(i);
  }

  /** The visitor's licenses are one of the choices. */
  lemma {:induction false} FlattenIsChoice(e: Expr, f: Filters)
    ensures IsChoice(e, Flatten(e, f))
    ensures |Flatten(e, f)| <= Leaves(e)
  {
    match e
    case Lic(_) =>
    case And(l, r) =>
      FlattenIsChoice(l, f);
      FlattenIsChoice(r, f);
      var a, b := Flatten(l, f), Flatten(r, f);
      assert (a + b)[..|a|] == a && (a + b)[|a|..] == b;
    case Or(l, r) =>
      FlattenIsChoice(l, f);
      FlattenIsChoice(r, f);
    case Group(i) =>
      FlattenIsChoice(i, f);
  }

  /** Only the right one of the two options is clean, and the weight 1000 does not make up for the licenses the
      other includes. */
  ghost predicate Misjudged(alpha: seq<string>, beta: seq<string>, f: Filters) {
    || (!Clean(alpha, f) && Clean(beta, f) && |Matching(alpha, f.included)| >= |Matching(beta, f.included)| + 1000)
    || (Clean(alpha, f) && !Clean(beta, f) && |Matching(beta, f.included)| > |Matching(alpha, f.included)| + 1000)
  }

  /** Some choice has no excluded license, and how many included ones the best of these has. */
  predicate CanBeClean(e: Expr, f: Filters) {
    match e
    case Lic(name) => !f.excluded(name)
    case And(l, r) => CanBeClean(l, f) && CanBeClean(r, f)
    case Or(l, r) => CanBeClean(l, f) || CanBeClean(r, f)
    case Group(i) => CanBeClean(i, f)
  }

  function Best(e: Expr, f: Filters): nat
    requires CanBeClean(e, f)
  {
    match e
    case Lic(name) => if f.included(name) then 1 else 0
    case And(l, r) => Best(l, f) + Best(r, f)
    case Or(l, r) =>
      if !CanBeClean(r, f) then Best(l, f)
      else if !CanBeClean(l, f) then Best(r, f)
      else if Best(l, f) >= Best(r, f) then Best(l, f)
      else Best(r, f)
    case Group(i) => Best(i, f)
  }

  lemma {:induction false} CleanChoiceBound(e: Expr, f: Filters, ls: seq<string>)
    requires IsChoice(e, ls) && Clean(ls, f)
    ensures CanBeClean(e, f) && |Matching(ls, f.included)| <= Best(e, f)
  {
    match e
    case Lic(_) =>
    case And(l, r) =>
      var i :| 0 <= i <= |ls| && IsChoice(l, ls[..i]) && IsChoice(r, ls[i..]);
      assert ls == ls[..i] + ls[i..];
      MatchingAppend(ls[..i], ls[i..], f.included);
      MatchingAppend(ls[..i], ls[i..], f.excluded);
      CleanChoiceBound(l, f, ls[..i]);
      CleanChoiceBound(r, f, ls[i..]);
    case Or(l, r) =>
      CleanChoiceBound(if IsChoice(l, ls) then l else r, f, ls);
    case Group(i) =>
      CleanChoiceBound(i, f, ls);
  }

  /** The bound is reached. */
  lemma {:induction false} BestChoice(e: Expr, f: Filters) returns (ls: seq<string>)
    requires CanBeClean(e, f)
    ensures IsChoice(e, ls) && Clean(ls, f) && |Matching(ls, f.included)| == Best(e, f)
  {
    match e
    case Lic(name) =>
      ls := [name];
    case And(l, r) =>
      var a := BestChoice(l, f);
      var b := BestChoice(r, f);
      ls := a + b;
      assert ls[..|a|] == a && ls[|a|..] == b;
      MatchingAppend(a, b, f.included);
      MatchingAppend(a, b, f.excluded);
    case Or(l, r) =>
      ls := BestChoice(if !CanBeClean(r, f) || (CanBeClean(l, f) && Best(l, f) >= Best(r, f)) then l else r, f);
    case Group(i) =>
      ls := BestChoice(i, f);
  }

  // ---- when the weights decide rightly ---------------------------------------------------

  /** A misjudged OR that shows in the answer: an excluded license is chosen without need. */
  ghost predicate Spoiled(e: Expr, f: Filters) {
    match e
    case Lic(_) => false
    case And(l, r) => CanBeClean(l, f) && CanBeClean(r, f) && (Spoiled(l, f) || Spoiled(r, f))
    case Or(l, r) =>
      || Misjudged(Flatten(l, f), Flatten(r, f), f)
      || (!Clean(Flatten(l, f), f) && !Clean(Flatten(r, f), f) && (Spoiled(l, f) || Spoiled(r, f)))
    case Group(i) => Spoiled(i, f)
  }

  lemma FlattenPair(l: Expr, r: Expr, f: Filters)
    ensures Clean(Flatten(And(l, r), f), f) <==> Clean(Flatten(l, f), f) && Clean(Flatten(r, f), f)
    ensures |Matching(Flatten(And(l, r), f), f.included)| ==
            |Matching(Flatten(l, f), f.included)| + |Matching(Flatten(r, f), f.included)|
  {
    MatchingAppend(Flatten(l, f), Flatten(r, f), f.included);
    MatchingAppend(Flatten(l, f), Flatten(r, f), f.excluded);
  }

  lemma OneMatching(name: string, p: string -> bool)
    ensures Matching([name], p) == if p(name) then [name] else []
  {
    assert [name][1..] == [];
  }

  lemma CleanFlatten(e: Expr, f: Filters)
    requires Clean(Flatten(e, f), f)
    ensures CanBeClean(e, f) && |Matching(Flatten(e, f), f.included)| <= Best(e, f)
  {
    FlattenIsChoice(e, f);
    CleanChoiceBound(e, f, Flatten(e, f));
  }

  /** For every expression: the chosen list is clean where some choice is if and only if nothing is spoiled. */
  lemma {:induction false} CleanIff(e: Expr, f: Filters)
    ensures (CanBeClean(e, f) ==> Clean(Flatten(e, f), f)) <==> !Spoiled(e, f)
  {
    match e
    case Lic(name) =>
      OneMatching(name, f.excluded);
    case And(l, r) =>
      CleanIff(l, f);
      CleanIff(r, f);
      FlattenPair(l, r, f);
    case Or(l, r) =>
      CleanIff(l, f);
      CleanIff(r, f);
      if Clean(Flatten(l, f), f) {
        CleanFlatten(l, f);
      }
      if Clean(Flatten(r, f), f) {
        CleanFlatten(r, f);
      }
    case Group(i) =>
      CleanIff(i, f);
  }

  /** The best clean choice of `a` is no worse than that of `b`. */
  predicate AsGood(a: Expr, b: Expr, f: Filters) {
    CanBeClean(a, f) && (CanBeClean(b, f) ==> Best(a, f) >= Best(b, f))
  }

  /** The answer is not the best one: at an OR, the better option is not answered well, or loses to an excluded
      one. */
  ghost predicate Faulty(e: Expr, f: Filters) {
    match e
    case Lic(_) => false
    case And(l, r) => CanBeClean(l, f) && CanBeClean(r, f) && (Faulty(l, f) || Faulty(r, f))
    case Or(l, r) =>
      && (CanBeClean(l, f) || CanBeClean(r, f))
      && (|| Misjudged(Flatten(l, f), Flatten(r, f), f)
          || !((AsGood(l, r, f) && !Faulty(l, f)) || (AsGood(r, l, f) && !Faulty(r, f))))
    case Group(i) => Faulty(i, f)
  }

  /** The chosen list is clean and as good as can be, if any choice is clean. */
  ghost predicate Right(e: Expr, f: Filters) {
    CanBeClean(e, f) ==> Clean(Flatten(e, f), f) && |Matching(Flatten(e, f), f.included)| == Best(e, f)
  }

  /** One option at an OR: its list's cleanliness and count, and what it could be. */
  datatype Side = Side(clean: bool, count: nat, possible: bool, best: nat)
  {
    predicate Fits() {
      clean ==> possible && count <= best
    }

    predicate Right() {
      possible ==> clean && count == best
    }

    predicate AsGoodAs(o: Side) {
      possible && (o.possible ==> best >= o.best)
    }

    function Weight(): int {
      count - if clean then 0 else 1000
    }
  }

  /** The test on the weights takes the right one of two options. */
  lemma SidesJudged(a: Side, b: Side)
    requires a.Fits() && b.Fits()
    ensures var chosen := if a.Weight() >= b.Weight() then a else b;
            var best := if !b.possible || (a.possible && a.best >= b.best) then a.best else b.best;
            var misjudged := (!a.clean && b.clean && a.count >= b.count + 1000) || (a.clean && !b.clean && b.count > a.count + 1000);
            (a.possible || b.possible ==> chosen.clean && chosen.count == best) <==>
            !((a.possible || b.possible) && (misjudged || !((a.AsGoodAs(b) && a.Right()) || (b.AsGoodAs(a) && b.Right()))))
  {
  }

  ghost function SideOf(e: Expr, f: Filters): (o: Side)
    ensures o.Fits() && (o.Right() <==> Right(e, f))
    ensures (o.clean <==> Clean(Flatten(e, f), f)) && o.count == |Matching(Flatten(e, f), f.included)|
    ensures (o.possible <==> CanBeClean(e, f)) && (o.possible ==> o.best == Best(e, f))
    ensures o.Weight() == Weight(Flatten(e, f), f)
  {
    var chosen := Flatten(e, f);
    if Clean(chosen, f) then
      CleanFlatten(e, f);
      Side(true, |Matching(chosen, f.included)|, true, Best(e, f))
    else
      Side(false, |Matching(chosen, f.included)|, CanBeClean(e, f), if CanBeClean(e, f) then Best(e, f) else 0)
  }

  lemma OrRightIff(l: Expr, r: Expr, f: Filters)
    requires (Right(l, f) <==> !Faulty(l, f)) && (Right(r, f) <==> !Faulty(r, f))
    ensures Right(Or(l, r), f) <==> !Faulty(Or(l, r), f)
  {
    SidesJudged(SideOf(l, f), SideOf(r, f));
  }

  lemma {:induction false} RightIff(e: Expr, f: Filters)
    ensures Right(e, f) <==> !Faulty(e, f)
  {
    match e
    case Lic(name) =>
      OneMatching(name, f.excluded);
      OneMatching(name, f.included);
    case And(l, r) =>
      RightIff(l, f);
      RightIff(r, f);
      FlattenPair(l, r, f);
      if Clean(Flatten(l, f), f) {
        CleanFlatten(l, f);
      }
      if Clean(Flatten(r, f), f) {
        CleanFlatten(r, f);
      }
    case Or(l, r) =>
      RightIff(l, f);
      RightIff(r, f);
      OrRightIff(l, r, f);
    case Group(i) =>
      RightIff(i, f);
  }

  /** What is not faulty beats every clean choice: it is clean, too, and includes no fewer. */
  lemma FlattenBeats(e: Expr, f: Filters, ls: seq<string>)
    requires !Faulty(e, f) && IsChoice(e, ls) && Clean(ls, f)
    ensures Clean(Flatten(e, f), f)
    ensures |Matching(ls, f.included)| <= |Matching(Flatten(e, f), f.included)|
  {
    RightIff(e, f);
    CleanChoiceBound(e, f, ls);
  }

  /** `is_included` is right about an expression: it says True exactly if some choice has no excluded license, and
      its list is then as long as the best such choice allows. */
  ghost predicate Optimal(e: Expr, f: Filters) {
    var chosen := Flatten(e, f);
    && (Clean(chosen, f) <==> exists ls :: IsChoice(e, ls) && Clean(ls, f))
    && (forall ls | IsChoice(e, ls) && Clean(ls, f) :: |Matching(ls, f.included)| <= |Matching(chosen, f.included)|)
  }

  /** For every expression and filter: the greedy choice of one side at each OR is globally right if and only if
      the expression is not faulty. */
  lemma GreedyChoiceIsOptimalIff(e: Expr, f: Filters)
    ensures IsChoice(e, Flatten(e, f))
    ensures Optimal(e, f) <==> !Faulty(e, f)
  {
    FlattenIsChoice(e, f);
    RightIff(e, f);
    if CanBeClean(e, f) {
      var best := BestChoice(e, f);
      if Clean(Flatten(e, f), f) {
        CleanFlatten(e, f);
      }
    }
    forall ls | IsChoice(e, ls) && Clean(ls, f)
      ensures CanBeClean(e, f) && |Matching(ls, f.included)| <= Best(e, f)
    {
      CleanChoiceBound(e, f, ls);
    }
  }

  /** With fewer than a thousand licenses on each side no OR is misjudged, and so nothing is faulty. */
  lemma {:induction false} ModerateIsRight(e: Expr, f: Filters)
    requires Moderate(e)
    ensures !Faulty(e, f)
  {
    match e
    case Lic(_) =>
    case And(l, r) => ModerateIsRight(l, f); ModerateIsRight(r, f);
    case Or(l, r) =>
      ModerateIsRight(l, f);
      ModerateIsRight(r, f);
      FlattenIsChoice(l, f);
      FlattenIsChoice(r, f);
      MatchingBound(Flatten(l, f), f.included);
      MatchingBound(Flatten(r, f), f.included);
    case Group(i) => ModerateIsRight(i, f);
  }

  /** `n` licenses "a" joined by "&". */
  function Repeated(n: nat, name: string): Expr
    requires n > 0
  {
    if n == 1 then Lic(name) else And(Repeated(n - 1, name), Lic(name))
  }

  lemma {:induction false} RepeatedCounts(n: nat, name: string, f: Filters)
    requires n > 0 && f.included(name) && f.excluded(name)
    ensures Leaves(Repeated(n, name)) == n
    ensures |Matching(Flatten(Repeated(n, name), f), f.included)| == n == |Matching(Flatten(Repeated(n, name), f), f.excluded)|
  {
    if n > 1 {
      RepeatedCounts(n - 1, name, f);
      MatchingAppend(Flatten(Repeated(n - 1, name), f), [name], f.included);
      MatchingAppend(Flatten(Repeated(n - 1, name), f), [name], f.excluded);
    }
  }

  /** The bound is sharp: one excluded license written `n` times beats a clean option as soon as `n`
      reaches the weight of 1000. */
  lemma ThousandIsTooMany(n: nat, f: Filters)
    requires n > 0 && f.included("a") && f.excluded("a") && !f.included("b") && !f.excluded("b")
    ensures var e := Or(Repeated(n, "a"), Lic("b"));
            && IsChoice(e, ["b"]) && Clean(["b"], f)
            && (Clean(Flatten(e, f), f) <==> n < 1000)
  {
    RepeatedCounts(n, "a", f);
  }
}
