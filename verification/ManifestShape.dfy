/** When the text of a filtered license expression is well formed, for every tree and filter. */
module ManifestShape {
  import opened License
  import opened Manifest

  // ---- well-formed token lists -----------------------------------------------------------

  /** A reader of tokens: how many brackets are open, and whether a license or "(" must follow. */
  datatype Reader = Bad | At(depth: nat, term: bool)

  const START := At(0, true)

  function Read(r: Reader, t: Token): Reader {
    match r
    case Bad => Bad
    case At(depth, term) =>
      match t
      case Name(_) => if term then At(depth, false) else Bad
      case Open => if term then At(depth + 1, true) else Bad
      case Close => if !term && depth > 0 then At(depth - 1, false) else Bad
      case Amp => if term then Bad else At(depth, true)
      case Bar => if term then Bad else At(depth, true)
  }

  function ReadAll(r: Reader, ts: seq<Token>): Reader {
    if ts == [] then r else Read(ReadAll(r, ts[..|ts| - 1]), ts[|ts| - 1])
  }

  /** Nothing at all, or an expression: licenses and bracketed expressions with one operator between each. */
  predicate WellFormed(ts: seq<Token>) {
    ts == [] || ReadAll(START, ts) == At(0, false)
  }

  lemma {:induction false} ReadAppend(r: Reader, a: seq<Token>, b: seq<Token>)
    ensures ReadAll(r, a + b) == ReadAll(ReadAll(r, a), b)
  {
    if b == [] {
      assert a + b == a;
    } else {
      var n := |b| - 1;
      assert (a + b)[..|a + b| - 1] == a + b[..n] && (a + b)[|a + b| - 1] == b[n];
      ReadAppend(r, a, b[..n]);
    }
  }

  lemma ReadOne(r: Reader, a: seq<Token>, t: Token)
    ensures ReadAll(r, a + [t]) == Read(ReadAll(r, a), t)
  {
    assert (a + [t])[..|a|] == a;
  }

  lemma {:induction false} BadStays(ts: seq<Token>)
    ensures ReadAll(Bad, ts) == Bad
  {
    if ts != [] {
      BadStays(ts[..|ts| - 1]);
    }
  }

  // ---- the condition ---------------------------------------------------------------------

  /** Some license of the expression is kept. */
  predicate Keeps(e: Expr, wanted: string -> bool) {
    match e
    case Lic(name) => wanted(name)
    case And(l, r) => Keeps(l, wanted) || Keeps(r, wanted)
    case Or(l, r) => Keeps(l, wanted) || Keeps(r, wanted)
    case Group(i) => Keeps(i, wanted)
  }

  function First(e: Expr): string {
    match e
    case Lic(name) => name
    case And(l, _) => First(l)
    case Or(l, _) => First(l)
    case Group(i) => First(i)
  }

  /** Every group keeps a license; and it keeps its first one, or no license before it is kept. `before` says
      whether one before the expression is. */
  predicate GroupsKeep(e: Expr, wanted: string -> bool, before: bool) {
    match e
    case Lic(_) => true
    case And(l, r) => GroupsKeep(l, wanted, before) && GroupsKeep(r, wanted, before || Keeps(l, wanted))
    case Or(l, r) => GroupsKeep(l, wanted, before) && GroupsKeep(r, wanted, before || Keeps(l, wanted))
    case Group(i) => Keeps(i, wanted) && (before ==> wanted(First(i))) && GroupsKeep(i, wanted, before)
  }

  lemma {:induction false} FirstKept(e: Expr, wanted: string -> bool)
    ensures wanted(First(e)) ==> Keeps(e, wanted)
  {
    match e
    case Lic(_) =>
    case And(l, _) => FirstKept(l, wanted);
    case Or(l, _) => FirstKept(l, wanted);
    case Group(i) => FirstKept(i, wanted);
  }

  // ---- pending operators -----------------------------------------------------------------

  predicate Binary(t: Token) {
    t == Amp || t == Bar
  }

  predicate HasOpen(ops: seq<Token>) {
    Open in ops
  }

  /** No license and no ")" is ever pending. */
  predicate Pure(ops: seq<Token>) {
    forall i | 0 <= i < |ops| :: ops[i] == Open || Binary(ops[i])
  }

  /** A "(" with an operator after it: what is printed next is "(" and then an operator. */
  predicate Stuck(ops: seq<Token>) {
    exists i, j | 0 <= i < j < |ops| :: ops[i] == Open && Binary(ops[j])
  }

  function Opens(ops: seq<Token>): nat {
    if ops == [] then 0 else Opens(ops[..|ops| - 1]) + if ops[|ops| - 1] == Open then 1 else 0
  }

  lemma {:induction false} OpensMeans(ops: seq<Token>)
    ensures HasOpen(ops) <==> Opens(ops) > 0
  {
    if ops != [] {
      OpensMeans(ops[..|ops| - 1]);
      assert ops == ops[..|ops| - 1] + [ops[|ops| - 1]];
    }
  }

  lemma OpensAppend(ops: seq<Token>, t: Token)
    ensures Opens(ops + [t]) == Opens(ops) + if t == Open then 1 else 0
    ensures HasOpen(ops + [t]) <==> HasOpen(ops) || t == Open
  {
    assert (ops + [t])[..|ops|] == ops;
  }

  lemma StuckAppend(ops: seq<Token>, t: Token)
    ensures Stuck(ops + [t]) <==> Stuck(ops) || (HasOpen(ops) && Binary(t))
  {
    var all := ops + [t];
    if i, j :| 0 <= i < j < |ops| && ops[i] == Open && Binary(ops[j]) {
      assert all[i] == Open && all[j] == ops[j];
    }
    if HasOpen(ops) && Binary(t) {
      var i :| 0 <= i < |ops| && ops[i] == Open;
      assert all[i] == Open && all[|ops|] == t;
    }
    if i, j :| 0 <= i < j < |all| && all[i] == Open && Binary(all[j]) {
      assert all[i] == ops[i];
      if j < |ops| {
        assert all[j] == ops[j];
      }
    }
  }

  lemma PureAppend(ops: seq<Token>, t: Token)
    requires Pure(ops) && (t == Open || Binary(t))
    ensures Pure(ops + [t])
  {
  }

  /** What is printed of pending operators. */
  function Shown(ops: seq<Token>, started: bool): seq<Token> {
    Printed(Pending(ops), started)
  }

  lemma PendingLast(ops: seq<Token>, t: Token)
    ensures Pending(ops + [t]) == Pend(Pending(ops), t)
  {
    assert (ops + [t])[..|ops|] == ops;
  }

  lemma {:induction false} PendingPure(ops: seq<Token>)
    requires Pure(ops)
    ensures Pure(Pending(ops)) && Opens(Pending(ops)) == Opens(ops)
  {
    if ops != [] {
      var n := |ops| - 1;
      PendingPure(ops[..n]);
      PendPure(Pending(ops[..n]), ops[n]);
    }
  }

  lemma PendPure(p: seq<Token>, t: Token)
    requires Pure(p) && (t == Open || Binary(t))
    ensures Pure(Pend(p, t)) && Opens(Pend(p, t)) == Opens(p) + if t == Open then 1 else 0
  {
    OpensAppend(p, t);
    PureAppend(p, t);
    if p != [] {
      var q := p[..|p| - 1];
      assert p == q + [p[|p| - 1]];
      OpensAppend(q, p[|p| - 1]);
      OpensAppend(q, t);
      PureAppend(q, t);
    }
  }

  lemma {:induction false} SkippedAtStart(p: seq<Token>)
    requires Pure(p)
    ensures ReadAll(START, Printed(p, false)) == At(Opens(p), true)
  {
    if p != [] {
      var n := |p| - 1;
      assert p == p[..n] + [p[n]];
      SkippedAtStart(p[..n]);
      OpensAppend(p[..n], p[n]);
      if p[n] == Open {
        ReadOne(START, Printed(p[..n], false), p[n]);
      } else {
        assert Printed(p[..n], false) + [] == Printed(p[..n], false);
      }
    }
  }

  /** Before anything is printed the operators are skipped and the "(" are printed. */
  lemma ShownAtStart(ops: seq<Token>)
    requires Pure(ops)
    ensures ReadAll(START, Shown(ops, false)) == At(Opens(ops), true)
  {
    PendingPure(ops);
    SkippedAtStart(Pending(ops));
  }

  function Brackets(n: nat): seq<Token> {
    if n == 0 then [] else Brackets(n - 1) + [Open]
  }

  /** After a license: an operator and then "(" only. */
  ghost predicate Ready(ops: seq<Token>) {
    Pure(ops) && ops != [] && Binary(ops[0]) && !Stuck(ops)
  }

  lemma PendOpen(p: seq<Token>)
    ensures Pend(p, Open) == p + [Open]
  {
  }

  /** A binary operator after a "(" is added. */
  lemma PendAfterOpen(p: seq<Token>, t: Token)
    requires Binary(t)
    ensures Pend(p + [Open], t) == p + [Open] + [t]
  {
  }

  /** A binary operator after another takes its place. */
  lemma PendReplaces(c: Token, t: Token)
    requires Binary(c) && Binary(t)
    ensures Pend([c], t) == [t]
  {
    assert [c][..0] == [];
    assert [] + [t] == [t];
  }

  lemma OneReady(t: Token)
    requires Binary(t)
    ensures Pending([t]) == [t] + Brackets(Opens([t]))
  {
    assert [t][..0] == [] && Pending([]) == [] && Opens([]) == 0 && Opens([t]) == 0;
    assert [] + [t] == [t] && [t] + [] == [t];
  }

  lemma ReadyInit(init: seq<Token>, t: Token)
    requires Ready(init + [t]) && init != []
    ensures Ready(init) && (t != Open ==> Binary(t) && Opens(init) == 0)
  {
    var ops := init + [t];
    StuckAppend(init, t);
    OpensMeans(init);
    assert ops[0] == init[0] && ops[|init|] == t;
    assert forall i | 0 <= i < |init| :: ops[i] == init[i];
  }

  lemma {:induction false} PendingReady(ops: seq<Token>) returns (b: Token)
    requires Ready(ops)
    ensures Binary(b) && Pending(ops) == [b] + Brackets(Opens(ops))
    decreases |ops|
  {
    var init, t := ops[..|ops| - 1], ops[|ops| - 1];
    assert ops == init + [t];
    if init == [] {
      b := t;
      assert ops == [t];
      OneReady(t);
    } else {
      ReadyInit(init, t);
      var c := PendingReady(init);
      b := ReadyLast(init, t, c);
    }
  }

  lemma ReadyLast(init: seq<Token>, t: Token, c: Token) returns (b: Token)
    requires Binary(c) && Pending(init) == [c] + Brackets(Opens(init))
    requires t == Open || (Binary(t) && Opens(init) == 0)
    ensures Binary(b) && Pending(init + [t]) == [b] + Brackets(Opens(init + [t]))
  {
    PendingLast(init, t);
    OpensAppend(init, t);
    b := if t == Open then c else t;
    NextReady(c, t, Opens(init));
  }

  lemma NextReady(c: Token, t: Token, n: nat)
    requires Binary(c) && (t == Open || (Binary(t) && n == 0))
    ensures Pend([c] + Brackets(n), t) == if t == Open then [c] + Brackets(n + 1) else [t] + Brackets(0)
  {
    if t == Open {
      PendOpen([c] + Brackets(n));
      assert [c] + Brackets(n) + [Open] == [c] + (Brackets(n) + [Open]);
    } else {
      PendReplaces(c, t);
      assert [c] + [] == [c] && [t] + [] == [t];
    }
  }

  lemma {:induction false} PrintedWhole(ops: seq<Token>)
    ensures Printed(ops, true) == ops
  {
    if ops != [] {
      PrintedWhole(ops[..|ops| - 1]);
      assert ops == ops[..|ops| - 1] + [ops[|ops| - 1]];
    }
  }

  lemma {:induction false} ReadBrackets(depth: nat, n: nat)
    ensures ReadAll(At(depth, true), Brackets(n)) == At(depth + n, true)
  {
    if n > 0 {
      ReadBrackets(depth, n - 1);
      ReadOne(At(depth, true), Brackets(n - 1), Open);
    }
  }

  /** After a license, what is pending leads to where a license may follow. */
  lemma ShownReady(ops: seq<Token>, depth: nat)
    requires Ready(ops)
    ensures ReadAll(At(depth, false), Shown(ops, true)) == At(depth + Opens(ops), true)
  {
    var b := PendingReady(ops);
    PrintedWhole(Pending(ops));
    ReadAppend(At(depth, false), [b], Brackets(Opens(ops)));
    ReadOne(At(depth, false), [], b);
    assert [] + [b] == [b];
    ReadBrackets(depth, Opens(ops));
  }

  // ---- what is stuck ---------------------------------------------------------------------

  /** What is misread stays misread when an operator is added. */
  lemma PendBad(p: seq<Token>, t: Token, r: Reader)
    requires Pure(p) && (t == Open || Binary(t)) && ReadAll(r, p) == Bad
    ensures ReadAll(r, Pend(p, t)) == Bad
  {
    if t == Open || p == [] || p[|p| - 1] == Open {
      ReadOne(r, p, t);
    } else {
      ReplacedBinary(r, p, t);
    }
  }

  /** A "(" is printed and an operator comes right after it. */
  lemma {:induction false} StuckPends(ops: seq<Token>, r: Reader)
    requires Pure(ops) && Stuck(ops)
    ensures ReadAll(r, Pending(ops)) == Bad
    decreases |ops|
  {
    var n := |ops| - 1;
    var init, t := ops[..n], ops[n];
    assert ops == init + [t];
    StuckAppend(init, t);
    PendingLast(init, t);
    if Stuck(init) {
      StuckPends(init, r);
      PendingPure(init);
      PendBad(Pending(init), t, r);
    } else {
      BinaryAfterOpen(init, t, r);
    }
  }

  lemma StuckPrints(ops: seq<Token>, r: Reader)
    requires Pure(ops) && Stuck(ops)
    ensures ReadAll(r, Shown(ops, true)) == Bad
  {
    StuckPends(ops, r);
    PrintedWhole(Pending(ops));
  }

  /** Another binary operator in the last place changes nothing for the reader. */
  lemma ReplacedBinary(r: Reader, p: seq<Token>, t: Token)
    requires p != [] && Binary(p[|p| - 1]) && Binary(t)
    ensures ReadAll(r, p[..|p| - 1] + [t]) == ReadAll(r, p)
  {
    ReadOne(r, p[..|p| - 1], t);
    ReadOne(r, p[..|p| - 1], p[|p| - 1]);
    assert p == p[..|p| - 1] + [p[|p| - 1]];
  }

  lemma OpenLast(init: seq<Token>)
    requires Pure(init) && HasOpen(init) && !Stuck(init)
    ensures init != [] && init[|init| - 1] == Open
  {
    var i :| 0 <= i < |init| && init[i] == Open;
    assert !Binary(init[|init| - 1]);
  }

  /** The first operator after a "(". */
  lemma BinaryAfterOpen(init: seq<Token>, t: Token, r: Reader)
    requires Pure(init) && HasOpen(init) && !Stuck(init) && Binary(t)
    ensures ReadAll(r, Pend(Pending(init), t)) == Bad
  {
    OpenLast(init);
    var front := init[..|init| - 1];
    assert init == front + [Open];
    PendingLast(front, Open);
    PendOpen(Pending(front));
    OpenThenBinary(Pending(front), t, r);
  }

  lemma OpenThenBinary(p: seq<Token>, t: Token, r: Reader)
    requires Binary(t)
    ensures ReadAll(r, Pend(p + [Open], t)) == Bad
  {
    PendAfterOpen(p, t);
    ReadOne(r, p + [Open], t);
    ReadOne(r, p, Open);
  }

  // ---- the visitor -----------------------------------------------------------------------

  function Depth(r: Reader): nat {
    if r.At? then r.depth else 0
  }

  function Place(s: State): Reader {
    ReadAll(START, s.printed)
  }

  /** The text cannot be completed any more. */
  predicate Lost(s: State) {
    Place(s) == Bad || (s.licenses != [] && HasOpen(s.operators))
  }

  /** The same where a license may follow: an operator stands after the pending "(". */
  predicate LostBefore(s: State) {
    Place(s) == Bad || (s.licenses != [] && Stuck(s.operators))
  }

  /** Where a license may follow: nothing printed yet, or an operator pending after what is printed. */
  ghost predicate Fit(s: State) {
    && Pure(s.operators)
    && if s.licenses == [] then s.printed == [] else Place(s).At? && !Place(s).term && Ready(s.operators)
  }

  /** Whether the expression will come out right there. */
  predicate Suits(s: State, e: Expr, wanted: string -> bool) {
    && GroupsKeep(e, wanted, s.licenses != [])
    && (s.licenses != [] && HasOpen(s.operators) ==> wanted(First(e)))
  }

  /** After an expression that came out right. */
  ghost predicate Came(s: State, t: State, e: Expr, wanted: string -> bool) {
    && Pure(t.operators)
    && if Keeps(e, wanted) then
         && t.licenses != [] && !HasOpen(t.operators)
         && Place(t) == At(Depth(Place(s)) + Opens(s.operators), false)
       else
         && t.licenses == s.licenses && t.printed == s.printed
         && s.operators <= t.operators && Opens(t.operators) == Opens(s.operators)
         && (HasOpen(t.operators) <==> HasOpen(s.operators))
  }

  lemma LicenseComes(s: State, name: string, wanted: string -> bool)
    requires Fit(s)
    ensures Suits(s, Lic(name), wanted) ==> Came(s, Visit(s, Lic(name), wanted), Lic(name), wanted)
    ensures !Suits(s, Lic(name), wanted) ==> Lost(Visit(s, Lic(name), wanted))
  {
    if wanted(name) {
      var shown := Shown(s.operators, s.licenses != []);
      ReadAppend(START, s.printed, shown);
      ReadOne(START, s.printed + shown, Name(name));
      if s.licenses == [] {
        ShownAtStart(s.operators);
      } else {
        ShownReady(s.operators, Place(s).depth);
      }
    }
  }

  lemma {:induction false} VisitPure(s: State, e: Expr, wanted: string -> bool)
    requires Pure(s.operators)
    ensures Pure(Visit(s, e, wanted).operators)
    ensures s.licenses != [] ==> Visit(s, e, wanted).licenses != []
    decreases Leaves(e), e, 1
  {
    match e
    case Lic(_) =>
    case And(l, r) => PairPure(s, l, Amp, r, wanted);
    case Or(l, r) => PairPure(s, l, Bar, r, wanted);
    case Group(i) => VisitPure(s.(operators := s.operators + [Open]), i, wanted);
  }

  lemma {:induction false} PairPure(s: State, l: Expr, op: Token, r: Expr, wanted: string -> bool)
    requires Pure(s.operators) && Binary(op)
    ensures var s1 := Visit(s, l, wanted);
            var t := Visit(s1.(operators := s1.operators + [op]), r, wanted);
            Pure(s1.operators) && Pure(t.operators) && (s.licenses != [] ==> t.licenses != [])
    decreases Leaves(l) + Leaves(r), l, 0
  {
    VisitPure(s, l, wanted);
    var s1 := Visit(s, l, wanted);
    VisitPure(s1.(operators := s1.operators + [op]), r, wanted);
  }

  // ---- what is lost stays lost -----------------------------------------------------------

  lemma LostThenOperator(s: State, op: Token)
    requires Lost(s) && Binary(op)
    ensures LostBefore(s.(operators := s.operators + [op]))
  {
    StuckAppend(s.operators, op);
  }

  lemma LostThenOpen(s: State)
    requires LostBefore(s)
    ensures LostBefore(s.(operators := s.operators + [Open]))
  {
    StuckAppend(s.operators, Open);
  }

  lemma LostThenClose(s: State)
    requires Lost(s)
    ensures Lost(s.(printed := s.printed + [Close]))
  {
    ReadOne(START, s.printed, Close);
  }

  lemma LostAtLicense(s: State, name: string, wanted: string -> bool)
    requires Pure(s.operators) && LostBefore(s)
    ensures Lost(Visit(s, Lic(name), wanted))
  {
    if wanted(name) {
      var shown := Shown(s.operators, s.licenses != []);
      ReadAppend(START, s.printed, shown);
      ReadOne(START, s.printed + shown, Name(name));
      if Place(s) == Bad {
        BadStays(shown);
      } else {
        StuckPrints(s.operators, Place(s));
      }
    }
  }

  lemma {:induction false} LostStays(s: State, e: Expr, wanted: string -> bool)
    requires Pure(s.operators) && LostBefore(s)
    ensures Lost(Visit(s, e, wanted))
    decreases Leaves(e), e, 1
  {
    match e
    case Lic(name) =>
      LostAtLicense(s, name, wanted);
    case And(l, r) =>
      LostPair(s, l, Amp, r, wanted);
    case Or(l, r) =>
      LostPair(s, l, Bar, r, wanted);
    case Group(i) =>
      var s0 := s.(operators := s.operators + [Open]);
      LostThenOpen(s);
      LostStays(s0, i, wanted);
      LostThenClose(Visit(s0, i, wanted));
  }

  lemma {:induction false} LostPair(s: State, l: Expr, op: Token, r: Expr, wanted: string -> bool)
    requires Pure(s.operators) && LostBefore(s) && Binary(op)
    ensures var s1 := Visit(s, l, wanted); Lost(Visit(s1.(operators := s1.operators + [op]), r, wanted))
    decreases Leaves(l) + Leaves(r), l, 0
  {
    var s1 := Visit(s, l, wanted);
    VisitPure(s, l, wanted);
    LostStays(s, l, wanted);
    LostThenOperator(s1, op);
    LostStays(s1.(operators := s1.operators + [op]), r, wanted);
  }

  // ---- what comes out right --------------------------------------------------------------

  /** Operators without "(" after a license, and one more. */
  lemma ReadyWithoutOpen(ops: seq<Token>, op: Token)
    requires Pure(ops) && !HasOpen(ops) && Binary(op)
    ensures Ready(ops + [op]) && !HasOpen(ops + [op])
  {
    StuckAppend(ops, op);
    OpensAppend(ops, op);
    PureAppend(ops, op);
    if ops != [] {
      assert ops[0] in ops && (ops + [op])[0] == ops[0];
    }
    assert !Stuck(ops);
  }

  lemma FitAfter(s: State, s1: State, l: Expr, op: Token, wanted: string -> bool)
    requires Fit(s) && Suits(s, l, wanted) && Came(s, s1, l, wanted) && Binary(op)
    ensures var s2 := s1.(operators := s1.operators + [op]);
            && Fit(s2) && (s2.licenses != [] ==> !HasOpen(s2.operators))
            && (s2.licenses != [] <==> s.licenses != [] || Keeps(l, wanted))
            && Opens(s2.operators) == Opens(s1.operators)
            && (HasOpen(s2.operators) <==> HasOpen(s1.operators))
  {
    FirstKept(l, wanted);
    OpensAppend(s1.operators, op);
    PureAppend(s1.operators, op);
    if s1.licenses != [] {
      ReadyWithoutOpen(s1.operators, op);
    }
  }

  lemma CameTwice(s: State, s1: State, s2: State, t: State, l: Expr, r: Expr, op: Token, wanted: string -> bool, e: Expr)
    requires e == And(l, r) || e == Or(l, r)
    requires Fit(s) && Suits(s, l, wanted) && Came(s, s1, l, wanted) && s2 == s1.(operators := s1.operators + [op]) && Binary(op)
    requires Came(s2, t, r, wanted)
    ensures Came(s, t, e, wanted)
  {
    FitAfter(s, s1, l, op, wanted);
    OpensMeans(s2.operators);
  }

  lemma {:induction false} PairComes(s: State, l: Expr, op: Token, r: Expr, wanted: string -> bool, e: Expr)
    requires Fit(s) && ((e == And(l, r) && op == Amp) || (e == Or(l, r) && op == Bar))
    ensures Suits(s, e, wanted) ==> Came(s, Visit(s, e, wanted), e, wanted)
    ensures !Suits(s, e, wanted) ==> Lost(Visit(s, e, wanted))
    decreases Leaves(l) + Leaves(r), l, 0
  {
    var s1 := Visit(s, l, wanted);
    var s2 := s1.(operators := s1.operators + [op]);
    VisitComes(s, l, wanted);
    if Suits(s, l, wanted) {
      FitAfter(s, s1, l, op, wanted);
      VisitComes(s2, r, wanted);
      if Suits(s2, r, wanted) {
        CameTwice(s, s1, s2, Visit(s2, r, wanted), l, r, op, wanted, e);
      }
    } else {
      VisitPure(s, l, wanted);
      LostThenOperator(s1, op);
      PureAppend(s1.operators, op);
      LostStays(s2, r, wanted);
    }
  }

  lemma FitInGroup(s: State)
    requires Fit(s)
    ensures var s0 := s.(operators := s.operators + [Open]);
            Fit(s0) && HasOpen(s0.operators) && Opens(s0.operators) == Opens(s.operators) + 1
  {
    StuckAppend(s.operators, Open);
    OpensAppend(s.operators, Open);
    PureAppend(s.operators, Open);
    if s.operators != [] {
      assert (s.operators + [Open])[0] == s.operators[0];
    }
  }

  /** The ")" after what came out right between the brackets. */
  lemma ClosedRight(s: State, s1: State, i: Expr, wanted: string -> bool)
    requires Fit(s) && Keeps(i, wanted) && Came(s.(operators := s.operators + [Open]), s1, i, wanted)
    ensures Came(s, s1.(printed := s1.printed + [Close]), Group(i), wanted)
  {
    FitInGroup(s);
    ReadOne(START, s1.printed, Close);
  }

  /** The ")" of a group without a license. */
  lemma ClosedEmpty(s: State, s1: State, i: Expr, wanted: string -> bool)
    requires Fit(s) && s.licenses == [] && !Keeps(i, wanted) && Came(s.(operators := s.operators + [Open]), s1, i, wanted)
    ensures Lost(s1.(printed := s1.printed + [Close]))
  {
    ReadOne(START, s1.printed, Close);
  }

  lemma GroupSuits(s: State, i: Expr, wanted: string -> bool)
    requires Fit(s)
    ensures Suits(s, Group(i), wanted) <==> Suits(s.(operators := s.operators + [Open]), i, wanted) && Keeps(i, wanted)
    ensures Suits(s.(operators := s.operators + [Open]), i, wanted) && !Keeps(i, wanted) ==> s.licenses == []
  {
    FitInGroup(s);
    FirstKept(i, wanted);
  }

  lemma {:induction false} GroupComes(s: State, i: Expr, wanted: string -> bool)
    requires Fit(s)
    ensures Suits(s, Group(i), wanted) ==> Came(s, Visit(s, Group(i), wanted), Group(i), wanted)
    ensures !Suits(s, Group(i), wanted) ==> Lost(Visit(s, Group(i), wanted))
    decreases Leaves(i), i, 2
  {
    var s0 := s.(operators := s.operators + [Open]);
    var s1 := Visit(s0, i, wanted);
    FitInGroup(s);
    GroupSuits(s, i, wanted);
    VisitComes(s0, i, wanted);
    if !Suits(s0, i, wanted) {
      LostThenClose(s1);
    } else if Keeps(i, wanted) {
      ClosedRight(s, s1, i, wanted);
    } else {
      ClosedEmpty(s, s1, i, wanted);
    }
  }

  lemma {:induction false} VisitComes(s: State, e: Expr, wanted: string -> bool)
    requires Fit(s)
    ensures Suits(s, e, wanted) ==> Came(s, Visit(s, e, wanted), e, wanted)
    ensures !Suits(s, e, wanted) ==> Lost(Visit(s, e, wanted))
    decreases Leaves(e), e, 1
  {
    match e
    case Lic(name) => LicenseComes(s, name, wanted);
    case And(l, r) => PairComes(s, l, Amp, r, wanted, e);
    case Or(l, r) => PairComes(s, l, Bar, r, wanted, e);
    case Group(i) => GroupComes(s, i, wanted);
  }

  // ---- brackets are counted --------------------------------------------------------------

  function Closes(ts: seq<Token>): nat {
    if ts == [] then 0 else Closes(ts[..|ts| - 1]) + if ts[|ts| - 1] == Close then 1 else 0
  }

  lemma ClosesAppend(ts: seq<Token>, t: Token)
    ensures Closes(ts + [t]) == Closes(ts) + if t == Close then 1 else 0
  {
    assert (ts + [t])[..|ts|] == ts;
  }

  lemma {:induction false} DepthCounts(ts: seq<Token>)
    ensures ReadAll(START, ts).At? ==> ReadAll(START, ts).depth == Opens(ts) - Closes(ts)
  {
    if ts != [] {
      DepthCounts(ts[..|ts| - 1]);
    }
  }

  lemma {:induction false} CountAppend(a: seq<Token>, b: seq<Token>)
    ensures Opens(a + b) == Opens(a) + Opens(b) && Closes(a + b) == Closes(a) + Closes(b)
  {
    if b == [] {
      assert a + b == a;
    } else {
      var n := |b| - 1;
      assert a + b == (a + b[..n]) + [b[n]];
      CountAppend(a, b[..n]);
      OpensAppend(a + b[..n], b[n]);
      ClosesAppend(a + b[..n], b[n]);
    }
  }

  lemma {:induction false} PrintedCounts(p: seq<Token>, started: bool)
    requires Pure(p)
    ensures Opens(Printed(p, started)) == Opens(p) && Closes(Printed(p, started)) == 0
  {
    if p != [] {
      var n := |p| - 1;
      var init := Printed(p[..n], started);
      PrintedCounts(p[..n], started);
      OpensAppend(init, p[n]);
      ClosesAppend(init, p[n]);
      assert init + [] == init;
    }
  }

  /** Brackets opened, printed or pending, less those closed. */
  function Balance(s: State): int {
    Opens(s.printed) + Opens(s.operators) - Closes(s.printed)
  }

  lemma LicenseBalance(s: State, name: string, wanted: string -> bool)
    requires Pure(s.operators)
    ensures Balance(Visit(s, Lic(name), wanted)) == Balance(s)
  {
    if wanted(name) {
      var shown := Shown(s.operators, s.licenses != []);
      PendingPure(s.operators);
      PrintedCounts(Pending(s.operators), s.licenses != []);
      CountAppend(s.printed, shown);
      OpensAppend(s.printed + shown, Name(name));
      ClosesAppend(s.printed + shown, Name(name));
    }
  }

  lemma {:induction false} VisitBalance(s: State, e: Expr, wanted: string -> bool)
    requires Pure(s.operators)
    ensures Balance(Visit(s, e, wanted)) == Balance(s)
    decreases Leaves(e), e, 1
  {
    match e
    case Lic(name) =>
      LicenseBalance(s, name, wanted);
    case And(l, r) =>
      PairBalance(s, l, Amp, r, wanted);
    case Or(l, r) =>
      PairBalance(s, l, Bar, r, wanted);
    case Group(i) =>
      var s0 := s.(operators := s.operators + [Open]);
      OpensAppend(s.operators, Open);
      VisitBalance(s0, i, wanted);
      OpensAppend(Visit(s0, i, wanted).printed, Close);
      ClosesAppend(Visit(s0, i, wanted).printed, Close);
  }

  lemma {:induction false} PairBalance(s: State, l: Expr, op: Token, r: Expr, wanted: string -> bool)
    requires Pure(s.operators) && Binary(op)
    ensures var s1 := Visit(s, l, wanted); Balance(Visit(s1.(operators := s1.operators + [op]), r, wanted)) == Balance(s)
    decreases Leaves(l) + Leaves(r), l, 0
  {
    var s1 := Visit(s, l, wanted);
    VisitPure(s, l, wanted);
    VisitBalance(s, l, wanted);
    OpensAppend(s1.operators, op);
    VisitBalance(s1.(operators := s1.operators + [op]), r, wanted);
  }

  /** Nothing but "(" pending on what is read to the end is against the count. */
  lemma LostIsIllFormed(t: State)
    requires Lost(t) && Balance(t) == 0
    ensures !WellFormed(t.printed)
  {
    DepthCounts(t.printed);
    OpensMeans(t.operators);
    assert t.printed == [] ==> Place(t) == START && Opens(t.printed) == 0 && Closes(t.printed) == 0;
  }

  /** For every tree and filter: the printed text is well formed if and only if every bracketed part keeps a
      license, and keeps its first one unless no license before it is kept. */
  lemma WellFormedIff(e: Expr, wanted: string -> bool)
    ensures WellFormed(Visit(State([], [], []), e, wanted).printed) <==> GroupsKeep(e, wanted, false)
  {
    var s := State([], [], []);
    var t := Visit(s, e, wanted);
    assert Fit(s) && !HasOpen(s.operators) && Balance(s) == 0;
    assert Suits(s, e, wanted) <==> GroupsKeep(e, wanted, false);
    VisitComes(s, e, wanted);
    if !GroupsKeep(e, wanted, false) {
      VisitBalance(s, e, wanted);
      LostIsIllFormed(t);
    } else {
      assert Opens(s.operators) == 0 && Place(s) == START;
    }
  }

  /** One example: "c | (a & b)" without a is printed as "c | ( & b)". */
  lemma FirstInGroupFiltered(a: string, b: string, c: string, wanted: string -> bool)
    requires !wanted(a) && wanted(b) && wanted(c)
    ensures !WellFormed(Visit(State([], [], []), Or(Lic(c), Group(And(Lic(a), Lic(b)))), wanted).printed)
  {
    var g := And(Lic(a), Lic(b));
    assert First(g) == a && Keeps(Lic(c), wanted);
    assert !GroupsKeep(Group(g), wanted, true);
    WellFormedIff(Or(Lic(c), Group(g)), wanted);
  }
}
