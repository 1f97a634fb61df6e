/** What `manifest_licenses` prints: everything it parsed when nothing is filtered, and the surviving
    licenses with the operators in front of them when the expression has no brackets. */
module ManifestResults {
  import opened Wrappers
  import opened License
  import opened Manifest

  // ---- nothing filtered: printing undoes parsing ---------------------------------------

  /** Pending operators that will all be printed as they are: brackets, after at most one "&" or "|". */
  ghost predicate Verbatim(ops: seq<Token>, started: bool) {
    forall i | 0 <= i < |ops| :: ops[i] == Open || (i == 0 && started && (ops[i] == Amp || ops[i] == Bar))
  }

  lemma {:induction false} VerbatimPrints(ops: seq<Token>, started: bool)
    requires Verbatim(ops, started)
    ensures Pending(ops) == ops && Printed(ops, started) == ops
  {
    if ops != [] {
      VerbatimPrints(ops[..|ops| - 1], started);
    }
  }

  ghost predicate AllWanted(e: Expr, wanted: string -> bool) {
    forall n | n in Names(e) :: wanted(n)
  }

  lemma {:induction false} UnfilteredVisit(s: State, e: Expr, wanted: string -> bool)
    requires AllWanted(e, wanted) && Verbatim(s.operators, s.licenses != [])
    ensures Visit(s, e, wanted) == State([], s.licenses + Names(e), s.printed + s.operators + Yield(e))
    decreases Leaves(e), e, 1
  {
    match e
    case Lic(name) =>
      VerbatimPrints(s.operators, s.licenses != []);
    case And(l, r) =>
      UnfilteredPair(s, l, Amp, r, wanted);
    case Or(l, r) =>
      UnfilteredPair(s, l, Bar, r, wanted);
    case Group(i) =>
      UnfilteredVisit(s.(operators := s.operators + [Open]), i, wanted);
      GroupPrinted(s.printed, s.operators, Yield(i));
  }

  lemma GroupPrinted(printed: seq<Token>, ops: seq<Token>, yi: seq<Token>)
    ensures printed + (ops + [Open]) + yi + [Close] == printed + ops + ([Open] + yi + [Close])
  {
  }

  lemma PairPrinted(before: seq<Token>, yl: seq<Token>, op: Token, yr: seq<Token>)
    ensures before + yl + ([] + [op]) + yr == before + (yl + [op] + yr)
  {
  }

  lemma {:induction false} UnfilteredPair(s: State, l: Expr, op: Token, r: Expr, wanted: string -> bool)
    requires AllWanted(l, wanted) && AllWanted(r, wanted) && (op == Amp || op == Bar)
    requires Verbatim(s.operators, s.licenses != [])
    ensures var s1 := Visit(s, l, wanted);
            Visit(s1.(operators := s1.operators + [op]), r, wanted)
            == State([], s.licenses + (Names(l) + Names(r)), s.printed + s.operators + (Yield(l) + [op] + Yield(r)))
    decreases Leaves(l) + Leaves(r), l, 0
  {
    UnfilteredVisit(s, l, wanted);
    NamesNotEmpty(l);
    var s1 := Visit(s, l, wanted);
    UnfilteredVisit(s1.(operators := s1.operators + [op]), r, wanted);
    PairPrinted(s.printed + s.operators, Yield(l), op, Yield(r));
    Regroup(s.licenses, Names(l), Names(r));
  }

  lemma {:induction false} NamesNotEmpty(e: Expr)
    ensures Names(e) != []
  {
    match e
    case Lic(_) =>
    case And(l, r) => NamesNotEmpty(l);
    case Or(l, r) => NamesNotEmpty(l);
    case Group(i) => NamesNotEmpty(i);
  }

  /** No two names next to each other, and every name a license word. */
  ghost predicate Spellable(ts: seq<Token>) {
    && (forall i | 0 <= i < |ts| :: ts[i].Name? ==> IsWord(ts[i].word))
    && (forall i | 0 < i < |ts| :: !(ts[i - 1].Name? && ts[i].Name?))
  }

  ghost predicate ProperWords(e: Expr) {
    forall n | n in Names(e) :: IsWord(n)
  }

  lemma {:induction false} YieldSpellable(e: Expr)
    requires ProperWords(e)
    ensures Spellable(Yield(e)) && Yield(e) != []
  {
    match e
    case Lic(_) =>
      assert Names(e) == [e.name];
    case And(l, r) => YieldSpellable(l); YieldSpellable(r);
    case Or(l, r) => YieldSpellable(l); YieldSpellable(r);
    case Group(i) => YieldSpellable(i);
  }

  function Element(t: Token): string {
    match t
    case Name(w) => w
    case Amp => "&"
    case Bar => "|"
    case Open => "("
    case Close => ")"
  }

  function Elements(ts: seq<Token>): seq<string> {
    if ts == [] then [] else Elements(ts[..|ts| - 1]) + [Element(ts[|ts| - 1])]
  }

  /** Cutting is local to both sides of an operator character. */
  lemma {:induction false} CutJoin(s: string, t: string, cur: string)
    requires t == "" || OperatorChar(t[0]) || (if s == "" then cur == "" else OperatorChar(s[|s| - 1]))
    ensures Cut(s + t, cur) == Cut(s, cur) + Cut(t, "")
    decreases |s|
  {
    if s == "" {
      assert s + t == t;
    } else {
      assert (s + t)[1..] == s[1..] + t;
      if OperatorChar(s[0]) {
        CutJoin(s[1..], t, "");
      } else {
        CutJoin(s[1..], t, cur + [s[0]]);
      }
    }
  }

  lemma {:induction false} CutWord(w: string, cur: string)
    requires IsWord(cur + w)
    ensures Cut(w, cur) == [cur + w]
    decreases |w|
  {
    if w == "" {
      assert cur + w == cur;
      assert !IsSpace(cur[0]);
    } else {
      assert (cur + w)[|cur|] == w[0];
      assert cur + [w[0]] + w[1..] == cur + w;
      CutWord(w[1..], cur + [w[0]]);
    }
  }

  lemma CutToken(t: Token)
    requires t.Name? ==> IsWord(t.word)
    ensures Cut(Show(t), "") == [Element(t)]
  {
    if t.Name? {
      assert "" + t.word == t.word;
      CutWord(t.word, "");
    } else if t == Amp || t == Bar {
      var c := Element(t);
      assert Show(t)[1..] == c + " " && (c + " ")[1..] == " ";
      assert !IsBlank(c) by { assert !IsSpace(c[0]); }
      assert Piece("") == [] == Piece(" ") && Cut("", "") == [];
      assert Cut(" ", "") == [] by { assert " "[1..] == ""; }
      assert Cut(c + " ", "") == [c];
    } else {
      assert !IsBlank(Show(t)) by { assert !IsSpace(Show(t)[0]); }
      assert Show(t)[1..] == "" && Piece("") == [] && Cut("", "") == [];
    }
  }

  lemma {:induction false} ShowEndsLikeToken(ts: seq<Token>)
    requires ts != [] && !ts[|ts| - 1].Name?
    ensures ShowAll(ts) != "" && OperatorChar(ShowAll(ts)[|ShowAll(ts)| - 1])
  {
  }

  /** Cutting the printed text gives back the tokens' own texts. */
  lemma {:induction false} CutShown(ts: seq<Token>)
    requires Spellable(ts)
    ensures Cut(ShowAll(ts), "") == Elements(ts)
    decreases |ts|
  {
    if ts != [] {
      var init, t := ts[..|ts| - 1], ts[|ts| - 1];
      CutShown(init);
      if init != [] && t.Name? {
        ShowEndsLikeToken(init);
      }
      CutJoin(ShowAll(init), Show(t), "");
      CutToken(t);
    }
  }

  lemma {:induction false} ElementAt(ts: seq<Token>)
    ensures |Elements(ts)| == |ts|
    ensures forall i | 0 <= i < |ts| :: Elements(ts)[i] == Element(ts[i])
  {
    if ts != [] {
      ElementAt(ts[..|ts| - 1]);
    }
  }

  /** Only the element of a name is a license word. */
  lemma ElementKind(t: Token)
    requires t.Name? ==> IsWord(t.word)
    ensures IsWord(Element(t)) == t.Name? && IsOperator(Element(t)) == !t.Name?
    ensures !t.Name? ==> Operator(Element(t)) == t
  {
    if t.Name? {
      assert WordChar(t.word[0]);
    } else {
      assert !WordChar(Element(t)[0]);
    }
  }

  lemma ElementsValid(ts: seq<Token>)
    requires Spellable(ts)
    ensures Valid(Elements(ts))
  {
    ElementAt(ts);
    forall i | 0 <= i < |ts|
      ensures IsWord(Elements(ts)[i]) || IsOperator(Elements(ts)[i])
    {
      ElementKind(ts[i]);
    }
  }

  lemma SpellLast(es: seq<string>, t: Token)
    requires es != [] && (t.Name? ==> IsWord(t.word)) && es[|es| - 1] == Element(t)
    requires t.Name? && |es| > 1 ==> !IsWord(es[|es| - 2])
    ensures Spell(es) == Spell(es[..|es| - 1]) + [t]
  {
    ElementKind(t);
    assert [] + [t] == [t];
  }

  lemma SpellablePrefix(ts: seq<Token>)
    requires Spellable(ts) && ts != []
    ensures Spellable(ts[..|ts| - 1])
  {
  }

  /** The last element, and that no word stands before a word. */
  lemma LastElement(ts: seq<Token>)
    requires Spellable(ts) && ts != []
    ensures var n := |ts| - 1;
            && |Elements(ts)| == n + 1 && Elements(ts)[..n] == Elements(ts[..n]) && Elements(ts)[n] == Element(ts[n])
            && (ts[n].Name? && n > 0 ==> !IsWord(Elements(ts)[n - 1]))
  {
    var n := |ts| - 1;
    ElementAt(ts);
    if n > 0 {
      ElementKind(ts[n - 1]);
    }
  }

  lemma {:induction false} SpellElements(ts: seq<Token>)
    requires Spellable(ts)
    ensures Spell(Elements(ts)) == ts
    decreases |ts|
  {
    if ts != [] {
      var n := |ts| - 1;
      SpellablePrefix(ts);
      SpellElements(ts[..n]);
      LastElement(ts);
      SpellLast(Elements(ts), ts[n]);
      assert ts[..n] + [ts[n]] == ts;
    }
  }

  /** Printing undoes parsing: with nothing filtered, the text `manifest_licenses` prints has exactly the
      tokens the expression was parsed from, brackets and implied operators included. */
  lemma PrintingUndoesParsing(e: Expr, wanted: string -> bool)
    requires AllWanted(e, wanted) && ProperWords(e)
    ensures var s := Visit(State([], [], []), e, wanted);
            && s.licenses == Names(e)
            && Valid(Cut(ShowAll(s.printed), ""))
            && Spell(Cut(ShowAll(s.printed), "")) == Yield(e)
  {
    UnfilteredVisit(State([], [], []), e, wanted);
    assert Visit(State([], [], []), e, wanted).printed == Yield(e);
    YieldSpellable(e);
    CutShown(Yield(e));
    ElementsValid(Yield(e));
    SpellElements(Yield(e));
  }

  // ---- no brackets: the survivors, each with the operator in front of it ---------------

  /** A license and the operator written in front of it, if any. */
  datatype Member = Member(before: seq<Token>, name: string)

  predicate Flat(e: Expr) {
    match e
    case Lic(_) => true
    case And(l, r) => Flat(l) && Flat(r)
    case Or(l, r) => Flat(l) && Flat(r)
    case Group(_) => false
  }

  /** The licenses in order; `lead` stands in front of the first one. */
  function Members(e: Expr, lead: seq<Token>): seq<Member>
    requires Flat(e)
  {
    match e
    case Lic(name) => [Member(lead, name)]
    case And(l, r) => Members(l, lead) + Members(r, [Amp])
    case Or(l, r) => Members(l, lead) + Members(r, [Bar])
  }

  function Survivors(ms: seq<Member>, wanted: string -> bool): seq<Member> {
    if ms == [] then [] else (if wanted(ms[0].name) then [ms[0]] else []) + Survivors(ms[1..], wanted)
  }

  /** The survivors written out; the very first license of the text loses its operator. */
  function Written(ms: seq<Member>, started: bool): seq<Token> {
    if ms == [] then []
    else (if started then ms[0].before else []) + [Name(ms[0].name)] + Written(ms[1..], true)
  }

  function MemberNames(ms: seq<Member>): seq<string> {
    if ms == [] then [] else [ms[0].name] + MemberNames(ms[1..])
  }

  lemma {:induction false} SurvivorsAppend(a: seq<Member>, b: seq<Member>, wanted: string -> bool)
    ensures Survivors(a + b, wanted) == Survivors(a, wanted) + Survivors(b, wanted)
  {
    if a == [] {
      assert a + b == b;
    } else {
      assert (a + b)[1..] == a[1..] + b;
      SurvivorsAppend(a[1..], b, wanted);
      Regroup(if wanted(a[0].name) then [a[0]] else [], Survivors(a[1..], wanted), Survivors(b, wanted));
    }
  }

  lemma {:induction false} WrittenAppend(a: seq<Member>, b: seq<Member>, started: bool)
    ensures Written(a + b, started) == Written(a, started) + Written(b, started || a != [])
  {
    if a == [] {
      assert a + b == b;
    } else {
      assert (a + b)[1..] == a[1..] + b;
      WrittenAppend(a[1..], b, true);
      var first := (if started then a[0].before else []) + [Name(a[0].name)];
      assert first + (Written(a[1..], true) + Written(b, true)) == first + Written(a[1..], true) + Written(b, true);
    }
  }

  lemma {:induction false} MemberNamesAppend(a: seq<Member>, b: seq<Member>)
    ensures MemberNames(a + b) == MemberNames(a) + MemberNames(b)
    ensures |MemberNames(a)| == |a|
  {
    if a == [] {
      assert a + b == b;
    } else {
      assert (a + b)[1..] == a[1..] + b;
      MemberNamesAppend(a[1..], b);
    }
  }

  ghost predicate NoBrackets(ops: seq<Token>) {
    forall i | 0 <= i < |ops| :: ops[i] == Amp || ops[i] == Bar
  }

  lemma {:induction false} LastOperatorPends(ops: seq<Token>, started: bool)
    requires NoBrackets(ops)
    ensures Pending(ops) == if ops == [] then [] else [ops[|ops| - 1]]
    ensures Printed(Pending(ops), started) == if ops == [] || !started then [] else [ops[|ops| - 1]]
  {
    if ops != [] {
      LastOperatorPends(ops[..|ops| - 1], started);
    }
  }

  lemma OneSurvivor(m: Member, wanted: string -> bool, started: bool)
    ensures Survivors([m], wanted) == if wanted(m.name) then [m] else []
    ensures Written([m], started) == (if started then m.before else []) + [Name(m.name)]
    ensures MemberNames([m]) == [m.name]
  {
    assert [m][1..] == [];
  }

  /** One license at a state with only binary operators pending. */
  lemma LicenseVisit(s: State, name: string, wanted: string -> bool)
    requires NoBrackets(s.operators)
    ensures var s', ops := Visit(s, Lic(name), wanted), s.operators;
            if !wanted(name) then s' == s
            else s' == State([], s.licenses + [name],
                             s.printed + (if ops == [] || s.licenses == [] then [] else [ops[|ops| - 1]]) + [Name(name)])
  {
    LastOperatorPends(s.operators, s.licenses != []);
  }

  lemma FilteredLicense(s: State, name: string, lead: seq<Token>, wanted: string -> bool)
    requires NoBrackets(s.operators)
    requires lead == if s.operators == [] then [] else [s.operators[|s.operators| - 1]]
    ensures var s', kept := Visit(s, Lic(name), wanted), Survivors(Members(Lic(name), lead), wanted);
            && s'.printed == s.printed + Written(kept, s.licenses != [])
            && s'.licenses == s.licenses + MemberNames(kept)
            && NoBrackets(s'.operators)
  {
    var m := Member(lead, name);
    assert Members(Lic(name), lead) == [m];
    OneSurvivor(m, wanted, s.licenses != []);
    LicenseVisit(s, name, wanted);
    if wanted(name) {
      Regroup(s.printed, if s.licenses != [] then lead else [], [Name(name)]);
    } else {
      assert s.printed + [] == s.printed && s.licenses + [] == s.licenses;
    }
  }

  lemma {:induction false} FilteredVisit(s: State, e: Expr, lead: seq<Token>, wanted: string -> bool)
    requires Flat(e) && NoBrackets(s.operators)
    requires lead == if s.operators == [] then [] else [s.operators[|s.operators| - 1]]
    ensures var s', kept := Visit(s, e, wanted), Survivors(Members(e, lead), wanted);
            && s'.printed == s.printed + Written(kept, s.licenses != [])
            && s'.licenses == s.licenses + MemberNames(kept)
            && NoBrackets(s'.operators)
    decreases Leaves(e), 1
  {
    match e
    case Lic(name) =>
      FilteredLicense(s, name, lead, wanted);
    case And(l, r) =>
      FilteredPair(s, l, Amp, r, lead, wanted);
    case Or(l, r) =>
      FilteredPair(s, l, Bar, r, lead, wanted);
  }

  lemma {:induction false} FilteredPair(s: State, l: Expr, op: Token, r: Expr, lead: seq<Token>, wanted: string -> bool)
    requires Flat(l) && Flat(r) && NoBrackets(s.operators) && (op == Amp || op == Bar)
    requires lead == if s.operators == [] then [] else [s.operators[|s.operators| - 1]]
    ensures var s1 := Visit(s, l, wanted);
            var s' := Visit(s1.(operators := s1.operators + [op]), r, wanted);
            var kept := Survivors(Members(l, lead) + Members(r, [op]), wanted);
            && s'.printed == s.printed + Written(kept, s.licenses != [])
            && s'.licenses == s.licenses + MemberNames(kept)
            && NoBrackets(s'.operators)
    decreases Leaves(l) + Leaves(r), 0
  {
    var s1 := Visit(s, l, wanted);
    FilteredVisit(s, l, lead, wanted);
    FilteredVisit(s1.(operators := s1.operators + [op]), r, [op], wanted);
    var a, b := Survivors(Members(l, lead), wanted), Survivors(Members(r, [op]), wanted);
    SurvivorsAppend(Members(l, lead), Members(r, [op]), wanted);
    WrittenAppend(a, b, s.licenses != []);
    MemberNamesAppend(a, b);
    Regroup(s.printed, Written(a, s.licenses != []), Written(b, s1.licenses != []));
    Regroup(s.licenses, MemberNames(a), MemberNames(b));
  }

  /** Without brackets, whatever is filtered: the surviving licenses in order, each but the first
      preceded by exactly the one operator that stood in front of it. */
  lemma FilteredManifest(e: Expr, wanted: string -> bool)
    requires Flat(e)
    ensures var s, kept := Visit(State([], [], []), e, wanted), Survivors(Members(e, []), wanted);
            s.printed == Written(kept, false) && s.licenses == MemberNames(kept)
  {
    FilteredVisit(State([], [], []), e, [], wanted);
  }

  /** With brackets and a filter no such thing holds: "(a) & b" without "a" prints ")(b". */
  lemma FilteredBracketsBreak(a: string, b: string, wanted: string -> bool)
    requires !wanted(a) && wanted(b)
    ensures Visit(State([], [], []), And(Group(Lic(a)), Lic(b)), wanted).printed == [Close, Open, Name(b)]
  {
    BracketsStay(a, wanted);
    var ops := [Open, Amp];
    assert [Open] + [Amp] == ops;
    assert ops[..1] == [Open] && [Open][..0] == [];
    assert Pending([Open]) == [Open] && Pending(ops) == ops;
    assert Printed([Open], false) == [Open] && Printed(ops, false) == [Open];
    assert Visit(State(ops, [], [Close]), Lic(b), wanted).printed == [Close] + [Open] + [Name(b)];
  }

  lemma BracketsStay(a: string, wanted: string -> bool)
    requires !wanted(a)
    ensures Visit(State([], [], []), Group(Lic(a)), wanted) == State([Open], [], [Close])
  {
    assert [] + [Open] == [Open] && [] + [Close] == [Close];
    assert Visit(State([Open], [], []), Lic(a), wanted) == State([Open], [], []);
  }
}
