/** license.py: `get_elements`, and the `ManifestVisitor` that prints an expression without the
    licenses nobody wants. */
module Manifest {
  import opened Wrappers
  import opened License

  datatype Token = Name(word: string) | Amp | Bar | Open | Close

  datatype Result<+T> = Ok(value: T) | InvalidLicense(element: string)

  // ---- from text to tokens -------------------------------------------------------------

  predicate OperatorChar(c: char) {
    c in "&|() "
  }

  predicate WordChar(c: char) {
    'a' <= c <= 'z' || 'A' <= c <= 'Z' || '0' <= c <= '9' || c in ".+_-"
  }

  /** What a license name may be made of. */
  lemma WordCharIff(c: char)
    ensures WordChar(c) <==> c in SMALL || c in CAPITAL || c in DIGITS || c == '.' || c == '+' || c == '_' || c == '-'
  {
    SmallLetters(c);
    CapitalLetters(c);
    TenDigits(c);
  }

  predicate IsWord(s: string) {
    s != "" && forall i | 0 <= i < |s| :: WordChar(s[i])
  }

  predicate IsBlank(s: string) {
    forall i | 0 <= i < |s| :: IsSpace(s[i])
  }

  function Piece(s: string): seq<string> {
    if IsBlank(s) then [] else [s]
  }

  /** The non-blank pieces of `license_operator.split`; `cur` is the piece being read. */
  function Cut(s: string, cur: string): seq<string> {
    if s == "" then Piece(cur)
    else if OperatorChar(s[0]) then Piece(cur) + Piece([s[0]]) + Cut(s[1..], "")
    else Cut(s[1..], cur + [s[0]])
  }

  /** A text is cut at every operator character, which is a piece itself, ... */
  lemma {:induction false} CutApart(s: string, c: char, t: string, cur: string)
    requires c in ['&', '|', '(', ')', ' ']
    ensures Cut(s + [c] + t, cur) == Cut(s, cur) + Piece([c]) + Cut(t, "")
    decreases |s|
  {
    if s == "" {
      assert s + [c] + t == [c] + t && ([c] + t)[1..] == t;
    } else {
      assert (s + [c] + t)[1..] == s[1..] + [c] + t;
      if OperatorChar(s[0]) {
        CutApart(s[1..], c, t, "");
        RegroupFour(Piece(cur) + Piece([s[0]]), Cut(s[1..], ""), Piece([c]), Cut(t, ""));
      } else {
        CutApart(s[1..], c, t, cur + [s[0]]);
      }
    }
  }

  /** ... and nowhere else; pieces of nothing but space are dropped. */
  lemma {:induction false} CutWhole(s: string, cur: string)
    requires forall i | 0 <= i < |s| :: s[i] !in ['&', '|', '(', ')', ' ']
    ensures Cut(s, cur) == if forall i | 0 <= i < |cur + s| :: IsSpace((cur + s)[i]) then [] else [cur + s]
    decreases |s|
  {
    if s == "" {
      assert cur + s == cur;
    } else {
      CutWhole(s[1..], cur + [s[0]]);
      assert cur + [s[0]] + s[1..] == cur + s;
    }
  }

  function Operator(s: string): Token {
    if s == "&" then Amp else if s == "|" then Bar else if s == "(" then Open else Close
  }

  predicate IsOperator(s: string) {
    s == "&" || s == "|" || s == "(" || s == ")"
  }

  /** The tokens of a list of words and operators: "&" is implied between two words in a row. */
  function Spell(es: seq<string>): seq<Token> {
    if es == [] then []
    else
      var n := |es| - 1;
      Spell(es[..n]) +
      if !IsWord(es[n]) then [Operator(es[n])]
      else (if n > 0 && IsWord(es[n - 1]) then [Amp] else []) + [Name(es[n])]
  }

  /** What one more element adds. */
  function Added(before: seq<string>, e: string): seq<Token> {
    if !IsWord(e) then [Operator(e)] else Meeting(before, e) + [Name(e)]
  }

  /** "&", if a word meets a word. */
  function Meeting(before: seq<string>, e: string): seq<Token> {
    if before != [] && IsWord(before[|before| - 1]) && IsWord(e) then [Amp] else []
  }

  lemma SpellMore(es: seq<string>, e: string)
    ensures Spell(es + [e]) == Spell(es) + Added(es, e)
  {
    var all := es + [e];
    assert all[..|all| - 1] == es && all[|all| - 1] == e;
    assert es != [] ==> all[|all| - 2] == es[|es| - 1];
  }

  /** What is read in two parts, with "&" between them exactly if a word meets a word. */
  lemma {:induction false} SpellApart(a: seq<string>, b: seq<string>)
    requires b != []
    ensures Spell(a + b) == Spell(a) + Meeting(a, b[0]) + Spell(b)
  {
    var init, last := b[..|b| - 1], b[|b| - 1];
    assert b == init + [last];
    if init == [] {
      ApartOne(a, last);
      assert b == [last];
    } else {
      SpellApart(a, init);
      ApartMore(a, init, last, Meeting(a, b[0]));
    }
  }

  lemma ApartOne(a: seq<string>, e: string)
    ensures Spell(a + [e]) == Spell(a) + Meeting(a, e) + Spell([e])
  {
    SpellMore(a, e);
    SpellMore([], e);
    assert [] + [e] == [e] && Spell([]) == [];
    assert Spell([e]) == Added([], e);
  }

  lemma ApartMore(a: seq<string>, init: seq<string>, last: string, between: seq<Token>)
    requires init != [] && Spell(a + init) == Spell(a) + between + Spell(init)
    ensures Spell(a + (init + [last])) == Spell(a) + between + Spell(init + [last])
  {
    assert a + (init + [last]) == a + init + [last] && (a + init)[|a + init| - 1] == init[|init| - 1];
    SpellMore(a + init, last);
    SpellMore(init, last);
    Regroup(Spell(a) + between, Spell(init), Added(init, last));
  }

  /** An operator is itself, a word its name. */
  lemma SpellOne(e: string)
    ensures IsWord(e) ==> Spell([e]) == [Name(e)]
    ensures Spell(["&"]) == [Amp] && Spell(["|"]) == [Bar] && Spell(["("]) == [Open] && Spell([")"]) == [Close]
  {
    assert [e][..0] == [] && Spell([]) == [];
    assert !WordChar('&') && !WordChar('|') && !WordChar('(') && !WordChar(')');
    OperatorAlone("&");
    OperatorAlone("|");
    OperatorAlone("(");
    OperatorAlone(")");
  }

  lemma OperatorAlone(e: string)
    requires e != "" && !WordChar(e[0])
    ensures Spell([e]) == [Operator(e)]
  {
    assert [e][..0] == [] && Spell([]) == [];
  }

  predicate Valid(es: seq<string>) {
    forall i | 0 <= i < |es| :: IsWord(es[i]) || IsOperator(es[i])
  }

  method GetElements(licensestr: string) returns (r: Result<seq<Token>>)
    ensures var es := Cut(licensestr, "");
            if forall i | 0 <= i < |es| :: IsWord(es[i]) || IsOperator(es[i]) then r == Ok(Spell(es))
            else r.InvalidLicense? && exists i | 0 <= i < |es| ::
                   r.element == es[i] && !IsWord(es[i]) && !IsOperator(es[i]) && forall j | 0 <= j < i :: IsWord(es[j]) || IsOperator(es[j])
  {
    var elements := Cut(licensestr, "");
    var newElements := [];
    for pos := 0 to |elements|
      invariant Valid(elements[..pos]) && newElements == Spell(elements[..pos])
    {
      var element := elements[pos];
      assert elements[..pos + 1][..pos] == elements[..pos];
      assert Valid(elements[..pos + 1]) <==> IsWord(element) || IsOperator(element);
      if IsWord(element) {
        if pos > 0 && IsWord(elements[pos - 1]) {
          newElements := newElements + [Amp];
        }
        newElements := newElements + [Name(element)];
      } else if !IsOperator(element) {
        assert forall j | 0 <= j < pos :: elements[..pos][j] == elements[j];
        return InvalidLicense(element);
      } else {
        newElements := newElements + [Operator(element)];
      }
    }
    assert elements[..|elements|] == elements;
    return Ok(newElements);
  }

  // ---- from expressions back to text ---------------------------------------------------

  /** How a token is printed. */
  function Show(t: Token): string {
    match t
    case Name(w) => w
    case Amp => " & "
    case Bar => " | "
    case Open => "("
    case Close => ")"
  }

  function ShowAll(ts: seq<Token>): string {
    if ts == [] then "" else ShowAll(ts[..|ts| - 1]) + Show(ts[|ts| - 1])
  }

  /** The tokens an expression was parsed from. */
  function Yield(e: Expr): seq<Token> {
    match e
    case Lic(name) => [Name(name)]
    case And(l, r) => Yield(l) + [Amp] + Yield(r)
    case Or(l, r) => Yield(l) + [Bar] + Yield(r)
    case Group(i) => [Open] + Yield(i) + [Close]
  }

  function Names(e: Expr): seq<string> {
    match e
    case Lic(name) => [name]
    case And(l, r) => Names(l) + Names(r)
    case Or(l, r) => Names(l) + Names(r)
    case Group(i) => Names(i)
  }

  /** One operator more on the list of those still to be printed: a later "&" or "|" replaces the
      one before it, brackets stay. */
  function Pend(ops: seq<Token>, op: Token): seq<Token> {
    if op == Open || op == Close || ops == [] || ops[|ops| - 1] == Open || ops[|ops| - 1] == Close then ops + [op]
    else ops[..|ops| - 1] + [op]
  }

  function Pending(operators: seq<Token>): seq<Token> {
    if operators == [] then []
    else Pend(Pending(operators[..|operators| - 1]), operators[|operators| - 1])
  }

  /** Which of the pending operators are printed: brackets always, the others not before the first license. */
  function Printed(ops: seq<Token>, started: bool): seq<Token> {
    if ops == [] then []
    else
      var op := ops[|ops| - 1];
      Printed(ops[..|ops| - 1], started) + if op == Open || op == Close || started then [op] else []
  }

  /** The visitor's fields; `printed` is `licensestr` as tokens. */
  datatype State = State(operators: seq<Token>, licenses: seq<string>, printed: seq<Token>)

  function Visit(s: State, e: Expr, wanted: string -> bool): State
    decreases e
  {
    match e
    case Lic(name) =>
      if !wanted(name) then s
      else State([], s.licenses + [name], s.printed + Printed(Pending(s.operators), s.licenses != []) + [Name(name)])
    case And(l, r) =>
      var s1 := Visit(s, l, wanted);
      Visit(s1.(operators := s1.operators + [Amp]), r, wanted)
    case Or(l, r) =>
      var s1 := Visit(s, l, wanted);
      Visit(s1.(operators := s1.operators + [Bar]), r, wanted)
    case Group(i) =>
      var s1 := Visit(s.(operators := s.operators + [Open]), i, wanted);
      s1.(printed := s1.printed + [Close])
  }

  /** One operator more, after `before` and those already printed. */
  lemma PrintedOne(before: seq<Token>, ops: seq<Token>, i: nat, started: bool)
    requires i < |ops|
    ensures before + Printed(ops[..i + 1], started) ==
            if ops[i] == Open || ops[i] == Close || started then before + Printed(ops[..i], started) + [ops[i]]
            else before + Printed(ops[..i], started)
  {
    assert ops[..i + 1][..i] == ops[..i];
  }

  class ManifestVisitor {
    const wanted: string -> bool
    var operators: seq<Token>
    var licenses: seq<string>
    var licensestr: string
    ghost var printed: seq<Token>

    ghost predicate Valid()
      reads this
    {
      licensestr == ShowAll(printed)
    }

    ghost function Now(): State
      reads this
    {
      State(operators, licenses, printed)
    }

    constructor (wanted: string -> bool)
      ensures Valid() && Now() == State([], [], []) && this.wanted == wanted
    {
      this.wanted := wanted;
      operators, licenses, licensestr, printed := [], [], "", [];
    }

    method Print(t: Token)
      requires Valid()
      modifies this`licensestr, this`printed
      ensures Valid() && printed == old(printed) + [t]
    {
      licensestr := licensestr + Show(t);
      printed := printed + [t];
      assert printed[..|printed| - 1] == old(printed);
    }

    method CollapseOperators() returns (ops: seq<Token>)
      ensures ops == Pending(operators)
    {
      ops := [];
      for i := 0 to |operators|
        invariant ops == Pending(operators[..i])
      {
        var op := operators[i];
        assert operators[..i + 1][..i] == operators[..i];
        if op == Open || op == Close {
          ops := ops + [op];
        } else if ops == [] || ops[|ops| - 1] == Open || ops[|ops| - 1] == Close {
          ops := ops + [op];
        } else {
          ops := ops[..|ops| - 1] + [op];
        }
      }
      assert operators[..|operators|] == operators;
    }

    method PrintOperators()
      requires Valid()
      modifies this
      ensures Valid() && licenses == old(licenses)
      ensures operators == [] && printed == old(printed) + Printed(Pending(old(operators)), licenses != [])
    {
      var ops := CollapseOperators();
      for i := 0 to |ops|
        invariant Valid() && licenses == old(licenses) && operators == old(operators)
        invariant printed == old(printed) + Printed(ops[..i], licenses != [])
      {
        PrintedOne(old(printed), ops, i, licenses != []);
        if ops[i] == Open || ops[i] == Close || licenses != [] {
          Print(ops[i]);
        }
      }
      assert ops[..|ops|] == ops;
      operators := [];
    }

    method Walk(e: Expr)
      requires Valid()
      modifies this
      ensures Valid() && Now() == Visit(old(Now()), e, wanted)
      decreases e
    {
      match e
      case Lic(name) =>
        if wanted(name) {
          if operators != [] {
            PrintOperators();
          }
          Print(Name(name));
          licenses := licenses + [name];
        }
      case And(l, r) =>
        Walk(l);
        operators := operators + [Amp];
        Walk(r);
      case Or(l, r) =>
        Walk(l);
        operators := operators + [Bar];
        Walk(r);
      case Group(i) =>
        operators := operators + [Open];
        Walk(i);
        Print(Close);
    }
  }

  method ManifestLicenses(e: Expr, wanted: string -> bool) returns (licensestr: string, licenses: seq<string>)
    ensures var s := Visit(State([], [], []), e, wanted); licensestr == ShowAll(s.printed) && licenses == s.licenses
  {
    var manifest := new ManifestVisitor(wanted);
    manifest.Walk(e);
    return manifest.licensestr, manifest.licenses;
  }
}
