/** What `manifest_licenses` prints depends on the tokens of the text only, not on the tree the parser makes
    of them; and with nothing filtered the printed text has the tokens of the text read. */
module ManifestTokens {
  import opened License
  import opened Manifest
  import opened ManifestResults

  /** What the visitor does at one token. */
  function Meet(s: State, t: Token, wanted: string -> bool): State {
    match t
    case Name(word) => Visit(s, Lic(word), wanted)
    case Amp => s.(operators := s.operators + [Amp])
    case Bar => s.(operators := s.operators + [Bar])
    case Open => s.(operators := s.operators + [Open])
    case Close => s.(printed := s.printed + [Close])
  }

  function MeetAll(s: State, ts: seq<Token>, wanted: string -> bool): State {
    if ts == [] then s else Meet(MeetAll(s, ts[..|ts| - 1], wanted), ts[|ts| - 1], wanted)
  }

  lemma {:induction false} MeetAppend(s: State, a: seq<Token>, b: seq<Token>, wanted: string -> bool)
    ensures MeetAll(s, a + b, wanted) == MeetAll(MeetAll(s, a, wanted), b, wanted)
  {
    if b == [] {
      assert a + b == a;
    } else {
      var n := |b| - 1;
      assert (a + b)[..|a + b| - 1] == a + b[..n] && (a + b)[|a + b| - 1] == b[n];
      MeetAppend(s, a, b[..n], wanted);
    }
  }

  lemma MeetOne(s: State, t: Token, wanted: string -> bool)
    ensures MeetAll(s, [t], wanted) == Meet(s, t, wanted)
  {
    assert [t][..0] == [] && MeetAll(s, [], wanted) == s;
  }

  lemma MeetThree(s: State, a: seq<Token>, t: Token, b: seq<Token>, wanted: string -> bool)
    ensures MeetAll(s, a + [t] + b, wanted) == MeetAll(Meet(MeetAll(s, a, wanted), t, wanted), b, wanted)
  {
    MeetAppend(s, a + [t], b, wanted);
    MeetAppend(s, a, [t], wanted);
    MeetOne(MeetAll(s, a, wanted), t, wanted);
  }

  /** The visitor does the same for every tree over the same tokens. */
  lemma {:induction false} VisitIsTokenwise(s: State, e: Expr, wanted: string -> bool)
    ensures Visit(s, e, wanted) == MeetAll(s, Yield(e), wanted)
    decreases e
  {
    match e
    case Lic(name) =>
      MeetOne(s, Name(name), wanted);
    case And(l, r) =>
      VisitIsTokenwise(s, l, wanted);
      VisitIsTokenwise(Meet(Visit(s, l, wanted), Amp, wanted), r, wanted);
      MeetThree(s, Yield(l), Amp, Yield(r), wanted);
    case Or(l, r) =>
      VisitIsTokenwise(s, l, wanted);
      VisitIsTokenwise(Meet(Visit(s, l, wanted), Bar, wanted), r, wanted);
      MeetThree(s, Yield(l), Bar, Yield(r), wanted);
    case Group(i) =>
      VisitIsTokenwise(Meet(s, Open, wanted), i, wanted);
      MeetAppend(s, [Open] + Yield(i), [Close], wanted);
      MeetAppend(s, [Open], Yield(i), wanted);
      MeetOne(s, Open, wanted);
      MeetOne(Visit(Meet(s, Open, wanted), i, wanted), Close, wanted);
  }

  /** However the parser groups the operators, the manifest is the same. */
  lemma GroupingIsUnseen(e: Expr, f: Expr, wanted: string -> bool)
    requires Yield(e) == Yield(f)
    ensures Visit(State([], [], []), e, wanted) == Visit(State([], [], []), f, wanted)
  {
    VisitIsTokenwise(State([], [], []), e, wanted);
    VisitIsTokenwise(State([], [], []), f, wanted);
  }

  // ---- from text to text -----------------------------------------------------------------

  lemma {:induction false} SpelledWords(es: seq<string>)
    requires Valid(es)
    ensures forall t | t in Spell(es) :: t.Name? ==> IsWord(t.word)
  {
    if es != [] {
      SpelledWords(es[..|es| - 1]);
    }
  }

  lemma {:induction false} YieldNames(e: Expr)
    ensures forall n | n in Names(e) :: Name(n) in Yield(e)
  {
    match e
    case Lic(_) =>
    case And(l, r) => YieldNames(l); YieldNames(r);
    case Or(l, r) => YieldNames(l); YieldNames(r);
    case Group(i) => YieldNames(i);
  }

  /** The whole way, for every text the scanner accepts and every tree over its tokens: with nothing filtered
      the printed text is accepted, has the same tokens, and every license of the text is listed in order. */
  lemma TextComesBack(text: string, e: Expr, wanted: string -> bool)
    requires Valid(Cut(text, "")) && Spell(Cut(text, "")) == Yield(e) && AllWanted(e, wanted)
    ensures var s := Visit(State([], [], []), e, wanted);
            && Valid(Cut(ShowAll(s.printed), ""))
            && Spell(Cut(ShowAll(s.printed), "")) == Spell(Cut(text, ""))
            && s.licenses == Names(e)
  {
    SpelledWords(Cut(text, ""));
    YieldNames(e);
    PrintingUndoesParsing(e, wanted);
  }
}
