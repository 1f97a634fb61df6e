/** What merging locked signatures yields, and that the written file reads back. */
module LockedSigsResults {
  import opened Wrappers
  import opened LockedSigs

  // ---- contents of the merge -----------------------------------------------------------

  /** The signature lines a file gives under type `t`; `v` is the value being read. */
  function Body(v: Option<string>, lines: seq<string>, t: string): seq<string>
    decreases |lines|
  {
    if lines == [] then []
    else
      var line, rest := lines[0], lines[1..];
      match v
      case Some(u) => if Continued(line) then (if u == t then [line] else []) + Body(v, rest, t) else Body(None, rest, t)
      case None => Body(if IsHeader(line) then Some(TypeOf(line)) else None, rest, t)
  }

  /** The types whose headers a file has, in order. */
  function Headers(v: Option<string>, lines: seq<string>): seq<string>
    decreases |lines|
  {
    if lines == [] then []
    else
      var line, rest := lines[0], lines[1..];
      if v.Some? then Headers(if Continued(line) then v else None, rest)
      else if IsHeader(line) then [TypeOf(line)] + Headers(Some(TypeOf(line)), rest)
      else Headers(None, rest)
  }

  /** The value being read after a line. */
  function Next(v: Option<string>, line: string): Option<string> {
    if v.Some? then (if Continued(line) then v else None) else if IsHeader(line) then Some(TypeOf(line)) else None
  }

  lemma BodyStep(v: Option<string>, lines: seq<string>, t: string)
    requires lines != []
    ensures Body(v, lines, t) == (if v == Some(t) && Continued(lines[0]) then [lines[0]] else []) + Body(Next(v, lines[0]), lines[1..], t)
  {
  }

  /** The lines of `ls` not in `seen`, each where it first occurs. */
  function FirstNew(ls: seq<string>, seen: seq<string>): seq<string> {
    if ls == [] then []
    else if ls[0] in seen then FirstNew(ls[1..], seen)
    else [ls[0]] + FirstNew(ls[1..], seen + [ls[0]])
  }

  function ForTasks(ls: seq<string>, copyTasks: seq<string>): seq<string> {
    if ls == [] then []
    else (if TaskOf(ls[0]).Some? && Wanted(copyTasks, TaskOf(ls[0]).value) then [ls[0]] else []) + ForTasks(ls[1..], copyTasks)
  }

  /** What a line adds under `t`. */
  function Here(v: Option<string>, line: string, t: string): seq<string> {
    if v == Some(t) && Continued(line) then [line] else []
  }

  /** The lines under the last header of `t` that is still to come, or all if none is. */
  function Final(v: Option<string>, lines: seq<string>, t: string): seq<string>
    decreases |lines|
  {
    if lines == [] || t !in Headers(v, lines) then Body(v, lines, t) else Final(Next(v, lines[0]), lines[1..], t)
  }

  /** The lines of `t` before that header. */
  function Earlier(v: Option<string>, lines: seq<string>, t: string): seq<string>
    decreases |lines|
  {
    if lines == [] || t !in Headers(v, lines) then [] else Here(v, lines[0], t) + Earlier(Next(v, lines[0]), lines[1..], t)
  }

  lemma {:induction false} EarlierAndFinal(v: Option<string>, lines: seq<string>, t: string)
    ensures Earlier(v, lines, t) + Final(v, lines, t) == Body(v, lines, t)
    decreases |lines|
  {
    if lines == [] || t !in Headers(v, lines) {
      assert [] + Body(v, lines, t) == Body(v, lines, t);
    } else {
      var v', rest := Next(v, lines[0]), lines[1..];
      BodyStep(v, lines, t);
      EarlierAndFinal(v', rest, t);
      Regroup(Here(v, lines[0], t), Earlier(v', rest, t), Final(v', rest, t));
    }
  }

  lemma HeadersStep(v: Option<string>, lines: seq<string>)
    requires lines != []
    ensures Headers(v, lines) == (if v.None? && IsHeader(lines[0]) then [TypeOf(lines[0])] else []) + Headers(Next(v, lines[0]), lines[1..])
  {
  }

  /** A type with one header has nothing before its last one. */
  lemma {:induction false} UniqueBody(v: Option<string>, lines: seq<string>, t: string)
    requires Distinct(Headers(v, lines)) && (v == Some(t) ==> t !in Headers(v, lines))
    ensures Final(v, lines, t) == Body(v, lines, t) && Earlier(v, lines, t) == []
    decreases |lines|
  {
    if lines != [] && t in Headers(v, lines) {
      var v', rest := Next(v, lines[0]), lines[1..];
      HeadersStep(v, lines);
      BodyStep(v, lines, t);
      if v.None? && IsHeader(lines[0]) {
        DistinctTail(TypeOf(lines[0]), Headers(v', rest));
      } else {
        assert Headers(v, lines) == Headers(v', rest);
      }
      UniqueBody(v', rest, t);
      assert [] + Body(v', rest, t) == Body(v', rest, t) && [] + Earlier(v', rest, t) == [];
    }
  }

  /** The main file: its types in order, one that has several headers several times, and under each the lines
      of its last header. */
  lemma {:induction false} MainContents(s: Main, lines: seq<string>, t: string)
    requires s.invalue.Some? ==> s.invalue.value in s.merged
    ensures var r := ReadMain(s, lines);
            && r.order == s.order + Headers(s.invalue, lines)
            && Lines(r.merged, t) == (if t in Headers(s.invalue, lines) then [] else Lines(s.merged, t)) + Final(s.invalue, lines, t)
            && (t in r.merged <==> t in s.merged || t in Headers(s.invalue, lines))
    decreases |lines|
  {
    if lines == [] {
      assert Lines(s.merged, t) + [] == Lines(s.merged, t) && s.order + [] == s.order;
    } else {
      var s' := MainStep(s, lines[0]);
      MainContents(s', lines[1..], t);
      HeadersStep(s.invalue, lines);
      BodyStep(s.invalue, lines, t);
      MainOrderStep(s, lines[0], Headers(s'.invalue, lines[1..]));
      Regroup(Lines(s.merged, t), Here(s.invalue, lines[0], t), Body(s'.invalue, lines[1..], t));
    }
  }

  lemma MainOrderStep(s: Main, line: string, rest: seq<string>)
    ensures MainStep(s, line).order + rest == s.order + ((if s.invalue.None? && IsHeader(line) then [TypeOf(line)] else []) + rest)
  {
  }

  /** The extra file on top: under each type the lines not there before, where they first occur. */
  lemma {:induction false} ExtraContents(copyTasks: seq<string>, s: Extra, lines: seq<string>, t: string)
    requires s.Extra? && ReadExtra(copyTasks, s, lines).Extra?
    requires s.invalue.Some? ==> s.invalue.value in s.merged
    ensures var r, added := ReadExtra(copyTasks, s, lines), FirstNew(Body(s.invalue, lines, t), Lines(s.merged, t));
            && Lines(r.merged, t) == Lines(s.merged, t) + added
            && (forall l | l in added :: TaskOf(l).Some?)
    decreases |lines|
  {
    if lines != [] {
      var line, rest := lines[0], lines[1..];
      var s' := ExtraStep(copyTasks, s, line);
      ExtraGoesOn(copyTasks, s, lines);
      ExtraContents(copyTasks, s', rest, t);
      BodyStep(s.invalue, lines, t);
      var tail := Body(s'.invalue, rest, t);
      if s.invalue == Some(t) && Continued(line) {
        FirstNewCons(line, tail, Lines(s.merged, t));
        if line !in Lines(s.merged, t) {
          var more := FirstNew(tail, Lines(s.merged, t) + [line]);
          assert Lines(s.merged, t) + [line] + more == Lines(s.merged, t) + ([line] + more);
        }
      } else {
        assert [] + tail == tail;
        assert Lines(s'.merged, t) == Lines(s.merged, t);
      }
    }
  }

  lemma ExtraGoesOn(copyTasks: seq<string>, s: Extra, lines: seq<string>)
    requires s.Extra? && lines != [] && ReadExtra(copyTasks, s, lines).Extra?
    ensures var s' := ExtraStep(copyTasks, s, lines[0]);
            s'.Extra? && ReadExtra(copyTasks, s, lines) == ReadExtra(copyTasks, s', lines[1..]) && s'.invalue == Next(s.invalue, lines[0])
  {
    var s' := ExtraStep(copyTasks, s, lines[0]);
    if s'.BadLine? {
      BadLineStays(copyTasks, s'.line, lines[1..]);
    }
  }

  lemma FirstNewCons(l: string, ls: seq<string>, seen: seq<string>)
    ensures FirstNew([l] + ls, seen) == if l in seen then FirstNew(ls, seen) else [l] + FirstNew(ls, seen + [l])
  {
    assert ([l] + ls)[1..] == ls;
  }

  /** What is there once the new ones of `ls` are added. */
  function AddUp(seen: seq<string>, ls: seq<string>): seq<string> {
    seen + FirstNew(ls, seen)
  }

  lemma AddUpCons(l: string, ls: seq<string>, seen: seq<string>)
    ensures AddUp(seen, [l] + ls) == if l in seen then AddUp(seen, ls) else AddUp(seen + [l], ls)
  {
    FirstNewCons(l, ls, seen);
    if l !in seen {
      Regroup(seen, [l], FirstNew(ls, seen + [l]));
    }
  }

  /** One line of the extra file, before a later header of `t`. */
  lemma AddUpStep(copyTasks: seq<string>, s: Extra, line: string, t: string, ls: seq<string>)
    requires s.Extra? && ExtraStep(copyTasks, s, line).Extra?
    ensures AddUp(Lines(s.merged, t), Here(s.invalue, line, t) + ls) == AddUp(Lines(ExtraStep(copyTasks, s, line).merged, t), ls)
  {
    if Here(s.invalue, line, t) != [] {
      AddUpCons(line, ls, Lines(s.merged, t));
    } else {
      assert [] + ls == ls;
    }
  }

  /** The lines to copy: under each type what its last header adds to all that was there before it. */
  lemma {:induction false} CopyContents(copyTasks: seq<string>, s: Extra, lines: seq<string>, t: string)
    requires s.Extra? && ReadExtra(copyTasks, s, lines).Extra?
    requires s.invalue.Some? ==> s.invalue.value in s.merged && s.invalue.value in s.tocopy
    ensures var r, seen := ReadExtra(copyTasks, s, lines), AddUp(Lines(s.merged, t), Earlier(s.invalue, lines, t));
            Lines(r.tocopy, t) == (if t in Headers(s.invalue, lines) then [] else Lines(s.tocopy, t))
                                  + ForTasks(FirstNew(Final(s.invalue, lines, t), seen), copyTasks)
    decreases |lines|
  {
    if lines == [] {
      assert Lines(s.tocopy, t) + [] == Lines(s.tocopy, t);
    } else {
      var s' := ExtraStep(copyTasks, s, lines[0]);
      ExtraGoesOn(copyTasks, s, lines);
      CopyContents(copyTasks, s', lines[1..], t);
      HeadersStep(s.invalue, lines);
      if t in Headers(s.invalue, lines) {
        AddUpStep(copyTasks, s, lines[0], t, Earlier(s'.invalue, lines[1..], t));
      } else {
        BodyStep(s.invalue, lines, t);
        CopyStep(copyTasks, s, lines[0], t, Body(s'.invalue, lines[1..], t));
        NothingAdded(Lines(s.merged, t));
        NothingAdded(Lines(s'.merged, t));
      }
    }
  }

  lemma NothingAdded(seen: seq<string>)
    ensures AddUp(seen, []) == seen
  {
  }

  lemma {:induction false} CopyOrder(copyTasks: seq<string>, s: Extra, lines: seq<string>)
    requires s.Extra? && ReadExtra(copyTasks, s, lines).Extra? && (forall t :: t in s.copyOrder <==> t in s.tocopy)
    requires s.invalue.Some? ==> s.invalue.value in s.merged && s.invalue.value in s.tocopy
    ensures ReadExtra(copyTasks, s, lines).copyOrder == NewTypes(Headers(s.invalue, lines), s.copyOrder)
    decreases |lines|
  {
    if lines != [] {
      var s' := ExtraStep(copyTasks, s, lines[0]);
      ExtraGoesOn(copyTasks, s, lines);
      CopyOrder(copyTasks, s', lines[1..]);
      if s.invalue.None? && IsHeader(lines[0]) {
        assert Headers(None, lines)[1..] == Headers(s'.invalue, lines[1..]);
      }
    }
  }

  /** One line of the extra file, no header of `t`: what it adds under `t` comes before what the lines after
      it add. */
  lemma CopyStep(copyTasks: seq<string>, s: Extra, line: string, t: string, tail: seq<string>)
    requires s.Extra? && ExtraStep(copyTasks, s, line).Extra?
    requires s.invalue.None? && IsHeader(line) ==> TypeOf(line) != t
    ensures var s' := ExtraStep(copyTasks, s, line);
            Lines(s.tocopy, t) + ForTasks(FirstNew(Here(s.invalue, line, t) + tail, Lines(s.merged, t)), copyTasks)
            == Lines(s'.tocopy, t) + ForTasks(FirstNew(tail, Lines(s'.merged, t)), copyTasks)
  {
    if s.invalue == Some(t) && Continued(line) {
      FirstNewCons(line, tail, Lines(s.merged, t));
      if line !in Lines(s.merged, t) {
        CopyOne(copyTasks, line, Lines(s.tocopy, t), FirstNew(tail, Lines(s.merged, t) + [line]));
      }
    } else {
      assert [] + tail == tail;
    }
  }

  lemma CopyOne(copyTasks: seq<string>, line: string, before: seq<string>, more: seq<string>)
    ensures before + ForTasks([line] + more, copyTasks)
         == before + (if TaskOf(line).Some? && Wanted(copyTasks, TaskOf(line).value) then [line] else []) + ForTasks(more, copyTasks)
  {
    assert ([line] + more)[1..] == more;
  }

  /** New types are appended in the order of their headers. */
  function NewTypes(headers: seq<string>, order: seq<string>): seq<string> {
    if headers == [] then order else NewTypes(headers[1..], if headers[0] in order then order else order + [headers[0]])
  }

  lemma {:induction false} ExtraOrder(copyTasks: seq<string>, s: Extra, lines: seq<string>)
    requires s.Extra? && ReadExtra(copyTasks, s, lines).Extra? && (forall t :: t in s.order <==> t in s.merged)
    requires s.invalue.Some? ==> s.invalue.value in s.merged
    ensures ReadExtra(copyTasks, s, lines).order == NewTypes(Headers(s.invalue, lines), s.order)
    decreases |lines|
  {
    if lines != [] {
      var line, rest := lines[0], lines[1..];
      var s' := ExtraStep(copyTasks, s, line);
      if s'.BadLine? {
        BadLineStays(copyTasks, line, rest);
      } else {
        ExtraOrder(copyTasks, s', rest);
        if s.invalue.None? && IsHeader(line) {
          assert Headers(None, lines)[1..] == Headers(s'.invalue, rest);
        }
      }
    }
  }

  lemma MainKeysAre(main: seq<string>)
    ensures var m := ReadMain(START, main); m.order == Headers(None, main) && forall u :: u in m.order <==> u in m.merged
  {
    MainContents(START, main, "");
    var m := ReadMain(START, main);
    assert [] + Headers(None, main) == Headers(None, main);
    forall u
      ensures u in m.order <==> u in m.merged
    {
      MainContents(START, main, u);
    }
  }

  lemma MainLines(main: seq<string>, t: string)
    ensures Lines(ReadMain(START, main).merged, t) == Final(None, main, t)
  {
    MainContents(START, main, t);
    assert [] + Final(None, main, t) == Final(None, main, t);
  }

  /** Merging two files: the types of the main file, then the new ones; under each type the lines of its last
      header in the main file, then the extra lines not among them, each where it first occurs. To copy are,
      of the lines its last header in the extra file adds, those whose task is wanted. */
  lemma MergedContents(copyTasks: seq<string>, main: seq<string>, extra: seq<string>, t: string)
    requires Merge(copyTasks, main, extra).Extra?
    ensures var r, kept := Merge(copyTasks, main, extra), Final(None, main, t);
            && r.order == NewTypes(Headers(None, extra), Headers(None, main))
            && Lines(r.merged, t) == AddUp(kept, Body(None, extra, t))
            && r.copyOrder == NewTypes(Headers(None, extra), [])
            && Lines(r.tocopy, t) == ForTasks(FirstNew(Final(None, extra, t), AddUp(kept, Earlier(None, extra, t))), copyTasks)
  {
    MainLines(main, t);
    MainKeysAre(main);
    var m := ReadMain(START, main);
    var s := Extra(None, m.merged, m.order, map[], []);
    ExtraContents(copyTasks, s, extra, t);
    ExtraOrder(copyTasks, s, extra);
    CopyContents(copyTasks, s, extra, t);
    CopyOrder(copyTasks, s, extra);
    var copied := ForTasks(FirstNew(Final(None, extra, t), AddUp(Lines(m.merged, t), Earlier(None, extra, t))), copyTasks);
    assert [] + copied == copied;
  }

  /** With one header for each type the merged lines are those of both files, and to copy are the added lines
      whose task is wanted. */
  lemma MergedUnique(copyTasks: seq<string>, main: seq<string>, extra: seq<string>, t: string)
    requires Distinct(Headers(None, main)) && Distinct(Headers(None, extra)) && Merge(copyTasks, main, extra).Extra?
    ensures var r, added := Merge(copyTasks, main, extra), FirstNew(Body(None, extra, t), Body(None, main, t));
            && Lines(r.merged, t) == Body(None, main, t) + added
            && Lines(r.tocopy, t) == ForTasks(added, copyTasks)
  {
    MergedContents(copyTasks, main, extra, t);
    UniqueBody(None, main, t);
    UniqueBody(None, extra, t);
    NothingAdded(Body(None, main, t));
  }

  // ---- reading back --------------------------------------------------------------------

  /** A type name as the scans produce it. */
  ghost predicate Clean(t: string) {
    "t-" <= t && '=' !in t && !IsSpace(t[|t| - 1])
  }

  lemma {:induction false} RstripEnds(s: string)
    ensures Rstrip(s) <= s && (Rstrip(s) != "" ==> !IsSpace(Rstrip(s)[|Rstrip(s)| - 1]))
    ensures forall i | |Rstrip(s)| <= i < |s| :: IsSpace(s[i])
  {
    if s != "" && IsSpace(s[|s| - 1]) {
      RstripEnds(s[..|s| - 1]);
    }
  }

  lemma TypesAreClean(line: string)
    requires IsHeader(line)
    ensures Clean(TypeOf(line))
  {
    var s := line[|PREFIX|..];
    assert s[0] == line[|PREFIX|] == (PREFIX + "t-")[|PREFIX|] == 't';
    assert s[1] == line[|PREFIX| + 1] == (PREFIX + "t-")[|PREFIX| + 1] == '-';
    var b := Before(s, '=');
    BeforeFits(s, '=');
    RstripEnds(b);
    assert |b| < |s| ==> s[|b|] == '=';
    assert |b| >= 2;
    assert b[0] == s[0] && b[1] == s[1] && !IsSpace('-');
    var t := Rstrip(b);
    assert |t| >= 2 && t[0] == b[0] && t[1] == b[1];
  }

  lemma {:induction false} BeforeStops(a: string, c: char, rest: string)
    requires c !in a
    ensures Before(a + [c] + rest, c) == a
  {
    if a == "" {
      assert ("" + [c] + rest)[0] == c;
    } else {
      assert (a + [c] + rest)[1..] == a[1..] + [c] + rest;
      BeforeStops(a[1..], c, rest);
    }
  }

  lemma HeaderReadsBack(t: string)
    requires Clean(t)
    ensures IsHeader(HeaderLine(t)) && TypeOf(HeaderLine(t)) == t
  {
    var line := HeaderLine(t);
    assert line[..|PREFIX| + 2] == PREFIX + "t-" by {
      assert t == "t-" + t[2..];
    }
    assert line[|PREFIX|..] == (t + " ") + ['='] + " \"\\\n";
    BeforeStops(t + " ", '=', " \"\\\n");
    assert (t + " ")[..|t + " "| - 1] == t;
    assert Rstrip(t) == t;
  }

  ghost predicate Readable(types: seq<string>, sigs: map<string, seq<string>>) {
    && (forall t | t in types :: Clean(t))
    && (forall t, l | t in types && t in sigs && l in sigs[t] :: Continued(l))
  }

  lemma {:induction false} ReadAppend(s: Main, a: seq<string>, b: seq<string>)
    ensures ReadMain(s, a + b) == ReadMain(ReadMain(s, a), b)
    decreases |a|
  {
    if a == [] {
      assert a + b == b;
    } else {
      assert (a + b)[1..] == a[1..] + b;
      ReadAppend(MainStep(s, a[0]), a[1..], b);
    }
  }

  lemma {:induction false} ReadBody(s: Main, t: string, ls: seq<string>)
    requires s.invalue == Some(t) && t in s.merged && forall l | l in ls :: Continued(l)
    ensures ReadMain(s, ls) == s.(merged := s.merged[t := s.merged[t] + ls])
    decreases |ls|
  {
    if ls == [] {
      assert s.merged[t] + [] == s.merged[t];
      assert s.merged[t := s.merged[t] + ls] == s.merged;
    } else {
      assert Continued(ls[0]);
      var s' := MainStep(s, ls[0]);
      assert s' == s.(merged := s.merged[t := s.merged[t] + [ls[0]]]);
      ReadBody(s', t, ls[1..]);
      assert s.merged[t] + [ls[0]] + ls[1..] == s.merged[t] + ls;
      assert s'.merged[t := s.merged[t] + ls] == s.merged[t := s.merged[t] + ls];
    }
  }

  lemma ReadBlock(s: Main, t: string, ls: seq<string>)
    requires s.invalue == None && Clean(t) && forall l | l in ls :: Continued(l)
    ensures ReadMain(s, [HeaderLine(t)] + ls + [FOOTER]) == Main(None, s.merged[t := ls], s.order + [t])
  {
    HeaderReadsBack(t);
    var s1 := Main(Some(t), s.merged[t := []], s.order + [t]);
    ReadAppend(s, [HeaderLine(t)] + ls, [FOOTER]);
    ReadAppend(s, [HeaderLine(t)], ls);
    assert MainStep(s, HeaderLine(t)) == s1 && [HeaderLine(t)][1..] == [];
    assert ReadMain(s, [HeaderLine(t)]) == s1;
    ReadBody(s1, t, ls);
    assert s1.merged[t] + ls == ls;
    assert s1.merged[t := s1.merged[t] + ls] == s.merged[t := ls];
    assert FOOTER[|FOOTER| - 2..] == "\"\n";
    assert [FOOTER][1..] == [];
  }

  function NonEmptySigs(types: seq<string>, sigs: map<string, seq<string>>): map<string, seq<string>> {
    map t | t in types && Lines(sigs, t) != [] :: sigs[t]
  }

  /** The state machine that reads a main file, run over a written file, gives back the signatures, minus
      the types without lines. */
  lemma {:induction false} WrittenReadsBack(types: seq<string>, sigs: map<string, seq<string>>)
    requires Readable(types, sigs)
    ensures ReadMain(START, Written(types, sigs)) == Main(None, NonEmptySigs(types, sigs), NonEmpty(types, sigs))
    decreases |types|
  {
    if types == [] {
      assert NonEmptySigs(types, sigs) == map[];
    } else {
      var n := |types| - 1;
      var init, t := types[..n], types[n];
      ReadableInit(types, sigs);
      WrittenReadsBack(init, sigs);
      if Lines(sigs, t) != [] {
        ReadAppend(START, Written(init, sigs), [HeaderLine(t)] + sigs[t] + [FOOTER]);
        ReadBlock(ReadMain(START, Written(init, sigs)), t, sigs[t]);
      } else {
        assert Written(types, sigs) == Written(init, sigs);
      }
    }
  }

  lemma ReadableInit(types: seq<string>, sigs: map<string, seq<string>>)
    requires Readable(types, sigs) && types != []
    ensures var init, t := types[..|types| - 1], types[|types| - 1];
            && Readable(init, sigs)
            && NonEmptySigs(types, sigs) ==
               if Lines(sigs, t) != [] then NonEmptySigs(init, sigs)[t := sigs[t]] else NonEmptySigs(init, sigs)
  {
    var init, t := types[..|types| - 1], types[|types| - 1];
    assert forall u :: u in types <==> u in init || u == t;
  }

  /** Everything a scan stores can be written and read back. */
  ghost predicate Storable(order: seq<string>, merged: map<string, seq<string>>) {
    && (forall t | t in order :: Clean(t))
    && (forall t, l | t in merged && l in merged[t] :: Continued(l))
  }

  lemma {:induction false} MainStorable(s: Main, lines: seq<string>)
    requires Storable(s.order, s.merged)
    ensures var r := ReadMain(s, lines); Storable(r.order, r.merged)
    decreases |lines|
  {
    if lines != [] {
      if s.invalue.None? && IsHeader(lines[0]) {
        TypesAreClean(lines[0]);
      }
      MainStorable(MainStep(s, lines[0]), lines[1..]);
    }
  }

  lemma {:induction false} ExtraStorable(copyTasks: seq<string>, s: Extra, lines: seq<string>)
    requires s.Extra? ==> Storable(s.order, s.merged)
    ensures var r := ReadExtra(copyTasks, s, lines); r.Extra? ==> Storable(r.order, r.merged)
    decreases |lines|
  {
    if lines != [] {
      if s.Extra? && s.invalue.None? && IsHeader(lines[0]) {
        TypesAreClean(lines[0]);
      }
      ExtraStorable(copyTasks, ExtraStep(copyTasks, s, lines[0]), lines[1..]);
    }
  }

  /** Reading the merged file back as a main file gives the merged signatures minus empty types, in the
      same order, whatever the two input files were. */
  lemma MergedFileReadsBack(copyTasks: seq<string>, main: seq<string>, extra: seq<string>)
    requires Merge(copyTasks, main, extra).Extra?
    ensures var r := Merge(copyTasks, main, extra);
            ReadMain(START, Written(r.order, r.merged) + [TypesLine(NonEmpty(r.order, r.merged))])
            == Main(None, NonEmptySigs(r.order, r.merged), NonEmpty(r.order, r.merged))
  {
    var r := Merge(copyTasks, main, extra);
    MainStorable(START, main);
    var m := ReadMain(START, main);
    ExtraStorable(copyTasks, Extra(None, m.merged, m.order, map[], []), extra);
    WrittenReadsBack(r.order, r.merged);
    var last := TypesLine(NonEmpty(r.order, r.merged));
    ReadAppend(START, Written(r.order, r.merged), [last]);
    assert last[|PREFIX|] == 'T';
    assert !IsHeader(last) by {
      assert (PREFIX + "t-")[|PREFIX|] == 't';
    }
  }

  // ---- what is lost ----------------------------------------------------------------------

  /** No signature of a type is lost if and only if none stands before its last header. */
  lemma NothingLostIff(main: seq<string>, t: string)
    ensures Lines(ReadMain(START, main).merged, t) == Body(None, main, t) <==> Earlier(None, main, t) == []
  {
    MainLines(main, t);
    EarlierAndFinal(None, main, t);
    var e, l := Earlier(None, main, t), Final(None, main, t);
    assert |e + l| == |e| + |l|;
    if e == [] {
      assert e + l == l;
    }
  }

  /** One type with two headers: the signature under the first is gone. */
  lemma SecondHeaderDrops(sig: string, other: string)
    requires Continued(sig) && Continued(other)
    ensures var main := [HeaderLine("t-a"), sig, FOOTER, HeaderLine("t-a"), other, FOOTER];
            && Body(None, main, "t-a") == [sig, other]
            && Lines(ReadMain(START, main).merged, "t-a") == [other]
  {
    TwoBlocks("t-a", sig, other);
  }

  lemma TwoBlocks(t: string, sig: string, other: string)
    requires Clean(t) && Continued(sig) && Continued(other)
    ensures var main := [HeaderLine(t), sig, FOOTER, HeaderLine(t), other, FOOTER];
            && Body(None, main, t) == [sig, other]
            && Lines(ReadMain(START, main).merged, t) == [other]
  {
    var a, b := [HeaderLine(t)] + [sig] + [FOOTER], [HeaderLine(t)] + [other] + [FOOTER];
    ReadBlock(START, t, [sig]);
    ReadBlock(ReadMain(START, a), t, [other]);
    ReadAppend(START, a, b);
    BlockBody(t, sig, b);
    BlockBody(t, other, []);
    assert a + b == [HeaderLine(t), sig, FOOTER, HeaderLine(t), other, FOOTER] && b + [] == b;
    assert [sig] + ([other] + []) == [sig, other];
  }

  lemma BlockBody(t: string, sig: string, rest: seq<string>)
    requires Clean(t) && Continued(sig)
    ensures Body(None, [HeaderLine(t)] + [sig] + [FOOTER] + rest, t) == [sig] + Body(None, rest, t)
  {
    HeaderReadsBack(t);
    assert !Continued(FOOTER) by {
      assert FOOTER[|FOOTER| - 2..] == "\"\n";
    }
    var all := [HeaderLine(t)] + [sig] + [FOOTER] + rest;
    assert all[1..] == [sig] + [FOOTER] + rest && all[1..][1..] == [FOOTER] + rest && all[1..][1..][1..] == rest;
    BodyStep(None, all, t);
    BodyStep(Some(t), all[1..], t);
    BodyStep(Some(t), all[1..][1..], t);
  }
}
