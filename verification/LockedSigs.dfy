/** copy_buildsystem.py: merging two locked-signature files and writing the result. */
module LockedSigs {
  import opened Wrappers

  // ---- lines ---------------------------------------------------------------------------

  function Rstrip(s: string): string {
    if s != "" && IsSpace(s[|s| - 1]) then Rstrip(s[..|s| - 1]) else s
  }

  function Lstrip(s: string): string {
    if s != "" && IsSpace(s[0]) then Lstrip(s[1..]) else s
  }

  /** The text before the first `c`, or all of it. */
  function Before(s: string, c: char): string {
    if s == "" || s[0] == c then "" else [s[0]] + Before(s[1..], c)
  }

  /** `s.split(c)`. */
  function Split(s: string, c: char): (parts: seq<string>)
    ensures parts != []
    decreases |s|
  {
    var first := Before(s, c);
    BeforeFits(s, c);
    if |first| == |s| then [s] else [first] + Split(s[|first| + 1..], c)
  }

  lemma {:induction false} BeforeFits(s: string, c: char)
    ensures Before(s, c) <= s && c !in Before(s, c)
    ensures |Before(s, c)| < |s| ==> s[|Before(s, c)|] == c
  {
    if s != "" && s[0] != c {
      BeforeFits(s[1..], c);
    }
  }

  /** `line.endswith('\\\n')`: the value goes on. */
  predicate Continued(line: string) {
    |line| >= 2 && line[|line| - 2..] == "\\\n"
  }

  const PREFIX: string := "SIGGEN_LOCKEDSIGS_"

  predicate IsHeader(line: string) {
    PREFIX + "t-" <= line
  }

  /** `line[18:].split('=', 1)[0].rstrip()`. */
  function TypeOf(line: string): string
    requires IsHeader(line)
  {
    Rstrip(Before(line[|PREFIX|..], '='))
  }

  // ---- the two scans -------------------------------------------------------------------

  /** What the scan of the main file has so far. */
  datatype Main = Main(invalue: Option<string>, merged: map<string, seq<string>>, order: seq<string>)

  function Lines(m: map<string, seq<string>>, t: string): seq<string> {
    if t in m then m[t] else []
  }

  function MainStep(s: Main, line: string): Main {
    match s.invalue
    case Some(t) =>
      if Continued(line) then s.(merged := s.merged[t := Lines(s.merged, t) + [line]]) else s.(invalue := None)
    case None =>
      if IsHeader(line) then
        var t := TypeOf(line);
        Main(Some(t), s.merged[t := []], s.order + [t])
      else s
  }

  function ReadMain(s: Main, lines: seq<string>): Main
    decreases |lines|
  {
    if lines == [] then s else ReadMain(MainStep(s, lines[0]), lines[1..])
  }

  /** The scan of the extra file also selects lines to copy; `order` holds the keys of `merged` and
      `copyOrder` those of `tocopy` as they were first stored. */
  datatype Extra = Extra(invalue: Option<string>, merged: map<string, seq<string>>, order: seq<string>,
                         tocopy: map<string, seq<string>>, copyOrder: seq<string>)
                 | BadLine(line: string)

  /** The second field of a signature line, as `target, task = line.strip().split(':')[:2]` reads it. */
  function TaskOf(line: string): Option<string> {
    var parts := Split(Lstrip(Rstrip(line)), ':');
    if |parts| < 2 then None else Some(parts[1])
  }

  predicate Wanted(copyTasks: seq<string>, task: string) {
    copyTasks == [] || task in copyTasks
  }

  function ExtraStep(copyTasks: seq<string>, s: Extra, line: string): Extra {
    if s.BadLine? then s
    else match s.invalue {
      case Some(t) =>
        if !Continued(line) then s.(invalue := None)
        else if line in Lines(s.merged, t) then s
        else
          var task := TaskOf(line);
          if task.None? then BadLine(line)
          else
            s.(tocopy := if Wanted(copyTasks, task.value) then s.tocopy[t := Lines(s.tocopy, t) + [line]] else s.tocopy,
               merged := s.merged[t := Lines(s.merged, t) + [line]])
      case None =>
        if !IsHeader(line) then s
        else
          var t := TypeOf(line);
          Extra(Some(t),
                if t in s.merged then s.merged else s.merged[t := []],
                if t in s.merged then s.order else s.order + [t],
                s.tocopy[t := []],
                if t in s.tocopy then s.copyOrder else s.copyOrder + [t])
    }
  }

  function ReadExtra(copyTasks: seq<string>, s: Extra, lines: seq<string>): Extra
    decreases |lines|
  {
    if lines == [] then s else ReadExtra(copyTasks, ExtraStep(copyTasks, s, lines[0]), lines[1..])
  }

  const START: Main := Main(None, map[], [])

  /** Both scans. */
  function Merge(copyTasks: seq<string>, main: seq<string>, extra: seq<string>): Extra {
    var m := ReadMain(START, main);
    ReadExtra(copyTasks, Extra(None, m.merged, m.order, map[], []), extra)
  }

  // ---- writing -------------------------------------------------------------------------

  function HeaderLine(t: string): string {
    PREFIX + t + " = \"\\\n"
  }

  const FOOTER: string := "    \"\n"

  function Written(types: seq<string>, sigs: map<string, seq<string>>): seq<string> {
    if types == [] then []
    else
      var n := |types| - 1;
      Written(types[..n], sigs) +
      if Lines(sigs, types[n]) == [] then [] else [HeaderLine(types[n])] + sigs[types[n]] + [FOOTER]
  }

  function NonEmpty(types: seq<string>, sigs: map<string, seq<string>>): seq<string> {
    if types == [] then []
    else
      var n := |types| - 1;
      NonEmpty(types[..n], sigs) + if Lines(sigs, types[n]) == [] then [] else [types[n]]
  }

  function Joined(ts: seq<string>): string {
    if ts == [] then "" else if |ts| == 1 then ts[0] else Joined(ts[..|ts| - 1]) + " " + ts[|ts| - 1]
  }

  function TypesLine(ts: seq<string>): string {
    PREFIX + "TYPES = \"" + Joined(ts) + "\"\n"
  }

  method WriteSigsFile(types: seq<string>, sigs: map<string, seq<string>>) returns (f: seq<string>)
    requires forall t | t in types :: t in sigs
    ensures f == Written(types, sigs) + [TypesLine(NonEmpty(types, sigs))]
  {
    f := [];
    var fulltypes := [];
    for i := 0 to |types|
      invariant f == Written(types[..i], sigs) && fulltypes == NonEmpty(types[..i], sigs)
    {
      assert types[..i + 1][..i] == types[..i];
      var lines := sigs[types[i]];
      if lines != [] {
        f := f + [HeaderLine(types[i])] + lines + [FOOTER];
        fulltypes := fulltypes + [types[i]];
      }
    }
    assert types[..|types|] == types;
    f := f + [TypesLine(fulltypes)];
  }

  /** The order lists are the keys, and the value being read has its entries. */
  ghost predicate MainKeys(s: Main) {
    (forall t :: t in s.order <==> t in s.merged) && (s.invalue.Some? ==> s.invalue.value in s.merged)
  }

  ghost predicate ExtraKeys(s: Extra) {
    s.Extra? ==>
      && (forall t :: t in s.order <==> t in s.merged)
      && (forall t :: t in s.copyOrder <==> t in s.tocopy)
      && (s.invalue.Some? ==> s.invalue.value in s.merged && s.invalue.value in s.tocopy)
  }

  method ScanMain(main: seq<string>) returns (merged: map<string, seq<string>>, archOrder: seq<string>)
    ensures merged == ReadMain(START, main).merged && archOrder == ReadMain(START, main).order
    ensures forall t :: t in archOrder <==> t in merged
  {
    var invalue: Option<string> := None;
    merged, archOrder := map[], [];
    for i := 0 to |main|
      invariant ReadMain(Main(invalue, merged, archOrder), main[i..]) == ReadMain(START, main)
      invariant MainKeys(Main(invalue, merged, archOrder))
    {
      var line := main[i];
      assert main[i..][1..] == main[i + 1..];
      if invalue.Some? {
        if Continued(line) {
          merged := merged[invalue.value := merged[invalue.value] + [line]];
        } else {
          invalue := None;
        }
      } else if IsHeader(line) {
        invalue := Some(TypeOf(line));
        merged := merged[invalue.value := []];
        archOrder := archOrder + [invalue.value];
      }
    }
  }

  method ScanExtra(copyTasks: seq<string>, extra: seq<string>, merged0: map<string, seq<string>>, archOrder0: seq<string>) returns (s: Extra)
    requires forall t :: t in archOrder0 <==> t in merged0
    ensures s == ReadExtra(copyTasks, Extra(None, merged0, archOrder0, map[], []), extra)
    ensures ExtraKeys(s)
  {
    var invalue: Option<string> := None;
    var merged, archOrder := merged0, archOrder0;
    var tocopy: map<string, seq<string>>, copyOrder: seq<string> := map[], [];
    for i := 0 to |extra|
      invariant ReadExtra(copyTasks, Extra(invalue, merged, archOrder, tocopy, copyOrder), extra[i..])
             == ReadExtra(copyTasks, Extra(None, merged0, archOrder0, map[], []), extra)
      invariant ExtraKeys(Extra(invalue, merged, archOrder, tocopy, copyOrder))
    {
      var line := extra[i];
      assert extra[i..][1..] == extra[i + 1..];
      if invalue.Some? {
        var t := invalue.value;
        if Continued(line) {
          if line !in merged[t] {
            var task := TaskOf(line);
            if task.None? {
              BadLineStays(copyTasks, line, extra[i + 1..]);
              return BadLine(line);
            }
            if Wanted(copyTasks, task.value) {
              tocopy := tocopy[t := tocopy[t] + [line]];
            }
            merged := merged[t := merged[t] + [line]];
          }
        } else {
          invalue := None;
        }
      } else if IsHeader(line) {
        var t := TypeOf(line);
        invalue := Some(t);
        if t !in merged {
          merged := merged[t := []];
          archOrder := archOrder + [t];
        }
        if t !in tocopy {
          copyOrder := copyOrder + [t];
        }
        tocopy := tocopy[t := []];
      }
    }
    s := Extra(invalue, merged, archOrder, tocopy, copyOrder);
  }

  lemma {:induction false} BadLineStays(copyTasks: seq<string>, line: string, lines: seq<string>)
    ensures ReadExtra(copyTasks, BadLine(line), lines) == BadLine(line)
    decreases |lines|
  {
    if lines != [] {
      BadLineStays(copyTasks, line, lines[1..]);
    }
  }

  method MergeLockedsigs(copyTasks: seq<string>, main: seq<string>, extra: seq<string>)
    returns (s: Extra, mergedOutput: seq<string>, copyOutput: seq<string>)
    ensures s == Merge(copyTasks, main, extra)
    ensures s.Extra? ==> mergedOutput == Written(s.order, s.merged) + [TypesLine(NonEmpty(s.order, s.merged))]
    ensures s.Extra? ==> copyOutput == Written(s.copyOrder, s.tocopy) + [TypesLine(NonEmpty(s.copyOrder, s.tocopy))]
  {
    var merged, archOrder := ScanMain(main);
    s := ScanExtra(copyTasks, extra, merged, archOrder);
    mergedOutput, copyOutput := [], [];
    if s.Extra? {
      copyOutput := WriteSigsFile(s.copyOrder, s.tocopy);
      mergedOutput := WriteSigsFile(s.order, s.merged);
    }
  }
}
