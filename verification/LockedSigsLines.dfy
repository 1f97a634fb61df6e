/** What the merge takes from a single line, and the texts it writes. */
module LockedSigsLines {
  import opened Wrappers
  import opened LockedSigs
  import opened LockedSigsResults

  // ---- the task of a signature line ------------------------------------------------------

  predicate AllSpace(s: string) {
    forall i | 0 <= i < |s| :: IsSpace(s[i])
  }

  predicate NoSpaceOutside(s: string) {
    s != "" ==> !IsSpace(s[0]) && !IsSpace(s[|s| - 1])
  }

  lemma {:induction false} RstripIs(core: string, trail: string)
    requires AllSpace(trail) && (core != "" ==> !IsSpace(core[|core| - 1]))
    ensures Rstrip(core + trail) == core
  {
    if trail == "" {
      assert core + trail == core;
    } else {
      var n := |trail| - 1;
      assert (core + trail)[..|core + trail| - 1] == core + trail[..n];
      RstripIs(core, trail[..n]);
    }
  }

  lemma {:induction false} LstripIs(lead: string, core: string)
    requires AllSpace(lead) && (core != "" ==> !IsSpace(core[0]))
    ensures Lstrip(lead + core) == core
  {
    if lead == "" {
      assert lead + core == core;
    } else {
      assert (lead + core)[1..] == lead[1..] + core;
      LstripIs(lead[1..], core);
    }
  }

  lemma StripIs(lead: string, core: string, trail: string)
    requires AllSpace(lead) && AllSpace(trail) && NoSpaceOutside(core)
    ensures Lstrip(Rstrip(lead + core + trail)) == core
  {
    if core == "" {
      assert lead + core + trail == "" + (lead + trail);
      RstripIs("", lead + trail);
    } else {
      assert (lead + core)[|lead + core| - 1] == core[|core| - 1];
      RstripIs(lead + core, trail);
      LstripIs(lead, core);
    }
  }

  lemma SplitStep(first: string, c: char, rest: string)
    requires c !in first
    ensures Split(first + [c] + rest, c) == [first] + Split(rest, c)
  {
    BeforeStops(first, c, rest);
    assert (first + [c] + rest)[|first| + 1..] == rest;
  }

  lemma {:induction false} BeforeAll(s: string, c: char)
    requires c !in s
    ensures Before(s, c) == s
  {
    if s != "" {
      BeforeAll(s[1..], c);
    }
  }

  /** Between surrounding space stands the target, ":" and the task, which ends at the next ":" or with the text. */
  lemma TaskIs(lead: string, target: string, task: string, rest: string, trail: string)
    requires AllSpace(lead) && AllSpace(trail) && ':' !in target && ':' !in task && (rest != "" ==> rest[0] == ':')
    requires NoSpaceOutside(target + [':'] + (task + rest))
    ensures TaskOf(lead + (target + [':'] + (task + rest)) + trail) == Some(task)
  {
    StripIs(lead, target + [':'] + (task + rest), trail);
    SplitStep(target, ':', task + rest);
    if rest == "" {
      assert task + rest == task;
      BeforeAll(task, ':');
    } else {
      assert task + rest == task + [':'] + rest[1..];
      SplitStep(task, ':', rest[1..]);
    }
  }

  /** Without ":" there is no task, which ends the merge. */
  lemma NoTask(lead: string, core: string, trail: string)
    requires AllSpace(lead) && AllSpace(trail) && NoSpaceOutside(core) && ':' !in core
    ensures TaskOf(lead + core + trail) == None
  {
    StripIs(lead, core, trail);
    BeforeAll(core, ':');
  }

  /** These two are all lines there are. */
  lemma LineParts(line: string) returns (lead: string, core: string, trail: string)
    ensures line == lead + core + trail && AllSpace(lead) && AllSpace(trail) && NoSpaceOutside(core)
  {
    RstripEnds(line);
    var kept := Rstrip(line);
    trail := line[|kept|..];
    var n := LeadingSpace(kept);
    lead, core := kept[..n], kept[n..];
    assert kept == lead + core;
  }

  lemma {:induction false} LeadingSpace(s: string) returns (n: nat)
    ensures n <= |s| && AllSpace(s[..n]) && (n < |s| ==> !IsSpace(s[n]))
  {
    n := 0;
    if s != "" && IsSpace(s[0]) {
      var m := LeadingSpace(s[1..]);
      n := m + 1;
      assert s[..n] == [s[0]] + s[1..][..m];
    }
  }

  // ---- which lines are taken -------------------------------------------------------------

  /** A value goes on while its lines end in a backslash and a line feed. */
  lemma ContinuedIff(line: string)
    ensures Continued(line) <==> exists text :: line == text + ['\\', '\n']
  {
    assert "\\\n" == ['\\', '\n'];
    if Continued(line) {
      assert line == line[..|line| - 2] + ['\\', '\n'];
    }
  }

  lemma HeaderIff(line: string)
    ensures IsHeader(line) <==> exists rest :: line == "SIGGEN_LOCKEDSIGS_t-" + rest
  {
    assert PREFIX + "t-" == "SIGGEN_LOCKEDSIGS_t-";
    if IsHeader(line) {
      assert line == "SIGGEN_LOCKEDSIGS_t-" + line[|"SIGGEN_LOCKEDSIGS_t-"|..];
    }
  }

  predicate Copies(copyTasks: seq<string>, line: string) {
    TaskOf(line).Some? && (copyTasks != [] ==> exists task | task in copyTasks :: TaskOf(line) == Some(task))
  }

  /** Copied are the lines of the tasks asked for, or of all where none is asked for, in order. */
  lemma {:induction false} ForTasksPlaces(ls: seq<string>, copyTasks: seq<string>) returns (ix: seq<nat>)
    ensures Picks(ls, (line: string) => Copies(copyTasks, line), ix)
    ensures |ForTasks(ls, copyTasks)| == |ix| && forall k | 0 <= k < |ix| :: ForTasks(ls, copyTasks)[k] == ls[ix[k]]
  {
    ix := [];
    if ls != [] {
      var init, last := ls[..|ls| - 1], ls[|ls| - 1];
      assert ls == init + [last];
      ix := ForTasksPlaces(init, copyTasks);
      PicksGrow(init, last, (line: string) => Copies(copyTasks, line), ix);
      ForTasksAppend(init, last, copyTasks);
      ix := ix + if Copies(copyTasks, last) then [|init|] else [];
    }
  }

  lemma {:induction false} ForTasksAppend(ls: seq<string>, last: string, copyTasks: seq<string>)
    ensures ForTasks(ls + [last], copyTasks) == ForTasks(ls, copyTasks) + if Copies(copyTasks, last) then [last] else []
  {
    if ls == [] {
      assert ls + [last] == [last] && [last][1..] == [];
    } else {
      assert (ls + [last])[1..] == ls[1..] + [last];
      ForTasksAppend(ls[1..], last, copyTasks);
    }
  }

  // ---- what is written -------------------------------------------------------------------

  /** The names of the types, separated by one space. */
  lemma {:induction false} JoinedApart(a: seq<string>, b: seq<string>)
    requires a != [] && b != []
    ensures Joined(a + b) == Joined(a) + " " + Joined(b)
  {
    var n := |b| - 1;
    if n == 0 {
      assert (a + b)[..|a + b| - 1] == a;
    } else {
      assert (a + b)[..|a + b| - 1] == a + b[..n];
      JoinedApart(a, b[..n]);
      assert Joined(a) + " " + Joined(b[..n]) + " " + b[n] == Joined(a) + " " + (Joined(b[..n]) + " " + b[n]);
    }
  }

  /** The file for one type, letter by letter. */
  lemma FileOfOne(sig: string)
    ensures Written(["t-x86"], map["t-x86" := [sig]]) + [TypesLine(NonEmpty(["t-x86"], map["t-x86" := [sig]]))] ==
            ["SIGGEN_LOCKEDSIGS_t-x86 = \"\\\n", sig, "    \"\n", "SIGGEN_LOCKEDSIGS_TYPES = \"t-x86\"\n"]
    ensures Joined(["t-x86"]) == "t-x86" && Joined([]) == ""
  {
    var ts, sigs := ["t-x86"], map["t-x86" := [sig]];
    assert ts[..0] == [];
    assert Written([], sigs) == [] && NonEmpty([], sigs) == [];
    assert NonEmpty(ts, sigs) == [] + ["t-x86"] == ["t-x86"];
    assert HeaderLine("t-x86") == "SIGGEN_LOCKEDSIGS_t-x86 = \"\\\n";
    assert TypesLine(["t-x86"]) == "SIGGEN_LOCKEDSIGS_TYPES = \"t-x86\"\n";
  }
}
