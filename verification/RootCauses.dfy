/** checklayer/__init__.py, compare_signatures: reporting the changed tasks whose dependencies did not change. */
module RootCauses {
  import opened Wrappers

  // ---- names of tasks --------------------------------------------------------------------

  /** `s.rsplit(from, 1)` joined with `to`: the last `from` of the name becomes `to`. */
  function SwapLast(s: string, from: char, to: char): (r: Option<string>)
    ensures r.None? <==> from !in s
  {
    if s == "" then None
    else
      var n := |s| - 1;
      if s[n] == from then Some(s[..n] + [to])
      else
        match SwapLast(s[..n], from, to)
        case None => None
        case Some(t) => Some(t + [s[n]])
  }

  /** "pn:task" of the signatures is "pn.task" in the graph. */
  function SigToGraph(task: string): Option<string> {
    SwapLast(task, ':', '.')
  }

  function GraphToSig(task: string): Option<string> {
    SwapLast(task, '.', ':')
  }

  /** Position `i` holds the last `c` of the name. */
  predicate LastAt(s: string, c: char, i: nat) {
    i < |s| && s[i] == c && forall j | i < j < |s| :: s[j] != c
  }

  lemma {:induction false} SwapsAt(s: string, from: char, to: char, i: nat)
    requires LastAt(s, from, i)
    ensures SwapLast(s, from, to) == Some(s[..i] + [to] + s[i + 1..])
  {
    var n := |s| - 1;
    if i < n {
      assert LastAt(s[..n], from, i);
      SwapsAt(s[..n], from, to, i);
      assert s[..n][..i] == s[..i] && s[..n][i + 1..] + [s[n]] == s[i + 1..];
      assert s[..i] + [to] + s[..n][i + 1..] + [s[n]] == s[..i] + [to] + s[i + 1..];
    } else {
      assert s[i + 1..] == [] && s[..i] + [to] + [] == s[..i] + [to];
    }
  }

  lemma {:induction false} SomeLast(s: string, c: char) returns (i: nat)
    requires c in s
    ensures LastAt(s, c, i)
  {
    var n := |s| - 1;
    if s[n] == c {
      i := n;
    } else {
      assert s == s[..n] + [s[n]];
      i := SomeLast(s[..n], c);
    }
  }

  /** A task is found again under its own name if and only if no "." follows its last ":". */
  lemma NameComesBackIff(task: string, i: nat)
    requires LastAt(task, ':', i)
    ensures SigToGraph(task).Some?
    ensures GraphToSig(SigToGraph(task).value) == Some(task) <==> '.' !in task[i + 1..]
  {
    var pn, name := task[..i], task[i + 1..];
    SwapsAt(task, ':', '.', i);
    assert task == pn + [':'] + name;
    GraphNameComesBack(pn, name);
  }

  lemma GraphNameComesBack(pn: string, name: string)
    ensures GraphToSig(pn + ['.'] + name) == Some(pn + [':'] + name) <==> '.' !in name
  {
    var g, i := pn + ['.'] + name, |pn|;
    if '.' !in name {
      assert LastAt(g, '.', i);
      SwapsAt(g, '.', ':', i);
      assert g[..i] == pn && g[i + 1..] == name;
    } else {
      var j := SomeLast(g, '.');
      LaterDot(pn, name, j);
      SwapsAt(g, '.', ':', j);
      assert (g[..j] + [':'] + g[j + 1..])[i] == '.' && (pn + [':'] + name)[i] == ':';
    }
  }

  lemma LaterDot(pn: string, name: string, j: nat)
    requires '.' in name && LastAt(pn + ['.'] + name, '.', j)
    ensures j > |pn|
  {
    var k :| 0 <= k < |name| && name[k] == '.';
    assert (pn + ['.'] + name)[|pn| + 1 + k] == '.';
  }

  // ---- the comparison --------------------------------------------------------------------

  type Task = string

  type Hash = string

  datatype Diff = Diff(task: Task, before: Hash, after: Hash)

  /** `Misnamed` is the failure on a name that cannot be split. */
  datatype Outcome = Unchanged | Report(diffs: seq<Diff>) | Misnamed(name: string)

  /** Two sets of signatures, and the dependency graph under its own names. */
  datatype Builds = Builds(oldSigs: map<Task, Hash>, currSigs: map<Task, Hash>, tdepends: map<string, seq<string>>)
  {
    predicate Changed(task: Task) {
      task in oldSigs && task in currSigs && oldSigs[task] != currSigs[task]
    }

    /** What the graph lists for a task. */
    function Listed(task: Task): seq<string> {
      match SigToGraph(task)
      case None => []
      case Some(key) => if key in tdepends then tdepends[key] else []
    }

    /** The task depends on `dep`, a name of the signatures. */
    predicate DependsOn(task: Task, dep: Task) {
      exists name | name in Listed(task) :: GraphToSig(name) == Some(dep)
    }

    predicate Tainted(task: Task) {
      exists dep | dep in oldSigs :: Changed(dep) && DependsOn(task, dep)
    }

    /** A changed task none of whose dependencies changed. */
    predicate IsCause(task: Task) {
      Changed(task) && !Tainted(task)
    }

    function DiffOf(task: Task): Diff
      requires Changed(task)
    {
      Diff(task, oldSigs[task], currSigs[task])
    }

    function CauseOf(task: Task): seq<Diff> {
      if IsCause(task) then [DiffOf(task)] else []
    }

    /** The causes among `order`, with both hashes, in order. */
    function Causes(order: seq<Task>): seq<Diff> {
      if order == [] then [] else CauseOf(order[0]) + Causes(order[1..])
    }

    /** A name the conversions cannot split: of a changed task, or of what the graph lists for one. */
    predicate Unsplittable(name: string) {
      || (Changed(name) && ':' !in name)
      || ('.' !in name && exists task | task in oldSigs :: Changed(task) && name in Listed(task))
    }

    /** The first name the loop over them cannot split, unless it stops at a changed dependency before. */
    function CutIn(names: seq<string>): Option<string> {
      if names == [] then None
      else
        match GraphToSig(names[0])
        case None => Some(names[0])
        case Some(dep) => if Changed(dep) then None else CutIn(names[1..])
    }

    function CutOf(task: Task): Option<string> {
      if SigToGraph(task).None? then Some(task) else CutIn(Listed(task))
    }

    /** The name the comparison of the changed tasks among `order` ends on. */
    function FirstCut(order: seq<Task>): Option<string> {
      if order == [] then None
      else if Changed(order[0]) && CutOf(order[0]).Some? then CutOf(order[0])
      else FirstCut(order[1..])
    }

    function Filtered(order: seq<Task>): Outcome {
      match FirstCut(order)
      case Some(name) => Misnamed(name)
      case None => Report(Causes(order))
    }
  }

  /** Whether one of the names listed for a task is that of a changed one. */
  method DepsTainted(b: Builds, task: Task) returns (tainted: bool, bad: Option<string>)
    requires b.Changed(task)
    ensures bad == b.CutOf(task) && (bad.None? ==> (tainted <==> b.Tainted(task)))
  {
    if SigToGraph(task).None? {
      return false, Some(task);
    }
    var names := b.Listed(task);
    for i := 0 to |names|
      invariant forall j, dep | 0 <= j < i && GraphToSig(names[j]) == Some(dep) :: !b.Changed(dep)
      invariant b.CutIn(names[i..]) == b.CutOf(task)
    {
      assert names[i..][0] == names[i] && names[i..][1..] == names[i + 1..];
      match GraphToSig(names[i])
      case None =>
        return false, Some(names[i]);
      case Some(dep) =>
        if b.Changed(dep) {
          assert b.DependsOn(task, dep);
          return true, None;
        }
    }
    return false, None;
  }

  /** `order` is the insertion order of `oldSigs`. */
  method CompareSignatures(b: Builds, order: seq<Task>) returns (r: Outcome)
    requires forall task :: task in order <==> task in b.oldSigs
    ensures r == if forall task :: !b.Changed(task) then Unchanged else b.Filtered(order)
  {
    var sigDiff := ChangedTasks(b, order);
    if sigDiff == [] {
      return Unchanged;
    }
    assert sigDiff[0] in sigDiff;
    r := FilterTainted(b, sigDiff);
    KeepChanged(b, order);
    KeepCuts(b, order);
  }

  lemma NextCut(b: Builds, order: seq<Task>, i: nat)
    requires i < |order|
    ensures order[i..][1..] == order[i + 1..]
    ensures b.FirstCut(order[i..]) ==
            if b.Changed(order[i]) && b.CutOf(order[i]).Some? then b.CutOf(order[i]) else b.FirstCut(order[i + 1..])
  {
    assert order[i..][0] == order[i] && order[i..][1..] == order[i + 1..];
  }

  /** `sig_diff_filtered`. */
  method FilterTainted(b: Builds, sigDiff: seq<Task>) returns (r: Outcome)
    requires forall i | 0 <= i < |sigDiff| :: b.Changed(sigDiff[i])
    ensures r == b.Filtered(sigDiff)
  {
    var filtered := [];
    for i := 0 to |sigDiff|
      invariant filtered + b.Causes(sigDiff[i..]) == b.Causes(sigDiff)
      invariant b.FirstCut(sigDiff[i..]) == b.FirstCut(sigDiff)
    {
      var task := sigDiff[i];
      NextCut(b, sigDiff, i);
      Regroup(filtered, b.CauseOf(task), b.Causes(sigDiff[i + 1..]));
      var tainted, bad := DepsTainted(b, task);
      if bad.Some? {
        return Misnamed(bad.value);
      }
      if !tainted {
        filtered := filtered + [Diff(task, b.oldSigs[task], b.currSigs[task])];
      }
    }
    return Report(filtered);
  }

  function KeepOne(b: Builds, task: Task): seq<Task> {
    if b.Changed(task) then [task] else []
  }

  /** The changed tasks of `order`. */
  function Kept(b: Builds, order: seq<Task>): (r: seq<Task>)
    ensures forall task :: task in r <==> task in order && b.Changed(task)
  {
    if order == [] then [] else KeepOne(b, order[0]) + Kept(b, order[1..])
  }

  /** The keys of `sig_diff`. */
  method ChangedTasks(b: Builds, order: seq<Task>) returns (sigDiff: seq<Task>)
    requires forall task | task in order :: task in b.oldSigs
    ensures sigDiff == Kept(b, order)
  {
    sigDiff := [];
    for i := 0 to |order|
      invariant sigDiff + Kept(b, order[i..]) == Kept(b, order)
    {
      assert order[i..][1..] == order[i + 1..];
      Regroup(sigDiff, KeepOne(b, order[i]), Kept(b, order[i + 1..]));
      if order[i] in b.currSigs && b.oldSigs[order[i]] != b.currSigs[order[i]] {
        sigDiff := sigDiff + [order[i]];
      }
    }
  }

  lemma {:induction false} KeepChanged(b: Builds, order: seq<Task>)
    ensures b.Causes(Kept(b, order)) == b.Causes(order)
  {
    if order != [] {
      KeepChanged(b, order[1..]);
      var rest := Kept(b, order[1..]);
      if b.Changed(order[0]) {
        assert ([order[0]] + rest)[1..] == rest;
      } else {
        assert [] + rest == rest;
      }
    }
  }

  lemma {:induction false} KeepCuts(b: Builds, order: seq<Task>)
    ensures b.FirstCut(Kept(b, order)) == b.FirstCut(order)
  {
    if order != [] {
      KeepCuts(b, order[1..]);
      var rest := Kept(b, order[1..]);
      if b.Changed(order[0]) {
        assert ([order[0]] + rest)[1..] == rest;
      } else {
        assert [] + rest == rest;
      }
    }
  }

  lemma {:induction false} CausesAppend(b: Builds, order: seq<Task>, more: seq<Task>)
    ensures b.Causes(order + more) == b.Causes(order) + b.Causes(more)
  {
    if order == [] {
      assert order + more == more;
    } else {
      assert (order + more)[1..] == order[1..] + more;
      CausesAppend(b, order[1..], more);
      Regroup(b.CauseOf(order[0]), b.Causes(order[1..]), b.Causes(more));
    }
  }

  /** The report has one line for each changed task none of whose dependencies changed, in order, with the old hash
      before the new one. */
  lemma {:induction false} CausesPlaces(b: Builds, order: seq<Task>) returns (ix: seq<nat>)
    requires forall task | task in order :: task in b.oldSigs
    ensures Picks(order, (task: Task) => b.IsCause(task), ix) && |b.Causes(order)| == |ix|
    ensures forall k | 0 <= k < |ix| ::
              var task, line := order[ix[k]], b.Causes(order)[k];
              && task in b.oldSigs && task in b.currSigs
              && line.task == task && line.before == b.oldSigs[task] && line.after == b.currSigs[task]
  {
    ix := [];
    if order != [] {
      var init, last := order[..|order| - 1], order[|order| - 1];
      assert order == init + [last];
      ix := CausesPlaces(b, init);
      PicksGrow(init, last, (task: Task) => b.IsCause(task), ix);
      CausesAppend(b, init, [last]);
      assert [last][1..] == [] && b.Causes([last]) == b.CauseOf(last);
      ix := ix + if b.IsCause(last) then [|init|] else [];
    }
  }

  /** The names before place `j` can be split and are those of unchanged tasks; the one there cannot. */
  predicate StopsAt(b: Builds, names: seq<string>, j: nat) {
    && j < |names| && '.' !in names[j]
    && forall k | 0 <= k < j :: '.' in names[k] && !b.Changed(GraphToSig(names[k]).value)
  }

  /** A changed task on whose own name, or on a name listed for it, the comparison ends. */
  predicate StopsOn(b: Builds, task: Task, name: string) {
    && b.Changed(task)
    && if ':' !in task then name == task
       else exists j | 0 <= j < |b.Listed(task)| :: StopsAt(b, b.Listed(task), j) && b.Listed(task)[j] == name
  }

  lemma {:induction false} CutInIff(b: Builds, names: seq<string>, name: string)
    ensures b.CutIn(names) == Some(name) <==> exists j | 0 <= j < |names| :: StopsAt(b, names, j) && names[j] == name
  {
    if names != [] {
      CutInIff(b, names[1..], name);
      if j :| 0 <= j < |names| && StopsAt(b, names, j) && names[j] == name {
        if j > 0 {
          assert StopsAt(b, names[1..], j - 1) && names[1..][j - 1] == name;
        }
      }
      if b.CutIn(names) == Some(name) {
        if '.' in names[0] {
          var j :| 0 <= j < |names[1..]| && StopsAt(b, names[1..], j) && names[1..][j] == name;
          forall k | 0 <= k < j + 1 ensures '.' in names[k] && !b.Changed(GraphToSig(names[k]).value) {
            assert k > 0 ==> names[k] == names[1..][k - 1];
          }
          assert StopsAt(b, names, j + 1);
        } else {
          assert StopsAt(b, names, 0);
        }
      }
    }
  }

  lemma CutOfIff(b: Builds, task: Task, name: string)
    requires b.Changed(task)
    ensures b.CutOf(task) == Some(name) <==> StopsOn(b, task, name)
  {
    CutInIff(b, b.Listed(task), name);
  }

  ghost predicate StopsFirstAt(b: Builds, order: seq<Task>, i: nat, name: string)
    requires i < |order|
  {
    StopsOn(b, order[i], name) && forall h, other | 0 <= h < i :: !StopsOn(b, order[h], other)
  }

  ghost predicate FirstStop(b: Builds, order: seq<Task>, name: string) {
    exists i: nat | i < |order| :: StopsFirstAt(b, order, i, name)
  }

  /** The comparison ends on a name if and only if the first changed task that stops it stops on that name. */
  lemma {:induction false} FirstCutIff(b: Builds, order: seq<Task>, name: string)
    ensures b.FirstCut(order) == Some(name) <==> FirstStop(b, order, name)
  {
    if order != [] {
      FirstCutIff(b, order[1..], name);
      var task := order[0];
      if b.Changed(task) {
        forall other ensures b.CutOf(task) == Some(other) <==> StopsOn(b, task, other) {
          CutOfIff(b, task, other);
        }
      }
      if b.Changed(task) && b.CutOf(task).Some? {
        assert StopsFirstAt(b, order, 0, b.CutOf(task).value);
      } else {
        assert forall other :: !StopsOn(b, order[0], other);
        LaterStop(b, order, name);
      }
    }
  }

  lemma LaterStop(b: Builds, order: seq<Task>, name: string)
    requires order != [] && forall other :: !StopsOn(b, order[0], other)
    ensures FirstStop(b, order, name) <==> FirstStop(b, order[1..], name)
  {
    if i: nat :| i < |order| && StopsFirstAt(b, order, i, name) {
      forall h, other | 0 <= h < i - 1 ensures !StopsOn(b, order[1..][h], other) {
        assert order[1..][h] == order[h + 1];
      }
      assert StopsFirstAt(b, order[1..], i - 1, name);
    }
    if i: nat :| i < |order| - 1 && StopsFirstAt(b, order[1..], i, name) {
      forall h, other | 0 <= h < i + 1 ensures !StopsOn(b, order[h], other) {
        assert h > 0 ==> order[h] == order[1..][h - 1];
      }
      assert StopsFirstAt(b, order, i + 1, name);
    }
  }

  lemma {:induction false} CutIsUnsplittable(b: Builds, names: seq<string>)
    ensures b.CutIn(names).Some? ==> b.CutIn(names).value in names && '.' !in b.CutIn(names).value
  {
    if names != [] {
      CutIsUnsplittable(b, names[1..]);
    }
  }

  /** Only a name that cannot be split ends the comparison, so none does where all can. */
  lemma {:induction false} FirstCutIsUnsplittable(b: Builds, order: seq<Task>)
    requires forall task | task in order :: task in b.oldSigs
    ensures b.FirstCut(order).Some? ==> b.Unsplittable(b.FirstCut(order).value)
  {
    if order != [] {
      FirstCutIsUnsplittable(b, order[1..]);
      CutIsUnsplittable(b, b.Listed(order[0]));
    }
  }

  lemma {:induction false} CauseListed(b: Builds, order: seq<Task>, d: Diff)
    ensures d in b.Causes(order) <==> d.task in order && b.IsCause(d.task) && d == b.DiffOf(d.task)
  {
    if order != [] {
      assert d.task in order <==> d.task == order[0] || d.task in order[1..];
      CauseListed(b, order[1..], d);
    }
  }

  // ---- which changes are explained -------------------------------------------------------

  /** Changed tasks, each depending on the next. */
  predicate Trace(b: Builds, path: seq<Task>) {
    && (forall i | 0 <= i < |path| :: b.Changed(path[i]))
    && (forall i | 0 < i < |path| :: b.DependsOn(path[i - 1], path[i]))
  }

  /** A trace from the task to one that the comparison reports. */
  ghost predicate TracesTo(b: Builds, order: seq<Task>, task: Task, path: seq<Task>) {
    path != [] && path[0] == task && Trace(b, path) && b.DiffOf(path[|path| - 1]) in b.Causes(order)
  }

  /** The task leads over changed dependencies to one that the comparison reports. */
  ghost predicate Explained(b: Builds, order: seq<Task>, task: Task) {
    exists path :: TracesTo(b, order, task, path)
  }

  /** Changed tasks without a changed dependency outside. */
  ghost predicate Closed(b: Builds, s: set<Task>) {
    && (forall task | task in s :: b.Changed(task))
    && (forall task, dep | task in s && b.Changed(dep) && b.DependsOn(task, dep) :: dep in s)
  }

  /** Changed tasks that only lead to each other: each has a changed dependency, and none outside. */
  ghost predicate Trap(b: Builds, s: set<Task>) {
    Closed(b, s) && forall task | task in s :: b.Tainted(task)
  }

  lemma {:induction false} TraceStaysInside(b: Builds, s: set<Task>, path: seq<Task>, i: nat)
    requires Closed(b, s) && Trace(b, path) && i < |path| && path[0] in s
    ensures path[i] in s
  {
    if i > 0 {
      TraceStaysInside(b, s, path, i - 1);
    }
  }

  lemma TracedLeavesTrap(b: Builds, order: seq<Task>, s: set<Task>, path: seq<Task>)
    requires path != [] && TracesTo(b, order, path[0], path) && Closed(b, s) && path[0] in s
    ensures !Trap(b, s)
  {
    var n := |path| - 1;
    CauseListed(b, order, b.DiffOf(path[n]));
    TraceStaysInside(b, s, path, n);
    assert !b.Tainted(path[n]);
  }

  lemma ExplainedByDependency(b: Builds, order: seq<Task>, task: Task, dep: Task)
    requires b.Changed(task) && b.DependsOn(task, dep) && Explained(b, order, dep)
    ensures Explained(b, order, task)
  {
    var path :| TracesTo(b, order, dep, path);
    var longer := [task] + path;
    forall i | 0 < i < |longer|
      ensures b.DependsOn(longer[i - 1], longer[i])
    {
      if i > 1 {
        assert longer[i - 1] == path[i - 2] && longer[i] == path[i - 1];
      }
    }
    assert TracesTo(b, order, task, longer);
  }

  lemma CauseIsExplained(b: Builds, order: seq<Task>, task: Task)
    requires task in order && b.IsCause(task)
    ensures Explained(b, order, task)
  {
    CauseListed(b, order, b.DiffOf(task));
    assert TracesTo(b, order, task, [task]);
  }

  /** The unexplained tasks lead only to each other. */
  lemma UnexplainedIsTrap(b: Builds, order: seq<Task>) returns (s: set<Task>)
    requires forall t :: t in order <==> t in b.oldSigs
    ensures Trap(b, s) && forall t | b.Changed(t) && !Explained(b, order, t) :: t in s
  {
    s := set t | t in b.oldSigs && b.Changed(t) && !Explained(b, order, t);
    forall task | task in s
      ensures b.Tainted(task)
    {
      if !b.Tainted(task) {
        CauseIsExplained(b, order, task);
      }
    }
    forall task, dep | task in s && b.Changed(dep) && b.DependsOn(task, dep)
      ensures dep in s
    {
      if Explained(b, order, dep) {
        ExplainedByDependency(b, order, task, dep);
      }
    }
  }

  /** Leaving out the tainted tasks loses a change if and only if it sits in a trap: a changed task leads over
      changed dependencies to a reported one exactly when no set of changed tasks that lead only to each other
      holds it. */
  lemma ExplainedIff(b: Builds, order: seq<Task>, task: Task)
    requires (forall t :: t in order <==> t in b.oldSigs) && b.Changed(task)
    ensures Explained(b, order, task) <==> !exists s :: Trap(b, s) && task in s
  {
    if Explained(b, order, task) {
      var path :| TracesTo(b, order, task, path);
      forall s | task in s
        ensures !Trap(b, s)
      {
        if Closed(b, s) {
          TracedLeavesTrap(b, order, s, path);
        }
      }
    } else {
      var s := UnexplainedIsTrap(b, order);
    }
  }

  /** No changed task depends on itself through changed tasks: `rank` falls along such dependencies. */
  ghost predicate Ranked(b: Builds, rank: Task -> nat) {
    forall task, dep | b.Changed(task) && b.Changed(dep) && b.DependsOn(task, dep) :: rank(dep) < rank(task)
  }

  lemma {:induction false} RankedLeavesTrap(b: Builds, rank: Task -> nat, s: set<Task>, task: Task)
    requires Ranked(b, rank) && Trap(b, s)
    ensures task !in s
    decreases rank(task)
  {
    if task in s {
      var dep :| dep in b.oldSigs && b.Changed(dep) && b.DependsOn(task, dep);
      RankedLeavesTrap(b, rank, s, dep);
    }
  }

  /** Without circles every change is explained. */
  lemma ChangeIsTraced(b: Builds, order: seq<Task>, rank: Task -> nat, task: Task)
    requires (forall t :: t in order <==> t in b.oldSigs) && b.Changed(task) && Ranked(b, rank)
    ensures Explained(b, order, task)
  {
    ExplainedIff(b, order, task);
    forall s | Trap(b, s)
      ensures task !in s
    {
      RankedLeavesTrap(b, rank, s, task);
    }
  }

  /** Changed tasks, each depending on the next and the last on the first. */
  ghost predicate Circle(b: Builds, tasks: seq<Task>) {
    forall i | 0 <= i < |tasks| ::
      b.Changed(tasks[i]) && b.DependsOn(tasks[i], tasks[if i + 1 < |tasks| then i + 1 else 0])
  }

  /** A circle of any length without a changed dependency outside it: no member leads to a reported task. */
  lemma CircleIsNotReported(b: Builds, order: seq<Task>, tasks: seq<Task>)
    requires (forall t :: t in order <==> t in b.oldSigs) && Circle(b, tasks)
    requires forall task, dep | task in tasks && b.Changed(dep) && b.DependsOn(task, dep) :: dep in tasks
    ensures forall task | task in tasks :: b.Changed(task) && !Explained(b, order, task)
  {
    var s := set t | t in tasks;
    forall task | task in s
      ensures b.Tainted(task)
    {
      var i :| 0 <= i < |tasks| && tasks[i] == task;
      assert b.DependsOn(task, tasks[if i + 1 < |tasks| then i + 1 else 0]);
    }
    assert Trap(b, s);
    forall task | task in tasks
      ensures !Explained(b, order, task)
    {
      ExplainedIff(b, order, task);
      assert task in s;
    }
  }

  /** Two tasks that depend on each other, with new hashes: a report without a task. */
  lemma TwoInACircle(h: Hash, g: Hash)
    requires h != g
    ensures var b := Builds(map["a:t" := h, "b:t" := h], map["a:t" := g, "b:t" := g],
                            map["a.t" := ["b.t"], "b.t" := ["a.t"]]);
            b.Changed("a:t") && b.Causes(["a:t", "b:t"]) == []
  {
    TwoNames("a:t", "a.t");
    TwoNames("b:t", "b.t");
    TwoTainted("a:t", "a.t", "b:t", "b.t", h, g);
  }

  lemma TwoTainted(a: Task, an: string, b: Task, bn: string, h: Hash, g: Hash)
    requires h != g && a != b && an != bn
    requires SigToGraph(a) == Some(an) && SigToGraph(b) == Some(bn)
    requires GraphToSig(an) == Some(a) && GraphToSig(bn) == Some(b)
    ensures var two := Builds(map[a := h, b := h], map[a := g, b := g], map[an := [bn], bn := [an]]);
            two.Changed(a) && two.Causes([a, b]) == []
  {
    var two := Builds(map[a := h, b := h], map[a := g, b := g], map[an := [bn], bn := [an]]);
    assert two.Changed(a) && two.Changed(b);
    assert bn in two.Listed(a) && an in two.Listed(b);
    assert two.DependsOn(a, b) && two.DependsOn(b, a);
    assert two.Tainted(a) && two.Tainted(b);
    TwoCauses(two, a, b);
  }

  lemma TwoCauses(two: Builds, a: Task, b: Task)
    requires !two.IsCause(a) && !two.IsCause(b)
    ensures two.Causes([a, b]) == []
  {
    assert [a, b][1..] == [b] && [b][1..] == [] && two.Causes([]) == [];
    assert two.Causes([b]) == [];
  }

  lemma TwoNames(task: string, name: string)
    requires |task| == |name| == 3 && task[0] == name[0] && task[2] == name[2] == 't' && task[1] == ':' && name[1] == '.'
    ensures SigToGraph(task) == Some(name) && GraphToSig(name) == Some(task)
  {
    SwapsAt(task, ':', '.', 1);
    SwapsAt(name, '.', ':', 1);
    assert task[..1] + ['.'] + task[2..] == name && name[..1] + [':'] + name[2..] == task;
  }
}
