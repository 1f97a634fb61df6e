/** What a whole run of questions decides, read off the run itself: which tasks get locked, which recipes unlocked,
    and what the questions return. */
module SigLocksRuns {
  import opened Wrappers
  import opened SigLocks

  /** The task asked at position `i` has not been asked before. */
  ghost predicate FirstAsked(run: seq<Tid>, i: nat) {
    i < |run| && run[i] !in run[..i]
  }

  /** The recipes unlocked before the question at position `i`: those of the start, and those of earlier first
      questions about tasks found to be unlocked by a dependency. */
  ghost predicate UnlockedBefore(cfg: Config, deps: Tid -> seq<Tid>, unlocked: set<string>, run: seq<Tid>, i: nat, recipe: string)
    requires i <= |run|
    decreases i, 1
  {
    recipe in unlocked
    || exists j | 0 <= j < i :: cfg.Recipe(run[j]) == recipe && SpreadsAt(cfg, deps, unlocked, run, j)
  }

  /** The first question about the task unlocks its recipe: some dependency of the same multiconfig has a recipe name
      with an unlocked name in it. */
  ghost predicate SpreadsAt(cfg: Config, deps: Tid -> seq<Tid>, unlocked: set<string>, run: seq<Tid>, i: nat)
    requires i < |run|
    decreases i, 2
  {
    && FirstAsked(run, i)
    && !UnlockedBefore(cfg, deps, unlocked, run, i, cfg.Recipe(run[i]))
    && exists dep, x | dep in deps(run[i]) && dep.mc == run[i].mc && Contains(cfg.Recipe(dep), x) ::
         UnlockedBefore(cfg, deps, unlocked, run, i, x)
  }

  /** The recipe of the task is unlocked when its first question is answered. */
  ghost predicate UnlockedAt(cfg: Config, deps: Tid -> seq<Tid>, unlocked: set<string>, run: seq<Tid>, i: nat)
    requires i < |run|
  {
    UnlockedBefore(cfg, deps, unlocked, run, i, cfg.Recipe(run[i])) || SpreadsAt(cfg, deps, unlocked, run, i)
  }

  /** The state before the question at position `i`. */
  function StateAt(cfg: Config, deps: Tid -> seq<Tid>, unlocked: set<string>, run: seq<Tid>, i: nat): State
    requires i <= |run|
  {
    AfterRun(Substring, cfg, deps, State(map[], unlocked), run[..i])
  }

  lemma StateNext(cfg: Config, deps: Tid -> seq<Tid>, unlocked: set<string>, run: seq<Tid>, i: nat)
    requires i < |run|
    ensures StateAt(cfg, deps, unlocked, run, i + 1) == After(Substring, cfg, StateAt(cfg, deps, unlocked, run, i), run[i], deps(run[i]))
    ensures run[i] in StateAt(cfg, deps, unlocked, run, i).lockedhashes <==> !FirstAsked(run, i)
  {
    assert run[..i + 1] == run[..i] + [run[i]];
    RunOne(Substring, cfg, deps, State(map[], unlocked), run[..i], run[i]);
    AskedOnly(Substring, cfg, deps, unlocked, run[..i]);
  }

  lemma BeforeNext(cfg: Config, deps: Tid -> seq<Tid>, unlocked: set<string>, run: seq<Tid>, i: nat, recipe: string)
    requires i < |run|
    ensures UnlockedBefore(cfg, deps, unlocked, run, i + 1, recipe) <==>
            || UnlockedBefore(cfg, deps, unlocked, run, i, recipe)
            || (cfg.Recipe(run[i]) == recipe && SpreadsAt(cfg, deps, unlocked, run, i))
  {
  }

  /** The unlocked recipes, read off the run. */
  lemma {:induction false} UnlockedIff(cfg: Config, deps: Tid -> seq<Tid>, unlocked: set<string>, run: seq<Tid>, i: nat)
    requires i <= |run|
    ensures forall r :: r in StateAt(cfg, deps, unlocked, run, i).unlockedrecipes <==> UnlockedBefore(cfg, deps, unlocked, run, i, r)
    decreases i
  {
    if i == 0 {
      assert run[..0] == [];
    } else {
      UnlockedIff(cfg, deps, unlocked, run, i - 1);
      StateNext(cfg, deps, unlocked, run, i - 1);
      SpreadsIff(cfg, deps, unlocked, run, i - 1);
      forall r
        ensures r in StateAt(cfg, deps, unlocked, run, i).unlockedrecipes <==> UnlockedBefore(cfg, deps, unlocked, run, i, r)
      {
        BeforeNext(cfg, deps, unlocked, run, i - 1, r);
      }
    }
  }

  /** Whether the question unlocks by a dependency, in the state it finds. */
  lemma SpreadsIff(cfg: Config, deps: Tid -> seq<Tid>, unlocked: set<string>, run: seq<Tid>, i: nat)
    requires i < |run|
    requires forall r :: r in StateAt(cfg, deps, unlocked, run, i).unlockedrecipes <==> UnlockedBefore(cfg, deps, unlocked, run, i, r)
    ensures var s := StateAt(cfg, deps, unlocked, run, i);
            SpreadsAt(cfg, deps, unlocked, run, i) <==>
            && FirstAsked(run, i) && cfg.Recipe(run[i]) !in s.unlockedrecipes
            && UnlockedByDep(Substring, cfg, s.unlockedrecipes, run[i], deps(run[i]))
  {
    var s := StateAt(cfg, deps, unlocked, run, i);
    if dep, x :| dep in deps(run[i]) && x in s.unlockedrecipes && dep.mc == run[i].mc && Contains(cfg.Recipe(dep), x) {
      assert Hits(Substring, cfg.Recipe(dep), x);
      assert UnlockedBefore(cfg, deps, unlocked, run, i, x);
    }
  }

  /** The configured hash, unless the recipe is unlocked by then. */
  function Decision(cfg: Config, tid: Tid, unlockedThen: bool): Option<string> {
    if !unlockedThen && HasLock(cfg, tid) then Some(LockOf(cfg, tid)) else None
  }

  /** The configuration has a hash for the task under the recipe of its file. */
  predicate HasLock(cfg: Config, tid: Tid) {
    cfg.pkgFn(tid.mc, tid.fn) in cfg.lockedsigs && tid.task in cfg.lockedsigs[cfg.pkgFn(tid.mc, tid.fn)]
  }

  function LockOf(cfg: Config, tid: Tid): string
    requires HasLock(cfg, tid)
  {
    cfg.lockedsigs[cfg.pkgFn(tid.mc, tid.fn)][tid.task].hash
  }

  /** Every run, every task asked: its entry is the configured hash unless its recipe is unlocked at its first
      question, and this question returns what the entry says, an empty hash too. */
  lemma DecidedIff(cfg: Config, deps: Tid -> seq<Tid>, unlocked: set<string>, run: seq<Tid>, i: nat, computed: string)
    requires FirstAsked(run, i)
    ensures var tid, s := run[i], StateAt(cfg, deps, unlocked, run, |run|);
            var entry := Decision(cfg, tid, UnlockedAt(cfg, deps, unlocked, run, i));
            && tid in s.lockedhashes && s.lockedhashes[tid] == entry
            && Taskhash(cfg, StateAt(cfg, deps, unlocked, run, i), tid, deps(tid), computed) == if entry.Some? then entry.value else computed
  {
    UnlockedIff(cfg, deps, unlocked, run, i);
    SpreadsIff(cfg, deps, unlocked, run, i);
    StateNext(cfg, deps, unlocked, run, i);
    assert run[..|run|][..i + 1] == run[..i + 1];
    RunGrows(Substring, cfg, deps, State(map[], unlocked), run[..|run|], i + 1);
  }

  lemma FirstPosition(run: seq<Tid>, tid: Tid) returns (i: nat)
    requires tid in run
    ensures FirstAsked(run, i) && run[i] == tid
    decreases |run|
  {
    var n := |run| - 1;
    if tid in run[..n] {
      i := FirstPosition(run[..n], tid);
      assert run[..n][..i] == run[..i];
    } else {
      assert run == run[..n] + [run[n]];
      i := n;
    }
  }

  /** A task that is asked and has a configured hash is locked to it, unless its recipe ends up unlocked. */
  lemma AskedIsLocked(cfg: Config, deps: Tid -> seq<Tid>, unlocked: set<string>, run: seq<Tid>, tid: Tid)
    requires tid in run && HasLock(cfg, tid)
    ensures var s := StateAt(cfg, deps, unlocked, run, |run|);
            && tid in s.lockedhashes
            && (s.lockedhashes[tid].None? ==> cfg.Recipe(tid) in s.unlockedrecipes)
            && (cfg.Recipe(tid) !in s.unlockedrecipes ==> s.lockedhashes[tid] == Some(LockOf(cfg, tid)))
  {
    var i := FirstPosition(run, tid);
    DecidedIff(cfg, deps, unlocked, run, i, "");
    UnlockedIff(cfg, deps, unlocked, run, |run|);
    if UnlockedAt(cfg, deps, unlocked, run, i) {
      Later(cfg, deps, unlocked, run, i, |run|, cfg.Recipe(tid));
    }
  }

  /** What is unlocked stays so. */
  lemma Later(cfg: Config, deps: Tid -> seq<Tid>, unlocked: set<string>, run: seq<Tid>, i: nat, k: nat, recipe: string)
    requires i < k <= |run|
    requires UnlockedBefore(cfg, deps, unlocked, run, i, recipe) || (cfg.Recipe(run[i]) == recipe && SpreadsAt(cfg, deps, unlocked, run, i))
    ensures UnlockedBefore(cfg, deps, unlocked, run, k, recipe)
  {
  }
}
