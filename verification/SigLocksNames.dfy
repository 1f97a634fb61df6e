/** When the substring test of `get_taskhash` unlocks what a test on whole recipe names would unlock. */
module SigLocksNames {
  import opened SigLocks

  /** The recipe of some dependency of the same multiconfig is itself unlocked. */
  ghost predicate OwnRecipeUnlocked(cfg: Config, unlocked: set<string>, tid: Tid, deps: seq<Tid>) {
    exists dep | dep in deps :: dep.mc == tid.mc && cfg.Recipe(dep) in unlocked
  }

  /** Some dependency of the same multiconfig has a recipe name with an unlocked name properly inside it. */
  ghost predicate NameInside(cfg: Config, unlocked: set<string>, tid: Tid, deps: seq<Tid>) {
    exists dep, x | dep in deps && x in unlocked ::
      dep.mc == tid.mc && x != cfg.Recipe(dep) && Contains(cfg.Recipe(dep), x)
  }

  lemma WholeNameMeans(cfg: Config, unlocked: set<string>, tid: Tid, deps: seq<Tid>)
    ensures UnlockedByDep(WholeName, cfg, unlocked, tid, deps) <==> OwnRecipeUnlocked(cfg, unlocked, tid, deps)
  {
    if dep :| dep in deps && dep.mc == tid.mc && cfg.Recipe(dep) in unlocked {
      assert Hits(WholeName, cfg.Recipe(dep), cfg.Recipe(dep));
    }
  }

  lemma SubstringMeans(cfg: Config, unlocked: set<string>, tid: Tid, deps: seq<Tid>)
    ensures UnlockedByDep(Substring, cfg, unlocked, tid, deps) <==>
            OwnRecipeUnlocked(cfg, unlocked, tid, deps) || NameInside(cfg, unlocked, tid, deps)
  {
    if dep :| dep in deps && dep.mc == tid.mc && cfg.Recipe(dep) in unlocked {
      HitsItself(Substring, cfg.Recipe(dep));
    }
    if dep, x :| dep in deps && x in unlocked && dep.mc == tid.mc && x != cfg.Recipe(dep) && Contains(cfg.Recipe(dep), x) {
      assert Hits(Substring, cfg.Recipe(dep), x);
    }
  }

  /** A question the code answers wrongly: the task is undecided, neither its recipe nor that of a dependency is
      unlocked, and the name of a dependency has an unlocked name inside it. */
  ghost predicate Misled(cfg: Config, s: State, tid: Tid, deps: seq<Tid>) {
    && tid !in s.lockedhashes && cfg.Recipe(tid) !in s.unlockedrecipes
    && !OwnRecipeUnlocked(cfg, s.unlockedrecipes, tid, deps) && NameInside(cfg, s.unlockedrecipes, tid, deps)
  }

  /** One question: the code does what a test on whole names does if and only if it is not misled. */
  lemma QuestionIsExactIff(cfg: Config, s: State, tid: Tid, deps: seq<Tid>)
    ensures After(Substring, cfg, s, tid, deps) == After(WholeName, cfg, s, tid, deps) <==> !Misled(cfg, s, tid, deps)
  {
    WholeNameMeans(cfg, s.unlockedrecipes, tid, deps);
    SubstringMeans(cfg, s.unlockedrecipes, tid, deps);
    if Misled(cfg, s, tid, deps) {
      assert cfg.Recipe(tid) in After(Substring, cfg, s, tid, deps).unlockedrecipes;
    }
  }

  ghost predicate Agree(cfg: Config, deps: Tid -> seq<Tid>, s: State, run: seq<Tid>, n: nat)
    requires n <= |run|
  {
    AfterRun(Substring, cfg, deps, s, run[..n]) == AfterRun(WholeName, cfg, deps, s, run[..n])
  }

  /** Question `n` of a run, asked after a test on whole names has decided all before it, misleads the code. */
  ghost predicate MisledAt(cfg: Config, deps: Tid -> seq<Tid>, s: State, run: seq<Tid>, n: nat)
    requires n < |run|
  {
    Misled(cfg, AfterRun(WholeName, cfg, deps, s, run[..n]), run[n], deps(run[n]))
  }

  lemma NextAgrees(cfg: Config, deps: Tid -> seq<Tid>, s: State, run: seq<Tid>, n: nat)
    requires n < |run| && Agree(cfg, deps, s, run, n)
    ensures Agree(cfg, deps, s, run, n + 1) <==> !MisledAt(cfg, deps, s, run, n)
  {
    assert run[..n + 1][..n] == run[..n];
    QuestionIsExactIff(cfg, AfterRun(WholeName, cfg, deps, s, run[..n]), run[n], deps(run[n]));
  }

  lemma {:induction false} UnmisledAgrees(cfg: Config, deps: Tid -> seq<Tid>, s: State, run: seq<Tid>, n: nat)
    requires n <= |run| && forall i | 0 <= i < n :: !MisledAt(cfg, deps, s, run, i)
    ensures Agree(cfg, deps, s, run, n)
  {
    if n > 0 {
      UnmisledAgrees(cfg, deps, s, run, n - 1);
      NextAgrees(cfg, deps, s, run, n - 1);
    } else {
      assert run[..0] == [];
    }
  }

  /** Whole runs: the code and a test on whole names take the same decisions all the way if and only if no
      question of the run is misleading. */
  lemma RunIsExactIff(cfg: Config, deps: Tid -> seq<Tid>, s: State, run: seq<Tid>)
    ensures (forall n | 0 <= n <= |run| :: Agree(cfg, deps, s, run, n)) <==>
            (forall n | 0 <= n < |run| :: !MisledAt(cfg, deps, s, run, n))
  {
    if forall n | 0 <= n <= |run| :: Agree(cfg, deps, s, run, n) {
      forall n | 0 <= n < |run|
        ensures !MisledAt(cfg, deps, s, run, n)
      {
        NextAgrees(cfg, deps, s, run, n);
        assert Agree(cfg, deps, s, run, n + 1);
      }
    } else {
      var n :| 0 <= n <= |run| && !Agree(cfg, deps, s, run, n);
      if forall i | 0 <= i < n :: !MisledAt(cfg, deps, s, run, i) {
        UnmisledAgrees(cfg, deps, s, run, n);
      }
    }
  }

  // ---- names that are no part of each other ----------------------------------------------

  /** A name that is unlocked at the start or is the recipe of a task of the run. */
  ghost predicate NameOfRun(cfg: Config, unlocked: set<string>, run: seq<Tid>, x: string) {
    x in unlocked || exists tid | tid in run :: cfg.Recipe(tid) == x
  }

  /** No such name is properly inside the recipe name of a dependency of the run. */
  ghost predicate NamesApart(cfg: Config, deps: Tid -> seq<Tid>, unlocked: set<string>, run: seq<Tid>) {
    forall tid, dep, x | tid in run && dep in deps(tid) && NameOfRun(cfg, unlocked, run, x) ::
      Contains(cfg.Recipe(dep), x) ==> x == cfg.Recipe(dep)
  }

  lemma {:induction false} UnlockedAreNames(how: Match, cfg: Config, deps: Tid -> seq<Tid>, unlocked: set<string>, run: seq<Tid>, n: nat)
    requires n <= |run|
    ensures forall x | x in AfterRun(how, cfg, deps, State(map[], unlocked), run[..n]).unlockedrecipes ::
              NameOfRun(cfg, unlocked, run, x)
  {
    if n > 0 {
      assert run[..n][..n - 1] == run[..n - 1];
      UnlockedAreNames(how, cfg, deps, unlocked, run, n - 1);
      assert run[n - 1] in run;
    } else {
      assert run[..0] == [];
    }
  }

  lemma ApartIsExact(cfg: Config, deps: Tid -> seq<Tid>, unlocked: set<string>, run: seq<Tid>)
    requires NamesApart(cfg, deps, unlocked, run)
    ensures forall n | 0 <= n < |run| :: !MisledAt(cfg, deps, State(map[], unlocked), run, n)
  {
    forall n | 0 <= n < |run|
      ensures !MisledAt(cfg, deps, State(map[], unlocked), run, n)
    {
      UnlockedAreNames(WholeName, cfg, deps, unlocked, run, n);
      assert run[n] in run;
    }
  }

  /** Where no name of the run is properly inside the name of a dependency, the code decides the whole run as a
      test on whole names does, and every unlocked recipe is explained by tasks that have a dependency of an
      unlocked recipe. */
  lemma ApartNamesAreExact(cfg: Config, deps: Tid -> seq<Tid>, unlocked: set<string>, run: seq<Tid>)
    requires NamesApart(cfg, deps, unlocked, run)
    ensures var s := AfterRun(Substring, cfg, deps, State(map[], unlocked), run);
            && s == AfterRun(WholeName, cfg, deps, State(map[], unlocked), run)
            && forall r | r in s.unlockedrecipes :: Explained(WholeName, cfg, deps, unlocked, run, r)
  {
    ApartIsExact(cfg, deps, unlocked, run);
    UnmisledAgrees(cfg, deps, State(map[], unlocked), run, |run|);
    assert run[..|run|] == run;
    UnlockingIsExplained(WholeName, cfg, deps, unlocked, run);
  }
}
