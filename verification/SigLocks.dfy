/** sstatesig.py: which task hashes are locked, decided task by task as their hashes are first asked for. */
module SigLocks {
  import opened Wrappers

  /** A task id: multiconfig, recipe file and task name. */
  datatype Tid = Tid(mc: string, fn: string, task: string)

  /** A locked signature and the variable it came from. */
  datatype LockedSig = LockedSig(hash: string, variable: string)

  /** What does not change during a build: the recipe name and the hash file name of each file of each multiconfig,
      and the locked signatures. */
  datatype Config = Config(pkgFn: (string, string) -> string, hashfn: (string, string) -> string,
                           lockedsigs: map<string, map<string, LockedSig>>)
  {
    function Recipe(tid: Tid): string {
      pkgFn(tid.mc, tid.fn)
    }

    /** The locked signature for a task, if there is one. */
    function LockedFor(tid: Tid): Option<LockedSig> {
      var recipe := Recipe(tid);
      if recipe in lockedsigs && tid.task in lockedsigs[recipe] then Some(lockedsigs[recipe][tid.task]) else None
    }
  }

  predicate ContainsAt(y: string, x: string, i: nat) {
    i + |x| <= |y| && y[i..i + |x|] == x
  }

  /** Python's `x in y` on strings. */
  predicate Contains(y: string, x: string) {
    exists i | 0 <= i <= |y| :: ContainsAt(y, x, i)
  }

  /** The decisions taken so far; `None` is the `False` of a task that is not locked. */
  datatype State = State(lockedhashes: map<Tid, Option<string>>, unlockedrecipes: set<string>)

  /** `tid in self.lockedhashes and self.lockedhashes[tid]`: "" counts as not locked. */
  predicate IsLocked(s: State, tid: Tid) {
    tid in s.lockedhashes && s.lockedhashes[tid].Some? && s.lockedhashes[tid].value != ""
  }

  /** How a dependency's recipe name is looked up among the unlocked ones: the code asks for an unlocked name
      inside it, where the comment beside it only speaks of the recipe itself. */
  datatype Match = Substring | WholeName

  predicate Hits(how: Match, recipe: string, x: string) {
    match how
    case Substring => Contains(recipe, x)
    case WholeName => recipe == x
  }

  /** Some dependency of the same multiconfig has a recipe name that hits an unlocked name. */
  predicate UnlockedByDep(how: Match, cfg: Config, unlocked: set<string>, tid: Tid, deps: seq<Tid>) {
    exists dep | dep in deps :: dep.mc == tid.mc && exists x | x in unlocked :: Hits(how, cfg.Recipe(dep), x)
  }

  /** The state after `get_taskhash`; the code's is the one for `Substring`. */
  function After(how: Match, cfg: Config, s: State, tid: Tid, deps: seq<Tid>): State {
    if tid in s.lockedhashes then s
    else
      var recipe := cfg.Recipe(tid);
      var direct := recipe in s.unlockedrecipes;
      var viaDep := !direct && UnlockedByDep(how, cfg, s.unlockedrecipes, tid, deps);
      var sig := cfg.LockedFor(tid);
      State(s.lockedhashes[tid := if !direct && !viaDep && sig.Some? then Some(sig.value.hash) else None],
            if viaDep then s.unlockedrecipes + {recipe} else s.unlockedrecipes)
  }

  /** What `get_taskhash` returns when the base class computes `computed`. */
  function Taskhash(cfg: Config, s: State, tid: Tid, deps: seq<Tid>, computed: string): string {
    if tid in s.lockedhashes then (if IsLocked(s, tid) then s.lockedhashes[tid].value else computed)
    else
      var entry := After(Substring, cfg, s, tid, deps).lockedhashes[tid];
      if entry.Some? then entry.value else computed
  }

  /** `get_stampfile_hash` and, outside `get_taskhash`, `get_cached_unihash`. */
  function Override(s: State, tid: Tid, base: string): string {
    if IsLocked(s, tid) then s.lockedhashes[tid].value else base
  }

  class SignatureGenerator {
    const cfg: Config
    var lockedhashes: map<Tid, Option<string>>
    var unlockedrecipes: set<string>
    var lockedpnmap: map<string, string>
    var lockedhashfn: map<string, string>
    var running: bool                        // `_internal`
    var mismatches: seq<(Tid, string, LockedSig)>
    var mismatchNumber: nat

    function Now(): State
      reads this
    {
      State(lockedhashes, unlockedrecipes)
    }

    /** Nobody outside `get_taskhash` sees `_internal` set. */
    predicate AtRest()
      reads this
    {
      !running
    }

    constructor (cfg: Config, unlocked: set<string>)
      ensures this.cfg == cfg && AtRest() && Now() == State(map[], unlocked)
      ensures lockedpnmap == map[] && lockedhashfn == map[] && mismatches == [] && mismatchNumber == 0
    {
      this.cfg := cfg;
      lockedhashes, unlockedrecipes, lockedpnmap, lockedhashfn := map[], unlocked, map[], map[];
      running, mismatches, mismatchNumber := false, [], 0;
    }

    /** `computed` and `unihash` are the answers of the base class. */
    method GetTaskhash(tid: Tid, deps: seq<Tid>, computed: string, unihash: string) returns (h: string)
      requires AtRest()
      modifies this
      ensures AtRest()
      ensures Now() == After(Substring, cfg, old(Now()), tid, deps) && h == Taskhash(cfg, old(Now()), tid, deps, computed)
      ensures lockedpnmap == if tid in old(lockedhashes) then old(lockedpnmap) else old(lockedpnmap)[tid.fn := cfg.Recipe(tid)]
      ensures lockedhashfn == if tid in old(lockedhashes) then old(lockedhashfn) else old(lockedhashfn)[tid.fn := cfg.hashfn(tid.mc, tid.fn)]
      ensures mismatchNumber - |mismatches| == old(mismatchNumber) - |old(mismatches)|
      ensures mismatches == old(mismatches) +
                            if tid !in old(lockedhashes) && lockedhashes[tid].Some? && h != computed && h != unihash
                            then [(tid, computed, cfg.LockedFor(tid).value)] else []
    {
      if tid in lockedhashes {
        if lockedhashes[tid].Some? && lockedhashes[tid].value != "" {
          return lockedhashes[tid].value;
        } else {
          return computed;
        }
      }
      h := computed;
      var recipename := cfg.Recipe(tid);
      lockedpnmap := lockedpnmap[tid.fn := recipename];
      lockedhashfn := lockedhashfn[tid.fn := cfg.hashfn(tid.mc, tid.fn)];
      var unlocked := false;
      if recipename in unlockedrecipes {
        unlocked := true;
      } else if UnlockedByDep(Substring, cfg, unlockedrecipes, tid, deps) {
        unlockedrecipes := unlockedrecipes + {recipename};
        unlocked := true;
      }
      if !unlocked && recipename in cfg.lockedsigs {
        if tid.task in cfg.lockedsigs[recipename] {
          var sig := cfg.lockedsigs[recipename][tid.task];
          lockedhashes := lockedhashes[tid := Some(sig.hash)];
          running := true;
          var actual := GetCachedUnihash(tid, unihash);
          running := false;
          if h != sig.hash && sig.hash != actual {
            mismatchNumber := mismatchNumber + 1;
            mismatches := mismatches + [(tid, h, sig)];
          }
          return sig.hash;
        }
      }
      lockedhashes := lockedhashes[tid := None];
    }

    method GetStampfileHash(tid: Tid, base: string) returns (h: string)
      ensures h == Override(Now(), tid, base)
    {
      if tid in lockedhashes && lockedhashes[tid].Some? && lockedhashes[tid].value != "" {
        return lockedhashes[tid].value;
      }
      return base;
    }

    method GetCachedUnihash(tid: Tid, base: string) returns (h: string)
      ensures h == if AtRest() then Override(Now(), tid, base) else base
    {
      if tid in lockedhashes && lockedhashes[tid].Some? && lockedhashes[tid].value != "" && !running {
        return lockedhashes[tid].value;
      }
      return base;
    }
  }

  // ---- whole runs ----------------------------------------------------------------------

  /** The state after asking for the hashes of the listed tasks in turn; `deps` gives each task's dependencies. */
  function AfterRun(how: Match, cfg: Config, deps: Tid -> seq<Tid>, s: State, run: seq<Tid>): State {
    if run == [] then s
    else
      var tid := run[|run| - 1];
      After(how, cfg, AfterRun(how, cfg, deps, s, run[..|run| - 1]), tid, deps(tid))
  }

  /** Every task is first asked about after its dependencies. */
  ghost predicate InOrder(deps: Tid -> seq<Tid>, run: seq<Tid>) {
    forall i, dep | 0 <= i < |run| && dep in deps(run[i]) && run[i] !in run[..i] :: dep in run[..i]
  }

  /** `chain` leads from `tid` over dependencies in the same multiconfig to a task of a recipe in `unlocked`. */
  ghost predicate ReachesUnlocked(cfg: Config, deps: Tid -> seq<Tid>, unlocked: set<string>, tid: Tid, chain: seq<Tid>)
    decreases |chain|
  {
    if chain == [] then cfg.Recipe(tid) in unlocked
    else chain[0] in deps(tid) && chain[0].mc == tid.mc && ReachesUnlocked(cfg, deps, unlocked, chain[0], chain[1..])
  }

  lemma {:induction false} RunGrows(how: Match, cfg: Config, deps: Tid -> seq<Tid>, s: State, run: seq<Tid>, n: nat)
    requires n <= |run|
    ensures var s1, s2 := AfterRun(how, cfg, deps, s, run[..n]), AfterRun(how, cfg, deps, s, run);
            && s1.unlockedrecipes <= s2.unlockedrecipes
            && (forall tid | tid in s1.lockedhashes :: tid in s2.lockedhashes && s2.lockedhashes[tid] == s1.lockedhashes[tid])
    decreases |run|
  {
    if n < |run| {
      assert run[..|run| - 1][..n] == run[..n];
      RunGrows(how, cfg, deps, s, run[..|run| - 1], n);
    } else {
      assert run[..n] == run;
    }
  }

  lemma HitsItself(how: Match, x: string)
    ensures Hits(how, x, x)
  {
    assert ContainsAt(x, x, 0);
  }

  /** A question about an undecided task that is unlocked, or has a dependency of an unlocked recipe. */
  lemma Unlocks(how: Match, cfg: Config, s: State, tid: Tid, deps: seq<Tid>, dep: Tid)
    requires tid !in s.lockedhashes
    requires dep == tid || (dep in deps && dep.mc == tid.mc)
    requires cfg.Recipe(dep) in s.unlockedrecipes
    ensures var t := After(how, cfg, s, tid, deps);
            tid in t.lockedhashes && t.lockedhashes[tid] == None && cfg.Recipe(tid) in t.unlockedrecipes
  {
    HitsItself(how, cfg.Recipe(dep));
  }

  lemma InOrderPrefix(deps: Tid -> seq<Tid>, run: seq<Tid>, last: Tid)
    requires InOrder(deps, run + [last])
    ensures InOrder(deps, run)
    ensures last !in run ==> forall dep | dep in deps(last) :: dep in run
  {
    var all := run + [last];
    assert all[|run|] == last && all[..|run|] == run;
    assert forall i | 0 <= i < |run| :: run[..i] == all[..i] && run[i] == all[i];
  }

  lemma RunOne(how: Match, cfg: Config, deps: Tid -> seq<Tid>, s: State, run: seq<Tid>, last: Tid)
    ensures AfterRun(how, cfg, deps, s, run + [last]) == After(how, cfg, AfterRun(how, cfg, deps, s, run), last, deps(last))
  {
    assert (run + [last])[..|run|] == run;
  }

  /** The first question about a task on the way to an unlocked recipe leaves it unlocked. */
  lemma {:induction false} FirstQuestion(how: Match, cfg: Config, deps: Tid -> seq<Tid>, unlocked: set<string>, run: seq<Tid>, tid: Tid, chain: seq<Tid>)
    requires InOrder(deps, run) && tid in run && ReachesUnlocked(cfg, deps, unlocked, tid, chain)
    ensures var s := AfterRun(how, cfg, deps, State(map[], unlocked), run);
            && tid in s.lockedhashes && s.lockedhashes[tid] == None && cfg.Recipe(tid) in s.unlockedrecipes
    decreases |chain|, |run|
  {
    var n := |run| - 1;
    var init, last := run[..n], run[n];
    assert run == init + [last];
    InOrderPrefix(deps, init, last);
    if tid in init {
      FirstQuestion(how, cfg, deps, unlocked, init, tid, chain);
      RunGrows(how, cfg, deps, State(map[], unlocked), run, n);
    } else {
      RunOne(how, cfg, deps, State(map[], unlocked), init, tid);
      AskedOnly(how, cfg, deps, unlocked, init);
      var s := AfterRun(how, cfg, deps, State(map[], unlocked), init);
      if chain == [] {
        StillUnlocked(how, cfg, deps, unlocked, init);
        Unlocks(how, cfg, s, tid, deps(tid), tid);
      } else {
        FirstQuestion(how, cfg, deps, unlocked, init, chain[0], chain[1..]);
        Unlocks(how, cfg, s, tid, deps(tid), chain[0]);
      }
    }
  }

  lemma StillUnlocked(how: Match, cfg: Config, deps: Tid -> seq<Tid>, unlocked: set<string>, run: seq<Tid>)
    ensures unlocked <= AfterRun(how, cfg, deps, State(map[], unlocked), run).unlockedrecipes
  {
    assert run[..0] == [];
    RunGrows(how, cfg, deps, State(map[], unlocked), run, 0);
  }

  lemma {:induction false} AskedOnly(how: Match, cfg: Config, deps: Tid -> seq<Tid>, unlocked: set<string>, run: seq<Tid>)
    ensures forall tid :: tid in AfterRun(how, cfg, deps, State(map[], unlocked), run).lockedhashes <==> tid in run
    decreases |run|
  {
    if run != [] {
      AskedOnly(how, cfg, deps, unlocked, run[..|run| - 1]);
      assert run == run[..|run| - 1] + [run[|run| - 1]];
    }
  }

  /** Over every run that asks about dependencies first: a task that reaches an initially unlocked recipe
      through dependencies of its multiconfig is decided unlocked. */
  lemma UnlockingPropagates(how: Match, cfg: Config, deps: Tid -> seq<Tid>, unlocked: set<string>, run: seq<Tid>)
    requires InOrder(deps, run)
    ensures var s := AfterRun(how, cfg, deps, State(map[], unlocked), run);
            forall tid, chain | tid in run && ReachesUnlocked(cfg, deps, unlocked, tid, chain) ::
              tid in s.lockedhashes && s.lockedhashes[tid] == None && cfg.Recipe(tid) in s.unlockedrecipes
  {
    forall tid, chain | tid in run && ReachesUnlocked(cfg, deps, unlocked, tid, chain)
      ensures var s := AfterRun(how, cfg, deps, State(map[], unlocked), run);
              tid in s.lockedhashes && s.lockedhashes[tid] == None && cfg.Recipe(tid) in s.unlockedrecipes
    {
      FirstQuestion(how, cfg, deps, unlocked, run, tid, chain);
    }
  }

  /** A step of an explanation why a recipe is unlocked: `task`, of that recipe, has the dependency `dep`,
      whose recipe name hits `name`, which is unlocked in turn. */
  datatype Reason = Reason(task: Tid, dep: Tid, name: string)

  ghost predicate Explains(how: Match, cfg: Config, deps: Tid -> seq<Tid>, unlocked: set<string>, run: seq<Tid>, recipe: string, why: seq<Reason>)
    decreases |why|
  {
    if why == [] then recipe in unlocked
    else
      && why[0].task in run && cfg.Recipe(why[0].task) == recipe
      && why[0].dep in deps(why[0].task) && why[0].dep.mc == why[0].task.mc
      && Hits(how, cfg.Recipe(why[0].dep), why[0].name)
      && Explains(how, cfg, deps, unlocked, run, why[0].name, why[1..])
  }

  lemma {:induction false} ExplainsMore(how: Match, cfg: Config, deps: Tid -> seq<Tid>, unlocked: set<string>, run: seq<Tid>, tid: Tid, recipe: string, why: seq<Reason>)
    requires Explains(how, cfg, deps, unlocked, run, recipe, why)
    ensures Explains(how, cfg, deps, unlocked, run + [tid], recipe, why)
    decreases |why|
  {
    if why != [] {
      ExplainsMore(how, cfg, deps, unlocked, run, tid, why[0].name, why[1..]);
    }
  }

  ghost predicate Explained(how: Match, cfg: Config, deps: Tid -> seq<Tid>, unlocked: set<string>, run: seq<Tid>, recipe: string) {
    exists why :: Explains(how, cfg, deps, unlocked, run, recipe, why)
  }

  /** The other direction: no recipe becomes unlocked without such a chain back to an initially unlocked one. */
  lemma {:induction false} UnlockingIsExplained(how: Match, cfg: Config, deps: Tid -> seq<Tid>, unlocked: set<string>, run: seq<Tid>)
    ensures forall r | r in AfterRun(how, cfg, deps, State(map[], unlocked), run).unlockedrecipes ::
              Explained(how, cfg, deps, unlocked, run, r)
    decreases |run|
  {
    if run == [] {
      var s := AfterRun(how, cfg, deps, State(map[], unlocked), run);
      forall r | r in s.unlockedrecipes
        ensures Explained(how, cfg, deps, unlocked, run, r)
      {
        assert Explains(how, cfg, deps, unlocked, run, r, []);
      }
    } else {
      var n := |run| - 1;
      var init, tid := run[..n], run[n];
      assert run == init + [tid];
      UnlockingIsExplained(how, cfg, deps, unlocked, init);
      var s := AfterRun(how, cfg, deps, State(map[], unlocked), init);
      var s' := AfterRun(how, cfg, deps, State(map[], unlocked), run);
      forall r | r in s'.unlockedrecipes
        ensures Explained(how, cfg, deps, unlocked, run, r)
      {
        if r in s.unlockedrecipes {
          var why :| Explains(how, cfg, deps, unlocked, init, r, why);
          ExplainsMore(how, cfg, deps, unlocked, init, tid, r, why);
        } else {
          var dep :| dep in deps(tid) && dep.mc == tid.mc && exists x | x in s.unlockedrecipes :: Hits(how, cfg.Recipe(dep), x);
          var x :| x in s.unlockedrecipes && Hits(how, cfg.Recipe(dep), x);
          var why :| Explains(how, cfg, deps, unlocked, init, x, why);
          ExplainsMore(how, cfg, deps, unlocked, init, tid, x, why);
          var all := [Reason(tid, dep, x)] + why;
          assert all[1..] == why;
          assert Explains(how, cfg, deps, unlocked, run, r, all);
        }
      }
    }
  }

  /** The test is on substrings: unlocking "gcc" also unlocks what depends on "gcc-runtime" alone. */
  lemma SubstringUnlocks(cfg: Config, tid: Tid, dep: Tid)
    requires dep.mc == tid.mc && cfg.Recipe(dep) == "gcc-runtime" && cfg.Recipe(tid) != "gcc"
    ensures var s := AfterRun(Substring, cfg, t => if t == tid then [dep] else [], State(map[], {"gcc"}), [tid]);
            s.lockedhashes[tid] == None && cfg.Recipe(tid) in s.unlockedrecipes
  {
    assert ContainsAt("gcc-runtime", "gcc", 0);
    assert dep in [dep] && "gcc" in {"gcc"};
    assert [tid][..0] == [];
  }

  /** Decisions are final: whatever is asked later, a task keeps the entry it got, a locked entry is the
      configured hash, and all three accessors answer it exactly if it is not the empty string. */
  lemma DecisionsAreFinal(cfg: Config, deps: Tid -> seq<Tid>, unlocked: set<string>, run: seq<Tid>, later: seq<Tid>, tid: Tid)
    requires tid in run
    ensures var s1 := AfterRun(Substring, cfg, deps, State(map[], unlocked), run);
            var s2 := AfterRun(Substring, cfg, deps, State(map[], unlocked), run + later);
            && tid in s1.lockedhashes && tid in s2.lockedhashes && s2.lockedhashes[tid] == s1.lockedhashes[tid]
            && match s1.lockedhashes[tid] {
                 case None => forall base :: Taskhash(cfg, s2, tid, deps(tid), base) == base == Override(s2, tid, base)
                 case Some(h) =>
                   && cfg.LockedFor(tid).Some? && cfg.LockedFor(tid).value.hash == h
                   && (h != "" <==> forall base :: Taskhash(cfg, s2, tid, deps(tid), base) == h == Override(s2, tid, base))
               }
  {
    AskedOnly(Substring, cfg, deps, unlocked, run);
    assert (run + later)[..|run|] == run;
    RunGrows(Substring, cfg, deps, State(map[], unlocked), run + later, |run|);
    LockedAsConfigured(Substring, cfg, deps, unlocked, run);
    var s2 := AfterRun(Substring, cfg, deps, State(map[], unlocked), run + later);
    var entry := s2.lockedhashes[tid];
    if entry == Some("") {
      assert Taskhash(cfg, s2, tid, deps(tid), "x") == "x";
    }
  }

  lemma {:induction false} LockedAsConfigured(how: Match, cfg: Config, deps: Tid -> seq<Tid>, unlocked: set<string>, run: seq<Tid>)
    ensures var s := AfterRun(how, cfg, deps, State(map[], unlocked), run);
            forall tid | tid in s.lockedhashes && s.lockedhashes[tid].Some? ::
              cfg.LockedFor(tid).Some? && cfg.LockedFor(tid).value.hash == s.lockedhashes[tid].value
    decreases |run|
  {
    if run != [] {
      LockedAsConfigured(how, cfg, deps, unlocked, run[..|run| - 1]);
    }
  }
}
