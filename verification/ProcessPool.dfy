/** oe/utils.py: `multiprocess_launch_mp`, as a step system over pending, running and finished items and
    as the polling loop that produces its runs. */
module ProcessPool {

  datatype Result<+T> = Ok(value: T) | Fatal(errors: seq<string>)

  /** How a child ends: a returned value with its truth value, an exception, or death without a message. */
  datatype Outcome<V> = Returned(value: V, truthy: bool) | Raised(error: string) | Died

  /** A child process: how often it is still found alive when polled, and how it ends. */
  datatype Job<V> = Job(polls: nat, outcome: Outcome<V>)

  /** The parent's lists, items and processes named by the item's position. */
  datatype State<V> = State(pending: seq<nat>, running: seq<nat>, finished: seq<nat>, errors: seq<string>, results: seq<V>)

  function Upto(n: nat): seq<nat> {
    if n == 0 then [] else Upto(n - 1) + [n - 1]
  }

  function Initial<V>(n: nat): State<V> {
    State(Upto(n), [], [], [], [])
  }

  function Errors<V>(o: Outcome<V>): seq<string> {
    if o.Raised? then [o.error] else []
  }

  function Results<V>(o: Outcome<V>): seq<V> {
    if o.Returned? && o.truthy then [o.value] else []
  }

  function Launched<V>(s: State<V>): State<V>
    requires s.pending != []
  {
    var n := |s.pending| - 1;
    s.(pending := s.pending[..n], running := s.running + [s.pending[n]])
  }

  function Collected<V>(jobs: seq<Job<V>>, s: State<V>, i: nat): State<V>
    requires i < |s.running| && s.running[i] < |jobs|
  {
    var q := s.running[i];
    var o := jobs[q].outcome;
    State(s.pending, s.running[..i] + s.running[i + 1..], s.finished + [q], s.errors + Errors(o), s.results + Results(o))
  }

  ghost predicate MayLaunch<V>(s: State<V>, max: nat) {
    s.errors == [] && s.pending != [] && |s.running| < max
  }

  ghost predicate Step<V>(jobs: seq<Job<V>>, max: nat, s: State<V>, s': State<V>) {
    || (MayLaunch(s, max) && s' == Launched(s))
    || (exists i: nat :: i < |s.running| && s.running[i] < |jobs| && s' == Collected(jobs, s, i))
  }

  /** Nothing runs, and nothing is left to launch or an error forbids it. */
  ghost predicate Over<V>(s: State<V>) {
    s.running == [] && (s.pending == [] || s.errors != [])
  }

  ghost predicate IsRun<V>(jobs: seq<Job<V>>, max: nat, run: seq<State<V>>) {
    && run != [] && run[0] == Initial(|jobs|)
    && forall k | 0 <= k < |run| - 1 :: Step(jobs, max, run[k], run[k + 1])
  }

  ghost function Extended<V>(jobs: seq<Job<V>>, max: nat, run: seq<State<V>>, s: State<V>): (run': seq<State<V>>)
    requires IsRun(jobs, max, run) && Step(jobs, max, run[|run| - 1], s)
    ensures IsRun(jobs, max, run') && run' == run + [s]
  {
    run + [s]
  }

  // ---- the polling loop ----------------------------------------------------------------

  function Total(polls: seq<nat>): nat {
    if polls == [] then 0 else Total(polls[..|polls| - 1]) + polls[|polls| - 1]
  }

  lemma {:induction false} TotalDrops(polls: seq<nat>, i: nat)
    requires i < |polls| && polls[i] > 0
    ensures Total(polls[i := polls[i] - 1]) == Total(polls) - 1
  {
    var n := |polls| - 1;
    if i < n {
      TotalDrops(polls[..n], i);
      assert polls[i := polls[i] - 1][..n] == polls[..n][i := polls[i] - 1];
    } else {
      assert polls[i := polls[i] - 1][..n] == polls[..n];
    }
  }

  /** The loop's variables are the last state of a legal run. */
  ghost predicate Tracks<V>(jobs: seq<Job<V>>, max: nat, run: seq<State<V>>, s: State<V>, polls: seq<nat>) {
    IsRun(jobs, max, run) && s == run[|run| - 1] && Partition(jobs, s) && |polls| == |jobs|
  }

  lemma FirstTracks<V>(jobs: seq<Job<V>>, max: nat, polls: seq<nat>)
    requires |polls| == |jobs|
    ensures Tracks(jobs, max, [Initial<V>(|jobs|)], Initial(|jobs|), polls)
  {
  }

  lemma LaunchTracks<V>(jobs: seq<Job<V>>, max: nat, run0: seq<State<V>>, s0: State<V>, polls: seq<nat>)
    returns (run: seq<State<V>>, s: State<V>)
    requires Tracks(jobs, max, run0, s0, polls) && MayLaunch(s0, max)
    ensures s == Launched(s0) && Tracks(jobs, max, run, s, polls)
  {
    s := Launched(s0);
    LaunchKeepsPartition(jobs, s0);
    run := Extended(jobs, max, run0, s);
  }

  lemma CollectTracks<V>(jobs: seq<Job<V>>, max: nat, run0: seq<State<V>>, s0: State<V>, polls: seq<nat>, i: nat)
    returns (run: seq<State<V>>, s: State<V>)
    requires Tracks(jobs, max, run0, s0, polls) && i < |s0.running| && s0.running[i] < |jobs|
    ensures s == Collected(jobs, s0, i) && Tracks(jobs, max, run, s, polls)
  {
    s := Collected(jobs, s0, i);
    CollectKeepsPartition(jobs, s0, i);
    run := Extended(jobs, max, run0, s);
  }

  /** `launched` is the list of running children; `polls` counts how often each will still be found alive. */
  method MultiprocessLaunch<V>(jobs: seq<Job<V>>, maxProcess: nat) returns (r: Result<seq<V>>, ghost run: seq<State<V>>)
    requires maxProcess > 0 || jobs == []
    ensures IsRun(jobs, maxProcess, run) && Over(run[|run| - 1])
    ensures var last := run[|run| - 1];
            r == if last.errors != [] then Fatal(last.errors) else Ok(last.results)
    ensures r.Ok? ==> NoneRaised(jobs) && multiset(r.value) == multiset(AllResults(jobs))
    ensures r.Ok? ==> (|r.value| == |jobs| <==> AllTruthy(jobs)) && DeadAreDone(jobs, run[|run| - 1])
    ensures r.Fatal? ==> r.errors != [] && forall e | e in r.errors :: RaisedBySome(jobs, e)
  {
    var items: seq<nat>, launched: seq<nat> := Upto(|jobs|), [];
    var errors: seq<string>, results: seq<V> := [], [];
    var polls: seq<nat> := seq(|jobs|, i requires 0 <= i < |jobs| => jobs[i].polls);
    ghost var s: State<V> := Initial(|jobs|);
    run := [s];
    FirstTracks(jobs, maxProcess, polls);
    while (items != [] && errors == []) || launched != []
      invariant Tracks(jobs, maxProcess, run, s, polls)
      invariant s == State(items, launched, s.finished, errors, results)
      decreases |items|, |launched|, Total(polls)
    {
      if errors == [] && items != [] && |launched| < maxProcess {
        var p := items[|items| - 1];
        run, s := LaunchTracks(jobs, maxProcess, run, s, polls);
        items, launched := items[..|items| - 1], launched + [p];
      }
      launched, errors, results, polls, run, s := PollAll(jobs, maxProcess, items, launched, errors, results, polls, run, s);
    }
    r := if errors != [] then Fatal(errors) else Ok(results);
    Verdict(jobs, maxProcess, run, r);
  }

  /** `for q in launched`, which removes from `launched` while it iterates: the child after a removed one
      is passed over until the next time. */
  method PollAll<V>(jobs: seq<Job<V>>, ghost maxProcess: nat, ghost items: seq<nat>, launched0: seq<nat>,
                    errors0: seq<string>, results0: seq<V>, polls0: seq<nat>, ghost run0: seq<State<V>>, ghost s0: State<V>)
    returns (launched: seq<nat>, errors: seq<string>, results: seq<V>, polls: seq<nat>, ghost run: seq<State<V>>, ghost s: State<V>)
    requires Tracks(jobs, maxProcess, run0, s0, polls0)
    requires s0 == State(items, launched0, s0.finished, errors0, results0)
    ensures Tracks(jobs, maxProcess, run, s, polls)
    ensures s == State(items, launched, s.finished, errors, results)
    ensures launched0 == [] || |launched| < |launched0| || (|launched| == |launched0| && Total(polls) < Total(polls0))
    ensures |launched| <= |launched0|
  {
    launched, errors, results, polls, run, s := launched0, errors0, results0, polls0, run0, s0;
    var i := 0;
    while i < |launched|
      invariant Tracks(jobs, maxProcess, run, s, polls)
      invariant s == State(items, launched, s.finished, errors, results)
      invariant |launched| <= |launched0| && Total(polls) <= Total(polls0)
      invariant i == 0 ==> launched == launched0
      invariant i > 0 && |launched| == |launched0| ==> Total(polls) < Total(polls0)
    {
      var q := launched[i];
      RunningInRange(jobs, s, i);
      if polls[q] > 0 {
        TotalDrops(polls, q);
        polls := polls[q := polls[q] - 1];
      } else {
        run, s := CollectTracks(jobs, maxProcess, run, s, polls, i);
        var outcome := jobs[q].outcome;
        if outcome.Raised? {
          errors := errors + [outcome.error];
        }
        if outcome.Returned? && outcome.truthy {
          results := results + [outcome.value];
        }
        launched := launched[..i] + launched[i + 1..];
      }
      i := i + 1;
    }
  }

  // ---- what every run keeps ------------------------------------------------------------

  /** Every item is in exactly one of the three lists, once. */
  ghost predicate Partition<V>(jobs: seq<Job<V>>, s: State<V>) {
    multiset(s.pending) + multiset(s.running) + multiset(s.finished) == multiset(Upto(|jobs|))
  }

  lemma {:induction false} UptoCounts(n: nat)
    ensures |Upto(n)| == n
    ensures forall i | 0 <= i < n :: Upto(n)[i] == i
  {
    if n > 0 {
      UptoCounts(n - 1);
    }
  }

  lemma InitialPartition<V>(jobs: seq<Job<V>>)
    ensures Partition(jobs, Initial<V>(|jobs|))
  {
  }

  lemma RunningInRange<V>(jobs: seq<Job<V>>, s: State<V>, i: nat)
    requires Partition(jobs, s) && i < |s.running|
    ensures s.running[i] < |jobs|
  {
    UptoCounts(|jobs|);
    assert s.running[i] in multiset(s.running);
    assert s.running[i] in multiset(Upto(|jobs|));
    assert s.running[i] in Upto(|jobs|);
  }

  lemma LaunchKeepsPartition<V>(jobs: seq<Job<V>>, s: State<V>)
    requires Partition(jobs, s) && s.pending != []
    ensures Partition(jobs, Launched(s))
  {
    var n := |s.pending| - 1;
    assert s.pending == s.pending[..n] + [s.pending[n]];
  }

  lemma CollectKeepsPartition<V>(jobs: seq<Job<V>>, s: State<V>, i: nat)
    requires Partition(jobs, s) && i < |s.running| && s.running[i] < |jobs|
    ensures Partition(jobs, Collected(jobs, s, i))
  {
    assert s.running == s.running[..i] + [s.running[i]] + s.running[i + 1..];
  }

  predicate Known(n: nat, ids: seq<nat>) {
    forall i | 0 <= i < |ids| :: ids[i] < n
  }

  function CollectErrors<V>(jobs: seq<Job<V>>, ids: seq<nat>): seq<string>
    requires Known(|jobs|, ids)
  {
    if ids == [] then [] else CollectErrors(jobs, ids[..|ids| - 1]) + Errors(jobs[ids[|ids| - 1]].outcome)
  }

  function CollectResults<V>(jobs: seq<Job<V>>, ids: seq<nat>): seq<V>
    requires Known(|jobs|, ids)
  {
    if ids == [] then [] else CollectResults(jobs, ids[..|ids| - 1]) + Results(jobs[ids[|ids| - 1]].outcome)
  }

  /** The two lists hold the outcomes of what has finished. */
  ghost predicate Recorded<V>(jobs: seq<Job<V>>, s: State<V>) {
    && Known(|jobs|, s.finished)
    && s.errors == CollectErrors(jobs, s.finished)
    && s.results == CollectResults(jobs, s.finished)
  }

  /** What holds in every state of every run: nothing is lost or done twice, no more than `max` children
      live, items go from the end, and the lists of errors and results are up to date. */
  ghost predicate Sound<V>(jobs: seq<Job<V>>, max: nat, s: State<V>) {
    && Partition(jobs, s)
    && |s.running| <= max
    && s.pending == Upto(|s.pending|)
    && Recorded(jobs, s)
  }

  lemma CollectedRecorded<V>(jobs: seq<Job<V>>, s: State<V>, i: nat)
    requires Recorded(jobs, s) && i < |s.running| && s.running[i] < |jobs|
    ensures Recorded(jobs, Collected(jobs, s, i))
  {
    assert Collected(jobs, s, i).finished[..|s.finished|] == s.finished;
  }

  lemma LaunchSound<V>(jobs: seq<Job<V>>, max: nat, s: State<V>)
    requires Sound(jobs, max, s) && MayLaunch(s, max)
    ensures Sound(jobs, max, Launched(s))
  {
    LaunchKeepsPartition(jobs, s);
    assert s.pending == Upto(|s.pending| - 1) + [|s.pending| - 1];
  }

  lemma CollectSound<V>(jobs: seq<Job<V>>, max: nat, s: State<V>, i: nat)
    requires Sound(jobs, max, s) && i < |s.running| && s.running[i] < |jobs|
    ensures Sound(jobs, max, Collected(jobs, s, i))
  {
    CollectKeepsPartition(jobs, s, i);
    CollectedRecorded(jobs, s, i);
  }

  lemma StepSound<V>(jobs: seq<Job<V>>, max: nat, s: State<V>, s': State<V>)
    requires Sound(jobs, max, s) && Step(jobs, max, s, s')
    ensures Sound(jobs, max, s')
  {
    if MayLaunch(s, max) && s' == Launched(s) {
      LaunchSound(jobs, max, s);
    } else {
      var i: nat :| i < |s.running| && s.running[i] < |jobs| && s' == Collected(jobs, s, i);
      CollectSound(jobs, max, s, i);
    }
  }

  lemma {:induction false} RunSound<V>(jobs: seq<Job<V>>, max: nat, run: seq<State<V>>, k: nat)
    requires IsRun(jobs, max, run) && k < |run|
    ensures Sound(jobs, max, run[k])
  {
    if k == 0 {
      InitialPartition(jobs);
      UptoCounts(|jobs|);
    } else {
      RunSound(jobs, max, run, k - 1);
      assert Step(jobs, max, run[k - 1], run[k - 1 + 1]);
      StepSound(jobs, max, run[k - 1], run[k]);
    }
  }

  /** Once an error is recorded it stays, and nothing is launched any more. */
  lemma {:induction false} NoLaunchAfterError<V>(jobs: seq<Job<V>>, max: nat, run: seq<State<V>>, k: nat, j: nat)
    requires IsRun(jobs, max, run) && k <= j < |run| && run[k].errors != []
    ensures run[j].pending == run[k].pending && run[k].errors <= run[j].errors
    decreases j
  {
    if k < j {
      NoLaunchAfterError(jobs, max, run, k, j - 1);
      assert Step(jobs, max, run[j - 1], run[j - 1 + 1]);
    }
  }

  lemma {:induction false} CollectAppend<V>(jobs: seq<Job<V>>, a: seq<nat>, b: seq<nat>)
    requires Known(|jobs|, a) && Known(|jobs|, b)
    ensures CollectResults(jobs, a + b) == CollectResults(jobs, a) + CollectResults(jobs, b)
    decreases |b|
  {
    if b == [] {
      assert a + b == a;
    } else {
      var init := b[..|b| - 1];
      assert (a + b)[..|a + b| - 1] == a + init;
      CollectAppend(jobs, a, init);
    }
  }

  lemma CancelOne<T>(m: multiset<T>, m': multiset<T>, x: T)
    requires m + multiset{x} == m' + multiset{x}
    ensures m == m'
  {
    assert m == m + multiset{x} - multiset{x} && m' == m' + multiset{x} - multiset{x};
  }

  lemma WithoutOne<T>(b: seq<T>, i: nat)
    requires i < |b|
    ensures multiset(b) == multiset(b[..i] + b[i + 1..]) + multiset{b[i]}
  {
    assert b == b[..i] + [b[i]] + b[i + 1..];
  }

  lemma SingleResult<V>(jobs: seq<Job<V>>, q: nat)
    requires q < |jobs|
    ensures CollectResults(jobs, [q]) == Results(jobs[q].outcome)
  {
    assert [q][..0] == [];
  }

  /** Taking one finished item out of the middle takes out its results. */
  lemma CollectWithout<V>(jobs: seq<Job<V>>, b: seq<nat>, i: nat)
    requires Known(|jobs|, b) && i < |b|
    ensures multiset(CollectResults(jobs, b)) == multiset(CollectResults(jobs, b[..i] + b[i + 1..])) + multiset(Results(jobs[b[i]].outcome))
  {
    var u, x, v := b[..i], [b[i]], b[i + 1..];
    assert b == u + x + v;
    CollectAppend(jobs, u, v);
    CollectAppend(jobs, u, x);
    CollectAppend(jobs, u + x, v);
    SingleResult(jobs, b[i]);
  }

  lemma {:induction false} ResultsPermute<V>(jobs: seq<Job<V>>, a: seq<nat>, b: seq<nat>)
    requires Known(|jobs|, a) && Known(|jobs|, b) && multiset(a) == multiset(b)
    ensures multiset(CollectResults(jobs, a)) == multiset(CollectResults(jobs, b))
    decreases |a|
  {
    if a == [] {
      assert |multiset(b)| == 0;
    } else {
      var n := |a| - 1;
      assert a == a[..n] + [a[n]];
      assert a[n] in multiset(b);
      var i :| 0 <= i < |b| && b[i] == a[n];
      WithoutOne(b, i);
      assert multiset(a) == multiset(a[..n]) + multiset{a[n]};
      CancelOne(multiset(a[..n]), multiset(b[..i] + b[i + 1..]), a[n]);
      ResultsPermute(jobs, a[..n], b[..i] + b[i + 1..]);
      CollectWithout(jobs, b, i);
    }
  }

  lemma {:induction false} RaisedIsRecorded<V>(jobs: seq<Job<V>>, ids: seq<nat>, i: nat)
    requires Known(|jobs|, ids) && i < |ids|
    ensures jobs[ids[i]].outcome.Raised? ==> CollectErrors(jobs, ids) != []
  {
    if i < |ids| - 1 {
      RaisedIsRecorded(jobs, ids[..|ids| - 1], i);
    }
  }

  /** When a run is over without an error, every item ran exactly once, none raised, and the results are,
      as a multiset, the truthy values the children returned. */
  lemma ErrorFreeRunIsComplete<V>(jobs: seq<Job<V>>, max: nat, run: seq<State<V>>)
    requires IsRun(jobs, max, run) && Over(run[|run| - 1]) && run[|run| - 1].errors == []
    ensures var last := run[|run| - 1];
            && multiset(last.finished) == multiset(Upto(|jobs|))
            && (forall q | 0 <= q < |jobs| :: !jobs[q].outcome.Raised?)
            && Known(|jobs|, Upto(|jobs|))
            && multiset(last.results) == multiset(CollectResults(jobs, Upto(|jobs|)))
  {
    var last := run[|run| - 1];
    RunSound(jobs, max, run, |run| - 1);
    UptoCounts(|jobs|);
    assert multiset(last.finished) == multiset(Upto(|jobs|));
    ResultsPermute(jobs, last.finished, Upto(|jobs|));
    NothingRaised(jobs, last.finished);
  }

  lemma NothingRaised<V>(jobs: seq<Job<V>>, ids: seq<nat>)
    requires Known(|jobs|, ids) && multiset(ids) == multiset(Upto(|jobs|)) && CollectErrors(jobs, ids) == []
    ensures forall q | 0 <= q < |jobs| :: !jobs[q].outcome.Raised?
  {
    EachListed(|jobs|, ids);
    forall q | 0 <= q < |jobs|
      ensures !jobs[q].outcome.Raised?
    {
      assert q in ids;
      var i :| 0 <= i < |ids| && ids[i] == q;
      RaisedIsRecorded(jobs, ids, i);
    }
  }

  // ---- what the caller gets ------------------------------------------------------------

  predicate NoneRaised<V>(jobs: seq<Job<V>>) {
    forall q | 0 <= q < |jobs| :: !jobs[q].outcome.Raised?
  }

  ghost predicate RaisedBySome<V>(jobs: seq<Job<V>>, error: string) {
    exists q | 0 <= q < |jobs| :: jobs[q].outcome == Raised(error)
  }

  /** The truthy results of all items, in the order of the items. */
  function AllResults<V>(jobs: seq<Job<V>>): seq<V> {
    UptoCounts(|jobs|);
    CollectResults(jobs, Upto(|jobs|))
  }

  lemma {:induction false} ErrorsAreRaised<V>(jobs: seq<Job<V>>, ids: seq<nat>, e: string)
    requires Known(|jobs|, ids) && e in CollectErrors(jobs, ids)
    ensures RaisedBySome(jobs, e)
  {
    var n := |ids| - 1;
    if e in CollectErrors(jobs, ids[..n]) {
      ErrorsAreRaised(jobs, ids[..n], e);
    } else {
      assert jobs[ids[n]].outcome == Raised(e);
    }
  }

  /** The end of any run: all items done and no error raised, or only errors that items raised. */
  lemma RunResult<V>(jobs: seq<Job<V>>, max: nat, run: seq<State<V>>)
    requires IsRun(jobs, max, run) && Over(run[|run| - 1])
    ensures var last := run[|run| - 1];
            && (last.errors == [] ==> NoneRaised(jobs) && multiset(last.results) == multiset(AllResults(jobs)))
            && (forall e | e in last.errors :: RaisedBySome(jobs, e))
  {
    var last := run[|run| - 1];
    if last.errors == [] {
      ErrorFreeRunIsComplete(jobs, max, run);
    }
    RunSound(jobs, max, run, |run| - 1);
    forall e | e in last.errors ensures RaisedBySome(jobs, e) {
      ErrorsAreRaised(jobs, last.finished, e);
    }
  }

  /** What the caller is told, from the last state of a run. */
  lemma Verdict<V>(jobs: seq<Job<V>>, max: nat, run: seq<State<V>>, r: Result<seq<V>>)
    requires IsRun(jobs, max, run) && Over(run[|run| - 1])
    requires r == if run[|run| - 1].errors != [] then Fatal(run[|run| - 1].errors) else Ok(run[|run| - 1].results)
    ensures r.Ok? ==> NoneRaised(jobs) && multiset(r.value) == multiset(AllResults(jobs))
    ensures r.Ok? ==> (|r.value| == |jobs| <==> AllTruthy(jobs)) && DeadAreDone(jobs, run[|run| - 1])
    ensures r.Fatal? ==> r.errors != [] && forall e | e in r.errors :: RaisedBySome(jobs, e)
  {
    RunResult(jobs, max, run);
    if r.Ok? {
      ResultForEachIff(jobs, max, run);
      DeadChildrenAreDone(jobs, max, run);
    }
  }

  // ---- children that die without a message -----------------------------------------------

  /** The items whose child did not die. */
  function Living<V>(jobs: seq<Job<V>>, ids: seq<nat>): seq<nat>
    requires Known(|jobs|, ids)
  {
    if ids == [] then []
    else
      var n := |ids| - 1;
      Living(jobs, ids[..n]) + if jobs[ids[n]].outcome.Died? then [] else [ids[n]]
  }

  /** Items of dead children are among the finished ones, and both lists are what they would be without them. */
  ghost predicate DeadAreDone<V>(jobs: seq<Job<V>>, s: State<V>) {
    && (forall q | 0 <= q < |jobs| && jobs[q].outcome.Died? :: q in s.finished)
    && Known(|jobs|, s.finished) && Known(|jobs|, Living(jobs, s.finished))
    && s.errors == CollectErrors(jobs, Living(jobs, s.finished))
    && s.results == CollectResults(jobs, Living(jobs, s.finished))
  }

  lemma LivingAppend<V>(jobs: seq<Job<V>>, ids: seq<nat>, q: nat)
    requires Known(|jobs|, ids) && q < |jobs|
    ensures Known(|jobs|, ids + [q])
    ensures CollectErrors(jobs, ids + [q]) == CollectErrors(jobs, ids) + Errors(jobs[q].outcome)
    ensures CollectResults(jobs, ids + [q]) == CollectResults(jobs, ids) + Results(jobs[q].outcome)
  {
    assert (ids + [q])[..|ids|] == ids;
  }

  /** A dead child adds nothing. */
  lemma {:induction false} DeadAddNothing<V>(jobs: seq<Job<V>>, ids: seq<nat>)
    requires Known(|jobs|, ids)
    ensures Known(|jobs|, Living(jobs, ids))
    ensures CollectErrors(jobs, Living(jobs, ids)) == CollectErrors(jobs, ids)
    ensures CollectResults(jobs, Living(jobs, ids)) == CollectResults(jobs, ids)
  {
    if ids != [] {
      var n := |ids| - 1;
      var init, q := ids[..n], ids[n];
      assert ids == init + [q];
      DeadAddNothing(jobs, init);
      LivingAppend(jobs, init, q);
      if jobs[q].outcome.Died? {
        assert Living(jobs, ids) == Living(jobs, init);
      } else {
        LivingAppend(jobs, Living(jobs, init), q);
      }
    }
  }

  lemma EachListed(n: nat, ids: seq<nat>)
    requires multiset(ids) == multiset(Upto(n))
    ensures forall q | 0 <= q < n :: q in ids
  {
    UptoCounts(n);
    forall q | 0 <= q < n
      ensures q in ids
    {
      assert Upto(n)[q] == q;
      assert q in multiset(ids);
    }
  }

  lemma RecordedDead<V>(jobs: seq<Job<V>>, s: State<V>)
    requires Recorded(jobs, s) && forall q | 0 <= q < |jobs| :: q in s.finished
    ensures DeadAreDone(jobs, s)
  {
    DeadAddNothing(jobs, s.finished);
  }

  /** Every run that ends without an error: each dead child's item is finished, and the lists do not show it. */
  lemma DeadChildrenAreDone<V>(jobs: seq<Job<V>>, max: nat, run: seq<State<V>>)
    requires IsRun(jobs, max, run) && Over(run[|run| - 1]) && run[|run| - 1].errors == []
    ensures DeadAreDone(jobs, run[|run| - 1])
  {
    RunSound(jobs, max, run, |run| - 1);
    ErrorFreeRunIsComplete(jobs, max, run);
    EachListed(|jobs|, run[|run| - 1].finished);
    RecordedDead(jobs, run[|run| - 1]);
  }

  predicate Truthy<V>(o: Outcome<V>) {
    o.Returned? && o.truthy
  }

  predicate AllTruthy<V>(jobs: seq<Job<V>>) {
    forall q | 0 <= q < |jobs| :: Truthy(jobs[q].outcome)
  }

  lemma KnownUpto<V>(jobs: seq<Job<V>>, n: nat)
    requires n <= |jobs|
    ensures Known(|jobs|, Upto(n))
  {
    UptoCounts(n);
  }

  lemma CollectedNext<V>(jobs: seq<Job<V>>, n: nat)
    requires 0 < n <= |jobs| && Known(|jobs|, Upto(n)) && Known(|jobs|, Upto(n - 1))
    ensures CollectResults(jobs, Upto(n)) == CollectResults(jobs, Upto(n - 1)) + Results(jobs[n - 1].outcome)
  {
    assert (Upto(n - 1) + [n - 1])[..|Upto(n - 1)|] == Upto(n - 1);
  }

  predicate TruthyUpto<V>(jobs: seq<Job<V>>, n: nat)
    requires n <= |jobs|
  {
    forall q | 0 <= q < n :: Truthy(jobs[q].outcome)
  }

  lemma TruthyNext<V>(jobs: seq<Job<V>>, n: nat)
    requires 0 < n <= |jobs|
    ensures TruthyUpto(jobs, n) <==> TruthyUpto(jobs, n - 1) && Truthy(jobs[n - 1].outcome)
  {
  }

  lemma {:induction false} CollectedCount<V>(jobs: seq<Job<V>>, n: nat)
    requires n <= |jobs| && Known(|jobs|, Upto(n))
    ensures |CollectResults(jobs, Upto(n))| <= n
    ensures |CollectResults(jobs, Upto(n))| == n <==> TruthyUpto(jobs, n)
  {
    if n > 0 {
      KnownUpto(jobs, n - 1);
      CollectedNext(jobs, n);
      TruthyNext(jobs, n);
      CollectedCount(jobs, n - 1);
    }
  }

  /** A return without an error has as many results as items if and only if every child returned something
      truthy: one that died, like one that returned None, leaves its item without a result and without an error. */
  lemma ResultForEachIff<V>(jobs: seq<Job<V>>, max: nat, run: seq<State<V>>)
    requires IsRun(jobs, max, run) && Over(run[|run| - 1]) && run[|run| - 1].errors == []
    ensures |run[|run| - 1].results| == |jobs| <==> AllTruthy(jobs)
  {
    var last := run[|run| - 1];
    RunResult(jobs, max, run);
    UptoCounts(|jobs|);
    CollectedCount(jobs, |jobs|);
    assert |multiset(last.results)| == |multiset(AllResults(jobs))|;
  }

  lemma OnlyLaunch<V>(jobs: seq<Job<V>>, max: nat)
    requires max > 0
    ensures Step(jobs, max, Initial(1), State([], [0], [], [], []))
  {
    assert Upto(1) == [0] by {
      assert Upto(0) == [];
    }
    var s: State<V> := Initial(1);
    assert [0][..0] == [] && [] + [0] == [0];
    assert Launched(s) == State([], [0], [], [], []);
  }

  lemma OnlyDies<V>(jobs: seq<Job<V>>, max: nat)
    requires |jobs| == 1 && jobs[0].outcome.Died?
    ensures Step(jobs, max, State([], [0], [], [], []), State([], [], [0], [], []))
  {
    var s: State<V> := State([], [0], [], [], []);
    assert Collected(jobs, s, 0) == State([], [], [0], [], []);
  }

  /** One item whose child dies at once: the pool ends without an error and with nothing. */
  lemma DeadChildIsDone<V>(polls: nat, max: nat)
    requires max > 0
    ensures var jobs: seq<Job<V>> := [Job(polls, Died)];
            var run: seq<State<V>> := [Initial(1), State([], [0], [], [], []), State([], [], [0], [], [])];
            && IsRun(jobs, max, run) && Over(run[2]) && run[2].errors == [] && run[2].results == [] && jobs[0].outcome.Died?
  {
    var jobs: seq<Job<V>> := [Job(polls, Died)];
    OnlyLaunch(jobs, max);
    OnlyDies(jobs, max);
  }
}
