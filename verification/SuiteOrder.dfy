/** oetest.py: `loadTests` orders test suites so that what a suite's tests need has run before. */
module SuiteOrder {
  import opened Wrappers

  /** A test method and the method its `@skipUnlessPassed` names ("" for none). */
  datatype Test = Test(name: string, dependsOn: string)

  // ---- the dependency graph ------------------------------------------------------------

  predicate Defines(tests: seq<Test>, name: string) {
    exists k | 0 <= k < |tests| :: tests[k].name == name
  }

  /** The first suite from `j` on that has the test. */
  function Provider(all: seq<seq<Test>>, name: string, j: nat): (r: Option<nat>)
    ensures r.Some? ==> j <= r.value < |all| && Defines(all[r.value], name)
    decreases |all| - j
  {
    if j >= |all| then None else if Defines(all[j], name) then Some(j) else Provider(all, name, j + 1)
  }

  /** Suite `h` has a test method of that name. */
  predicate HasTest(all: seq<seq<Test>>, h: nat, name: string)
    requires h < |all|
  {
    exists t | t in all[h] :: t.name == name
  }

  lemma {:induction false} ProviderFrom(all: seq<seq<Test>>, name: string, j: nat)
    requires j <= |all|
    ensures match Provider(all, name, j) {
              case None => forall h: nat | j <= h < |all| :: !HasTest(all, h, name)
              case Some(p) => HasTest(all, p, name) && forall h: nat | j <= h < p :: !HasTest(all, h, name)
            }
    decreases |all| - j
  {
    if j < |all| {
      ProviderFrom(all, name, j + 1);
      assert Defines(all[j], name) <==> HasTest(all, j, name);
    }
  }

  /** The provider of a method is the first suite that has it. */
  lemma ProviderIff(all: seq<seq<Test>>, name: string, p: nat)
    ensures Provider(all, name, 0) == Some(p) <==>
            p < |all| && HasTest(all, p, name) && forall h: nat | h < p :: !HasTest(all, h, name)
  {
    ProviderFrom(all, name, 0);
  }

  function AddDep(all: seq<seq<Test>>, i: nat, deps: seq<nat>, t: Test): seq<nat> {
    var p := Provider(all, t.dependsOn, 0);
    if t.dependsOn != "" && p.Some? && p.value != i && p.value !in deps then deps + [p.value] else deps
  }

  function DepsFrom(all: seq<seq<Test>>, i: nat, deps: seq<nat>, tests: seq<Test>): seq<nat>
    decreases |tests|
  {
    if tests == [] then deps else DepsFrom(all, i, AddDep(all, i, deps, tests[0]), tests[1..])
  }

  /** The suites that suite `i` depends on, by position. */
  function Deps(all: seq<seq<Test>>, i: nat): seq<nat>
    requires i < |all|
  {
    DepsFrom(all, i, [], all[i])
  }

  lemma {:induction false} DepsMembers(all: seq<seq<Test>>, i: nat, deps: seq<nat>, tests: seq<Test>, j: nat)
    ensures j in DepsFrom(all, i, deps, tests) <==>
            j in deps || (j != i && exists t | t in tests :: t.dependsOn != "" && Provider(all, t.dependsOn, 0) == Some(j))
    decreases |tests|
  {
    if tests != [] {
      DepsMembers(all, i, AddDep(all, i, deps, tests[0]), tests[1..], j);
      assert tests == [tests[0]] + tests[1..];
    }
  }

  /** A suite depends on exactly the other suites that are first to define a test one of its own needs. */
  lemma DependencyMeaning(all: seq<seq<Test>>, i: nat, j: nat)
    requires i < |all|
    ensures j in Deps(all, i) <==> j != i && exists t | t in all[i] :: t.dependsOn != "" && Provider(all, t.dependsOn, 0) == Some(j)
  {
    DepsMembers(all, i, [], all[i], j);
  }

  /** For each suite the suites it depends on. */
  type Graph = seq<seq<nat>>

  function GraphOf(all: seq<seq<Test>>): (g: Graph)
    ensures |g| == |all| && forall i | 0 <= i < |all| :: g[i] == Deps(all, i)
  {
    seq(|all|, i requires 0 <= i < |all| => Deps(all, i))
  }

  /** `rank` falls along every dependency. */
  ghost predicate Ranks(g: Graph, rank: nat -> nat) {
    forall i, k | 0 <= i < |g| && 0 <= k < |g[i]| :: rank(g[i][k]) < rank(i)
  }

  ghost predicate Acyclic(g: Graph) {
    exists rank: nat -> nat :: Ranks(g, rank)
  }

  /** A chain of dependencies that starts at suite `i`. */
  ghost predicate IsChain(g: Graph, i: nat, chain: seq<nat>)
    decreases |chain|
  {
    i < |g| && (chain == [] || (chain[0] in g[i] && IsChain(g, chain[0], chain[1..])))
  }

  ghost predicate HasChain(g: Graph, i: nat, n: nat) {
    exists chain :: |chain| == n && IsChain(g, i, chain)
  }

  /** `n` is the length of the longest chain from suite `i`. */
  ghost predicate Longest(g: Graph, i: nat, n: nat) {
    HasChain(g, i, n) && forall m: nat :: HasChain(g, i, m) ==> m <= n
  }

  /** The longest chain from `j` is shorter than `d`. */
  ghost predicate Under(g: Graph, j: nat, d: nat) {
    exists n: nat :: Longest(g, j, n) && n < d
  }

  ghost predicate AllUnder(g: Graph, deps: seq<nat>, k: nat, d: nat) {
    k <= |deps| && forall j | 0 <= j < k :: Under(g, deps[j], d)
  }

  lemma UnderStays(g: Graph, deps: seq<nat>, k: nat, d: nat, d': nat)
    requires k < |deps| && AllUnder(g, deps, k, d) && d <= d' && Under(g, deps[k], d')
    ensures AllUnder(g, deps, k + 1, d')
  {
    forall j | 0 <= j < k
      ensures Under(g, deps[j], d')
    {
      var n: nat :| Longest(g, deps[j], n) && n < d;
    }
  }

  lemma ChainStep(g: Graph, i: nat, j: nat, n: nat)
    requires i < |g| && j in g[i] && HasChain(g, j, n)
    ensures HasChain(g, i, n + 1)
  {
    var chain :| |chain| == n && IsChain(g, j, chain);
    assert ([j] + chain)[1..] == chain;
    assert IsChain(g, i, [j] + chain);
  }

  lemma UnderBounds(g: Graph, j: nat, d: nat, chain: seq<nat>)
    requires Under(g, j, d) && IsChain(g, j, chain)
    ensures |chain| < d
  {
    var n: nat :| Longest(g, j, n) && n < d;
    assert HasChain(g, j, |chain|);
  }

  /** The maximum over the dependencies, one more, is the longest chain. */
  lemma LongestFromDeps(g: Graph, i: nat, d: nat)
    requires i < |g| && HasChain(g, i, d) && forall j | j in g[i] :: Under(g, j, d)
    ensures Longest(g, i, d)
  {
    forall m: nat | HasChain(g, i, m)
      ensures m <= d
    {
      var chain :| |chain| == m && IsChain(g, i, chain);
      if chain != [] {
        UnderBounds(g, chain[0], d, chain[1..]);
      }
    }
  }

  // ---- the suites ----------------------------------------------------------------------

  class Suite {
    const tests: seq<Test>
    ghost const position: nat
    var dependencies: seq<Suite>
    var depth: nat
    var index: nat

    constructor (tests: seq<Test>, ghost position: nat)
      ensures this.tests == tests && this.position == position && dependencies == [] && depth == 0
    {
      this.tests, this.position := tests, position;
      dependencies, depth, index := [], 0, 0;
    }
  }

  /** The list holds one suite for each entry of `all`. */
  ghost predicate Suites(suites: seq<Suite>, all: seq<seq<Test>>) {
    |suites| == |all| && forall i | 0 <= i < |suites| :: suites[i].position == i && suites[i].tests == all[i]
  }

  /** The dependencies of suite `i` are the listed ones. */
  ghost predicate Linked(suites: seq<Suite>, i: nat, deps: seq<nat>)
    requires i < |suites|
    reads suites`dependencies
  {
    && |suites[i].dependencies| == |deps|
    && forall k | 0 <= k < |deps| :: deps[k] < |suites| && suites[i].dependencies[k] == suites[deps[k]]
  }

  /** The suites are linked as in the graph, and every depth so far is the length of some chain. */
  ghost predicate Sound(suites: seq<Suite>, g: Graph)
    reads suites
  {
    && (forall i | 0 <= i < |suites| :: suites[i].position == i)
    && AllLinked(suites, g)
    && (forall i | 0 <= i < |suites| :: HasChain(g, i, suites[i].depth))
  }

  method LinkSuite(suites: seq<Suite>, ghost all: seq<seq<Test>>, i: nat)
    requires Suites(suites, all) && i < |suites|
    modifies suites[i]
    ensures suites[i].index == old(suites[i].index)
    ensures Linked(suites, i, Deps(all, i)) && suites[i].depth == 0
  {
    var suite := suites[i];
    suite.dependencies := [];
    suite.depth := 0;
    ghost var deps: seq<nat> := [];
    for k := 0 to |suite.tests|
      invariant Linked(suites, i, deps) && suite.depth == 0 && suite.index == old(suite.index)
      invariant DepsFrom(all, i, deps, all[i][k..]) == Deps(all, i)
    {
      var dependsOn := suite.tests[k].dependsOn;
      assert all[i][k..][1..] == all[i][k + 1..] && all[i][k..][0] == suite.tests[k];
      ghost var deps' := AddDep(all, i, deps, suite.tests[k]);
      if dependsOn != "" {
        var j := 0;
        while j < |suites|
          invariant j <= |suites| && Linked(suites, i, deps) && suite.depth == 0 && suite.index == old(suite.index)
          invariant Provider(all, dependsOn, j) == Provider(all, dependsOn, 0)
        {
          var depSuite := suites[j];
          if exists t | 0 <= t < |depSuite.tests| :: depSuite.tests[t].name == dependsOn {
            if depSuite !in suite.dependencies && depSuite != suite {
              suite.dependencies := suite.dependencies + [depSuite];
            }
            break;
          }
          j := j + 1;
        }
      }
      deps := deps';
    }
  }

  /** What `set_suite_depth` leaves alone, and that depths only grow. */
  twostate predicate Grown(suites: seq<Suite>)
    reads suites
  {
    forall i | 0 <= i < |suites| ::
      suites[i].depth >= old(suites[i].depth) && suites[i].index == old(suites[i].index)
      && suites[i].dependencies == old(suites[i].dependencies)
  }

  ghost predicate AllLinked(suites: seq<Suite>, g: Graph)
    reads suites`dependencies
  {
    |suites| == |g| && forall i | 0 <= i < |suites| :: Linked(suites, i, g[i])
  }

  method Raise(suites: seq<Suite>, ghost g: Graph, suite: Suite, newDepth: nat)
    requires Sound(suites, g) && suite.position < |suites| && suites[suite.position] == suite
    requires HasChain(g, suite.position, newDepth)
    modifies suite`depth
    ensures Sound(suites, g) && Grown(suites)
    ensures suite.depth == if newDepth > old(suite.depth) then newDepth else old(suite.depth)
  {
    if newDepth <= suite.depth {
      return;
    }
    SetDepthField(suite, newDepth);
    forall i | 0 <= i < |suites|
      ensures HasChain(g, i, suites[i].depth)
    {
      assert i != suite.position ==> suites[i] != suite;
      assert HasChain(g, i, old(suites[i].depth));
    }
  }

  method SetDepthField(suite: Suite, newDepth: nat)
    modifies suite`depth
    ensures suite.depth == newDepth
  {
    suite.depth := newDepth;
  }

  /** `set_suite_depth`: raises the depth of a suite to one more than each of its dependencies' depths,
      which it first sets in the same way. It returns only if dependencies have no cycle. */
  method SetSuiteDepth(suites: seq<Suite>, ghost g: Graph, ghost rank: nat -> nat, suite: Suite) returns (depth: nat)
    requires Ranks(g, rank) && Sound(suites, g) && suite.position < |suites| && suites[suite.position] == suite
    modifies suites
    ensures Sound(suites, g) && Grown(suites)
    ensures depth == suite.depth && Longest(g, suite.position, depth)
    decreases rank(suite.position), 1
  {
    ghost var i := suite.position;
    var dependencies := suite.dependencies;
    assert Linked(suites, i, g[i]);
    for k := 0 to |dependencies|
      invariant Sound(suites, g) && Grown(suites)
      invariant AllUnder(g, g[i], k, suite.depth)
    {
      ghost var before := suite.depth;
      SetDepDepth(suites, g, rank, suite, k);
      UnderStays(g, g[i], k, before, suite.depth);
    }
    depth := suite.depth;
    LongestFromDeps(g, i, depth);
  }

  /** One round of its loop. */
  method SetDepDepth(suites: seq<Suite>, ghost g: Graph, ghost rank: nat -> nat, suite: Suite, k: nat)
    requires Ranks(g, rank) && Sound(suites, g) && suite.position < |suites| && suites[suite.position] == suite
    requires k < |suite.dependencies| == |g[suite.position]|
    modifies suites
    ensures Sound(suites, g) && Grown(suites) && Under(g, g[suite.position][k], suite.depth)
    decreases rank(suite.position), 0
  {
    ghost var i := suite.position;
    assert Linked(suites, i, g[i]);
    var dep := suite.dependencies[k];
    assert g[i][k] in g[i] && g[i][k] == dep.position;
    var newDepth := SetSuiteDepth(suites, g, rank, dep);
    newDepth := newDepth + 1;
    ChainStep(g, i, dep.position, newDepth - 1);
    Raise(suites, g, suite, newDepth);
    assert Longest(g, g[i][k], newDepth - 1);
  }

  /** `cmp((a.depth, a.index), (b.depth, b.index)) < 0`. */
  predicate Precedes(a: Suite, b: Suite)
    reads a, b
  {
    a.depth < b.depth || (a.depth == b.depth && a.index < b.index)
  }

  ghost predicate Ordered(order: seq<Suite>)
    reads order
  {
    forall j, k | 0 <= j < k < |order| :: Precedes(order[j], order[k])
  }

  /** The place of a suite among sorted ones. */
  method FindPlace(order: seq<Suite>, s: Suite) returns (p: nat)
    requires Ordered(order) && forall j | 0 <= j < |order| :: order[j].index != s.index
    ensures p <= |order| && (forall j | 0 <= j < p :: Precedes(order[j], s))
    ensures forall j | p <= j < |order| :: Precedes(s, order[j])
  {
    p := 0;
    while p < |order| && Precedes(order[p], s)
      invariant p <= |order| && forall j | 0 <= j < p :: Precedes(order[j], s)
    {
      p := p + 1;
    }
    if p < |order| {
      assert Precedes(s, order[p]);
    }
  }

  lemma InsertedOrdered(order: seq<Suite>, s: Suite, p: nat)
    requires Ordered(order) && p <= |order|
    requires forall j | 0 <= j < p :: Precedes(order[j], s)
    requires forall j | p <= j < |order| :: Precedes(s, order[j])
    ensures Ordered(order[..p] + [s] + order[p..])
  {
    var all := order[..p] + [s] + order[p..];
    forall j, k | 0 <= j < k < |all|
      ensures Precedes(all[j], all[k])
    {
      assert all[j] == if j < p then order[j] else if j == p then s else order[j - 1];
      assert all[k] == if k < p then order[k] else if k == p then s else order[k - 1];
    }
  }

  lemma InsertedElements(order: seq<Suite>, s: Suite, p: nat)
    requires p <= |order|
    ensures multiset(order[..p] + [s] + order[p..]) == multiset(order) + multiset{s}
  {
    assert order == order[..p] + order[p..];
  }

  lemma OtherIndex(suites: seq<Suite>, order: seq<Suite>, i: nat)
    requires i < |suites| && multiset(order) == multiset(suites[..i])
    requires forall j, k | 0 <= j < k < |suites| :: suites[j].index != suites[k].index
    ensures forall j | 0 <= j < |order| :: order[j].index != suites[i].index
  {
    forall j | 0 <= j < |order|
      ensures order[j].index != suites[i].index
    {
      assert order[j] in multiset(order) && order[j] in suites[..i];
    }
  }

  /** `suites.sort`: distinct indices leave only one sorted order. */
  method Sort(suites: seq<Suite>) returns (order: seq<Suite>)
    requires forall i, j | 0 <= i < j < |suites| :: suites[i].index != suites[j].index
    ensures Ordered(order) && multiset(order) == multiset(suites)
  {
    order := [];
    for i := 0 to |suites|
      invariant Ordered(order) && multiset(order) == multiset(suites[..i])
    {
      assert suites[..i + 1] == suites[..i] + [suites[i]];
      OtherIndex(suites, order, i);
      var p := FindPlace(order, suites[i]);
      InsertedOrdered(order, suites[i], p);
      InsertedElements(order, suites[i], p);
      order := order[..p] + [suites[i]] + order[p..];
    }
    assert suites[..|suites|] == suites;
  }

  method MakeSuites(all: seq<seq<Test>>) returns (suites: seq<Suite>)
    ensures Suites(suites, all) && forall i | 0 <= i < |suites| :: fresh(suites[i])
  {
    suites := [];
    for i := 0 to |all|
      invariant |suites| == i && forall j | 0 <= j < i :: suites[j].position == j && suites[j].tests == all[j] && fresh(suites[j])
    {
      var suite := new Suite(all[i], i);
      suites := suites + [suite];
    }
  }

  /** Linked, and at depth 0. */
  ghost predicate AtStart(suites: seq<Suite>, i: nat, deps: seq<nat>)
    requires i < |suites|
    reads suites
  {
    Linked(suites, i, deps) && suites[i].depth == 0
  }

  method LinkSuites(suites: seq<Suite>, ghost all: seq<seq<Test>>)
    requires Suites(suites, all)
    modifies suites
    ensures Sound(suites, GraphOf(all))
  {
    ghost var g := GraphOf(all);
    for i := 0 to |suites|
      invariant forall j | 0 <= j < i :: AtStart(suites, j, g[j])
    {
      label before:
      LinkSuite(suites, all, i);
      forall j | 0 <= j < i
        ensures AtStart(suites, j, g[j])
      {
        assert old@before(AtStart(suites, j, g[j])) && suites[j] != suites[i];
      }
    }
    StartIsSound(suites, g);
  }

  lemma StartIsSound(suites: seq<Suite>, g: Graph)
    requires |suites| == |g| && forall i | 0 <= i < |suites| :: suites[i].position == i && AtStart(suites, i, g[i])
    ensures Sound(suites, g)
  {
    AtFirst(g);
    forall i | 0 <= i < |suites|
      ensures Linked(suites, i, g[i]) && HasChain(g, i, suites[i].depth)
    {
      assert AtStart(suites, i, g[i]);
    }
  }

  /** Depth 0 is the length of the empty chain. */
  lemma AtFirst(g: Graph)
    ensures forall i | 0 <= i < |g| :: HasChain(g, i, 0)
  {
    forall i | 0 <= i < |g|
      ensures HasChain(g, i, 0)
    {
      assert IsChain(g, i, []);
    }
  }

  /** Two depths that are longest chains of one suite are equal. */
  lemma LongestStays(g: Graph, i: nat, n: nat, m: nat)
    requires Longest(g, i, n) && n <= m && HasChain(g, i, m)
    ensures n == m
  {
  }

  method SetDepths(suites: seq<Suite>, ghost g: Graph)
    requires Sound(suites, g) && Acyclic(g)
    modifies suites
    ensures Sound(suites, g)
    ensures forall i | 0 <= i < |suites| :: suites[i].index == i && Longest(g, i, suites[i].depth)
  {
    ghost var rank: nat -> nat :| Ranks(g, rank);
    for i := 0 to |suites|
      invariant Sound(suites, g)
      invariant forall j | 0 <= j < i :: suites[j].index == j && Longest(g, j, suites[j].depth)
    {
      SetDepth(suites, g, rank, i);
    }
  }

  method SetDepth(suites: seq<Suite>, ghost g: Graph, ghost rank: nat -> nat, i: nat)
    requires Sound(suites, g) && Ranks(g, rank) && i < |suites|
    requires forall j | 0 <= j < i :: suites[j].index == j && Longest(g, j, suites[j].depth)
    modifies suites
    ensures Sound(suites, g)
    ensures forall j | 0 <= j <= i :: suites[j].index == j && Longest(g, j, suites[j].depth)
  {
    var _ := SetSuiteDepth(suites, g, rank, suites[i]);
    forall j | 0 <= j < i
      ensures suites[j].index == j && Longest(g, j, suites[j].depth)
    {
      LongestStays(g, j, old(suites[j].depth), suites[j].depth);
    }
    SetIndex(suites, g, i);
  }

  method SetIndex(suites: seq<Suite>, ghost g: Graph, i: nat)
    requires Sound(suites, g) && i < |suites|
    modifies suites[i]
    ensures Sound(suites, g) && suites[i].index == i && suites[i].depth == old(suites[i].depth)
  {
    suites[i].index := i;
    forall j | 0 <= j < |suites|
      ensures Linked(suites, j, g[j])
    {
      assert old(Linked(suites, j, g[j]));
    }
  }

  /** `loadTests`: depths are the lengths of the longest dependency chains; the suites are run in an order
      that keeps every suite after all it depends on, and suites of equal depth as they were listed. */
  method LoadTests(all: seq<seq<Test>>) returns (order: seq<Suite>, ghost suites: seq<Suite>)
    requires Acyclic(GraphOf(all))
    ensures Suites(suites, all) && multiset(order) == multiset(suites)
    ensures forall j, k | 0 <= j < k < |order| ::
              order[j].depth < order[k].depth || (order[j].depth == order[k].depth && order[j].index < order[k].index)
    ensures forall i | 0 <= i < |suites| :: suites[i].index == i && Longest(GraphOf(all), i, suites[i].depth)
    ensures forall i | 0 <= i < |suites| :: Linked(suites, i, Deps(all, i))
    ensures forall k, dep | 0 <= k < |order| && dep in order[k].dependencies :: dep in order[..k]
  {
    var list := MakeSuites(all);
    LinkSuites(list, all);
    SetDepths(list, GraphOf(all));
    suites := list;
    order := Sort(list);
    DependenciesFirst(list, GraphOf(all), order);
    assert forall j, k | 0 <= j < k < |order| :: Precedes(order[j], order[k]);
  }

  /** In an ordered list, a suite that precedes another stands before it. */
  lemma StandsBefore(order: seq<Suite>, k: nat, dep: Suite)
    requires Ordered(order) && k < |order| && dep in order && dep.depth < order[k].depth
    ensures dep in order[..k]
  {
    var p :| 0 <= p < |order| && order[p] == dep;
    assert forall q | k < q < |order| :: Precedes(order[k], order[q]);
    assert p < k && order[..k][p] == dep;
  }

  lemma SameMembers(a: seq<Suite>, b: seq<Suite>, x: Suite)
    requires multiset(a) == multiset(b)
    ensures x in a <==> x in b
  {
    assert x in a <==> x in multiset(a);
    assert x in b <==> x in multiset(b);
  }

  /** Depths rise along dependencies, so sorting by depth puts dependencies first. */
  lemma DependenciesFirst(suites: seq<Suite>, g: Graph, order: seq<Suite>)
    requires Sound(suites, g) && multiset(order) == multiset(suites) && Ordered(order)
    requires forall i | 0 <= i < |suites| :: Longest(g, i, suites[i].depth)
    ensures forall k, dep | 0 <= k < |order| && dep in order[k].dependencies :: dep in order[..k]
  {
    forall k, dep | 0 <= k < |order| && dep in order[k].dependencies
      ensures dep in order[..k]
    {
      SameMembers(order, suites, order[k]);
      DepthRises(suites, g, order[k], dep);
      SameMembers(order, suites, dep);
      StandsBefore(order, k, dep);
    }
  }

  lemma DepthRises(suites: seq<Suite>, g: Graph, suite: Suite, dep: Suite)
    requires Sound(suites, g) && suite in suites && dep in suite.dependencies
    requires forall i | 0 <= i < |suites| :: Longest(g, i, suites[i].depth)
    ensures dep in suites && dep.depth < suite.depth
  {
    var i := suite.position;
    assert suites[i] == suite && Linked(suites, i, g[i]);
    var m :| 0 <= m < |suite.dependencies| && suite.dependencies[m] == dep;
    var j := g[i][m];
    assert j in g[i] && suites[j] == dep;
    ChainStep(g, i, j, dep.depth);
  }
}
