/** package.py: expanding FILES lists over an install tree, and handing the files to packages. */
module PackageFiles {
  import opened Wrappers

  /** The install tree; a symbolic link is never followed. */
  datatype Node = Leaf | Link | Dir(children: seq<Child>)

  datatype Child = Child(name: string, node: Node)

  /** A path text cut at every '/'; "./a/b" has the parts ".", "a", "b". */
  type Raw = seq<string>

  predicate NamesFit(cs: seq<Child>) {
    && (forall i | 0 <= i < |cs| :: cs[i].name != "" && cs[i].name != ".")
    && (forall i, j | 0 <= i < j < |cs| :: cs[i].name != cs[j].name)
  }

  predicate WellFormed(n: Node) {
    n.Dir? ==> NamesFit(n.children) && forall i | 0 <= i < |n.children| :: WellFormed(n.children[i].node)
  }

  /** The components `normpath` leaves; ".." is not part of this model. */
  function Norm(f: Raw): seq<string> {
    if f == [] then []
    else
      var n := |f| - 1;
      if f[n] == "" || f[n] == "." then Norm(f[..n]) else Norm(f[..n]) + [f[n]]
  }

  function FindChild(cs: seq<Child>, name: string): (r: Option<Node>)
    ensures r.Some? ==> exists i | 0 <= i < |cs| :: cs[i].name == name && cs[i].node == r.value
    ensures forall i | 0 <= i < |cs| :: cs[i].name == name ==> r.Some?
  {
    if cs == [] then None else if cs[0].name == name then Some(cs[0].node) else FindChild(cs[1..], name)
  }

  function Lookup(n: Node, comps: seq<string>): Option<Node>
    decreases |comps|
  {
    if comps == [] then Some(n)
    else
      var parent := Lookup(n, comps[..|comps| - 1]);
      if parent.Some? && parent.value.Dir? then FindChild(parent.value.children, comps[|comps| - 1]) else None
  }

  predicate IsLink(tree: Node, f: Raw) {
    Lookup(tree, Norm(f)) == Some(Link)
  }

  predicate IsDir(tree: Node, f: Raw) {
    Lookup(tree, Norm(f)).Some? && Lookup(tree, Norm(f)).value.Dir?
  }

  /** `os.path.join(f, name)`. */
  function Join(f: Raw, name: string): Raw {
    if f != [] && f[|f| - 1] == "" then f[..|f| - 1] + [name] else f + [name]
  }

  // ---- files_from_filevars -------------------------------------------------------------

  /** `parent` once the first `k` parts are joined: doubled slashes are gone. */
  function Parent(f: Raw, k: nat): (r: Raw)
    requires k <= |f|
    ensures Norm(r) == Norm(f[..k])
  {
    if k == 0 then [""]
    else
      assert f[..k][..k - 1] == f[..k - 1];
      NormJoined(Parent(f, k - 1), f[k - 1]);
      Join(Parent(f, k - 1), f[k - 1])
  }

  /** Joining one more part, whatever it is, normalises like appending it. */
  lemma NormJoined(f: Raw, part: string)
    ensures Norm(Join(f, part)) == Norm(f + [part])
  {
    var g := Join(f, part);
    assert (f + [part])[..|f|] == f;
    assert g[..|g| - 1] == if f != [] && f[|f| - 1] == "" then f[..|f| - 1] else f;
  }

  /** The first directory of `f`, from part `j` on, that is a link: its number of parts. */
  function LinkedDir(tree: Node, f: Raw, j: nat): (r: Option<nat>)
    ensures r.Some? ==> j < r.value < |f| && IsLink(tree, f[..r.value])
    ensures forall k | j < k < (if r.Some? then r.value else |f|) && f[k - 1] != "." :: !IsLink(tree, f[..k])
    decreases |f| - j
  {
    if j + 1 >= |f| then None
    else if f[j] != "." && IsLink(tree, Parent(f, j + 1)) then Some(j + 1)
    else LinkedDir(tree, f, j + 1)
  }

  /** The path that takes the place of `f` in the list. */
  function Cut(tree: Node, f: Raw): Raw {
    var k := LinkedDir(tree, f, 0);
    if k.Some? then Parent(f, k.value) else f
  }

  function Listed(f: Raw, cs: seq<Child>): seq<Raw> {
    if cs == [] then [] else [Join(f, cs[0].name)] + Listed(f, cs[1..])
  }

  /** What a listed path adds to the end of the list. */
  function Children(tree: Node, f: Raw): seq<Raw> {
    if IsDir(tree, f) then Listed(f, Lookup(tree, Norm(f)).value.children) else []
  }

  function Size(n: Node): nat
    decreases n, 1
  {
    if n.Dir? then 1 + Sizes(n.children) else 1
  }

  function Sizes(cs: seq<Child>): nat
    decreases cs, 0
  {
    if cs == [] then 0 else Size(cs[0].node) + Sizes(cs[1..])
  }

  function Weight(tree: Node, f: Raw): nat {
    var n := Lookup(tree, Norm(f));
    if n.Some? then Size(n.value) else 1
  }

  function Weights(tree: Node, fs: seq<Raw>): nat {
    if fs == [] then 0 else Weight(tree, fs[0]) + Weights(tree, fs[1..])
  }

  lemma {:induction false} WeightsAppend(tree: Node, a: seq<Raw>, b: seq<Raw>)
    ensures Weights(tree, a + b) == Weights(tree, a) + Weights(tree, b)
  {
    if a == [] {
      assert a + b == b;
    } else {
      assert (a + b)[1..] == a[1..] + b;
      WeightsAppend(tree, a[1..], b);
    }
  }

  lemma NormJoin(f: Raw, name: string)
    requires name != "" && name != "."
    ensures Norm(Join(f, name)) == Norm(f) + [name]
  {
    var g := Join(f, name);
    assert g[..|g| - 1] == if f != [] && f[|f| - 1] == "" then f[..|f| - 1] else f;
  }

  lemma {:induction false} ChildFound(cs: seq<Child>, i: nat)
    requires i < |cs| && forall j, k | 0 <= j < k < |cs| :: cs[j].name != cs[k].name
    ensures FindChild(cs, cs[i].name) == Some(cs[i].node)
  {
    if i > 0 {
      assert cs[0].name != cs[i].name;
      ChildFound(cs[1..], i - 1);
    }
  }

  lemma {:induction false} LookupWellFormed(tree: Node, comps: seq<string>)
    requires WellFormed(tree)
    ensures Lookup(tree, comps).Some? ==> WellFormed(Lookup(tree, comps).value)
    decreases |comps|
  {
    if comps != [] {
      LookupWellFormed(tree, comps[..|comps| - 1]);
    }
  }

  lemma ChildLookup(tree: Node, f: Raw, i: nat)
    requires WellFormed(tree) && IsDir(tree, f) && i < |Lookup(tree, Norm(f)).value.children|
    ensures var c := Lookup(tree, Norm(f)).value.children[i];
            Norm(Join(f, c.name)) == Norm(f) + [c.name] && Lookup(tree, Norm(Join(f, c.name))) == Some(c.node)
  {
    LookupWellFormed(tree, Norm(f));
    var cs := Lookup(tree, Norm(f)).value.children;
    NormJoin(f, cs[i].name);
    ChildFound(cs, i);
    assert (Norm(f) + [cs[i].name])[..|Norm(f)|] == Norm(f);
  }

  lemma {:induction false} ListedWeights(tree: Node, f: Raw, k: nat)
    requires WellFormed(tree) && IsDir(tree, f) && k <= |Lookup(tree, Norm(f)).value.children|
    ensures var cs := Lookup(tree, Norm(f)).value.children; Weights(tree, Listed(f, cs[k..])) == Sizes(cs[k..])
    decreases |Lookup(tree, Norm(f)).value.children| - k
  {
    var cs := Lookup(tree, Norm(f)).value.children;
    if k < |cs| {
      ChildLookup(tree, f, k);
      assert cs[k..][1..] == cs[k + 1..];
      ListedWeights(tree, f, k + 1);
    }
  }

  /** A listed path weighs one more than all it adds. */
  lemma ChildrenWeigh(tree: Node, f: Raw)
    requires WellFormed(tree)
    ensures Weights(tree, Children(tree, f)) < Weight(tree, f)
  {
    if IsDir(tree, f) {
      ListedWeights(tree, f, 0);
      var cs := Lookup(tree, Norm(f)).value.children;
      assert cs[0..] == cs;
    }
  }

  lemma CutWeighs(tree: Node, f: Raw)
    ensures Cut(tree, f) != f ==> Weight(tree, Cut(tree, f)) == 1
    ensures Weight(tree, f) >= 1
  {
  }

  /** The final list for a work list: each path in turn, cut at a directory link, its children queued
      at the end. */
  function Expand(tree: Node, queue: seq<Raw>): seq<Raw>
    requires WellFormed(tree)
    decreases Weights(tree, queue)
  {
    if queue == [] then []
    else
      var f := Cut(tree, queue[0]);
      NextWeighsLess(tree, queue);
      [f] + Expand(tree, queue[1..] + Children(tree, f))
  }

  lemma NextWeighsLess(tree: Node, queue: seq<Raw>)
    requires WellFormed(tree) && queue != []
    ensures Weights(tree, queue[1..] + Children(tree, Cut(tree, queue[0]))) < Weights(tree, queue)
  {
    var f := Cut(tree, queue[0]);
    WeightsAppend(tree, queue[1..], Children(tree, f));
    ChildrenWeigh(tree, f);
    CutWeighs(tree, queue[0]);
  }

  /** The paths the function warns about. */
  function Warned(tree: Node, queue: seq<Raw>): seq<Raw>
    requires WellFormed(tree)
    decreases Weights(tree, queue)
  {
    if queue == [] then []
    else
      NextWeighsLess(tree, queue);
      Warning(tree, queue[0]) + Warned(tree, queue[1..] + Children(tree, Cut(tree, queue[0])))
  }

  lemma ExpandStep(tree: Node, done: seq<Raw>, queue: seq<Raw>)
    requires WellFormed(tree) && queue != []
    ensures var f := Cut(tree, queue[0]);
            done + Expand(tree, queue) == done + [f] + Expand(tree, queue[1..] + Children(tree, f))
  {
  }

  /** The warning one list entry brings. */
  function Warning(tree: Node, f: Raw): seq<Raw> {
    if LinkedDir(tree, f, 0).Some? then [f] else []
  }

  lemma WarnedStep(tree: Node, done: seq<Raw>, queue: seq<Raw>)
    requires WellFormed(tree) && queue != []
    ensures var f := Cut(tree, queue[0]);
            done + Warned(tree, queue) ==
            (done + Warning(tree, queue[0])) + Warned(tree, queue[1..] + Children(tree, f))
  {
    Regroup(done, Warning(tree, queue[0]), Warned(tree, queue[1..] + Children(tree, Cut(tree, queue[0]))));
  }

  /** Overwriting entry `ind` and growing the list moves the work on by one. */
  lemma Advance(files: seq<Raw>, ind: nat, f: Raw, more: seq<Raw>)
    requires ind < |files|
    ensures (files[ind := f] + more)[ind + 1..] == files[ind..][1..] + more
    ensures (files[ind := f] + more)[..ind + 1] == files[..ind] + [f]
  {
  }

  /** `for ind, f in enumerate(files)`, over a list that grows as it is walked. */
  method FilesFromFilevars(tree: Node, globbed: seq<Raw>) returns (files: seq<Raw>, symlinkPaths: seq<Raw>)
    requires WellFormed(tree)
    ensures files == Expand(tree, globbed) && symlinkPaths == Warned(tree, globbed)
  {
    files, symlinkPaths := globbed, [];
    var ind := 0;
    ghost var done: seq<Raw>, queue := [], globbed;
    while ind < |files|
      invariant ind <= |files| && done == files[..ind] && queue == files[ind..]
      invariant done + Expand(tree, queue) == Expand(tree, globbed)
      invariant symlinkPaths + Warned(tree, queue) == Warned(tree, globbed)
      decreases Weights(tree, queue)
    {
      ghost var entry := files[ind];
      NextWeighsLess(tree, queue);
      ExpandStep(tree, done, queue);
      WarnedStep(tree, symlinkPaths, queue);
      Advance(files, ind, Cut(tree, entry), Children(tree, Cut(tree, entry)));
      files, symlinkPaths := VisitEntry(tree, files, symlinkPaths, ind);
      done, queue := done + [Cut(tree, entry)], queue[1..] + Children(tree, Cut(tree, entry));
      ind := ind + 1;
    }
    assert files[..ind] == files;
  }

  /** The loop body for entry `ind`. */
  method VisitEntry(tree: Node, files: seq<Raw>, symlinkPaths: seq<Raw>, ind: nat)
    returns (newFiles: seq<Raw>, newSymlinkPaths: seq<Raw>)
    requires ind < |files|
    ensures var f := Cut(tree, files[ind]); newFiles == files[ind := f] + Children(tree, f)
    ensures newSymlinkPaths == symlinkPaths + Warning(tree, files[ind])
  {
    newFiles, newSymlinkPaths := files, symlinkPaths;
    var f := files[ind];
    var parent := FindLinkedDir(tree, f);
    if parent.Some? {
      newSymlinkPaths := newSymlinkPaths + [f];
      newFiles := newFiles[ind := parent.value];
      f := parent.value;
    }
    if !IsLink(tree, f) {
      if IsDir(tree, f) {
        newFiles := newFiles + Listed(f, Lookup(tree, Norm(f)).value.children);
      }
    }
  }

  /** One round of the loop over the directories of a path. */
  lemma LinkedStep(tree: Node, f: Raw, j: nat)
    requires j + 1 < |f|
    ensures Parent(f, j + 1) == Join(Parent(f, j), f[j])
    ensures if f[j] != "." && IsLink(tree, Parent(f, j + 1)) then LinkedDir(tree, f, j) == Some(j + 1)
            else LinkedDir(tree, f, j) == LinkedDir(tree, f, j + 1)
  {
  }

  lemma LinkedEnd(tree: Node, f: Raw, j: nat)
    requires j + 1 >= |f|
    ensures LinkedDir(tree, f, j).None?
  {
  }

  method FindLinkedDir(tree: Node, f: Raw) returns (r: Option<Raw>)
    ensures r == if LinkedDir(tree, f, 0).Some? then Some(Cut(tree, f)) else None
  {
    var parent: Raw := [""];
    var j := 0;
    while j + 1 < |f|
      invariant j <= |f| && parent == Parent(f, j)
      invariant LinkedDir(tree, f, j) == LinkedDir(tree, f, 0)
    {
      LinkedStep(tree, f, j);
      parent := Join(parent, f[j]);
      if f[j] != "." && IsLink(tree, parent) {
        return Some(parent);
      }
      j := j + 1;
    }
    LinkedEnd(tree, f, j);
    return None;
  }
}
