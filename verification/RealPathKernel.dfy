/** The walk of the resolvers against the walk of a kernel inside a changed root: they differ in what a link
    to "." leaves behind. */
module RealPathKernel {
  import opened PosixPath
  import opened RealPath
  import opened RealPathWalk

  /** One step of the kernel: "." stays where it is. */
  function KernelStep(fs: Tree, root: seq<Name>, w: Walker): Walker
    requires w.todo != []
  {
    if w.todo[0] == "." then Walker(w.pos, w.todo[1..]) else WalkStep(fs, root, w)
  }

  ghost predicate KernelReaches(fs: Tree, root: seq<Name>, k: nat, w: Walker, end: seq<Name>) {
    if w.todo == [] then k == 0 && w.pos == end
    else k > 0 && KernelReaches(fs, root, k - 1, KernelStep(fs, root, w), end)
  }

  /** Where the kernel stands when the resolvers stand at `w`. */
  function Shadow(w: Walker): Walker {
    Walker(DropDots(w.pos), w.todo)
  }

  /** The next step takes away a "." where the kernel leaves a directory. */
  predicate Slips(w: Walker) {
    && w.todo != [] && w.todo[0] == ".."
    && w.pos != [] && w.pos[|w.pos| - 1] == "." && DropDots(Up(w.pos)) != []
  }

  lemma {:induction false} DropDotsAppend(a: seq<Name>, b: seq<Name>)
    ensures DropDots(a + b) == DropDots(a) + DropDots(b)
  {
    if b == [] {
      assert a + b == a;
    } else {
      var n := |b| - 1;
      DropDotsAppend(a, b[..n]);
      assert (a + b)[..|a + b| - 1] == a + b[..n] && (a + b)[|a + b| - 1] == b[n];
    }
  }

  lemma DropDotsLast(pos: seq<Name>, d: Name)
    ensures DropDots(pos + [d]) == if d == "." then DropDots(pos) else DropDots(pos) + [d]
  {
    assert (pos + [d])[..|pos|] == pos;
  }

  /** Both look at the same entry of the tree. */
  lemma SameEntry(fs: Tree, root: seq<Name>, pos: seq<Name>, d: Part)
    requires d != "" && d != "." && d != ".."
    ensures DropDots(root + (pos + [d])) == DropDots(root + (DropDots(pos) + [d]))
  {
    DropDotsAppend(root, pos + [d]);
    DropDotsAppend(root, DropDots(pos) + [d]);
    DropDotsLast(pos, d);
    DropDotsLast(DropDots(pos), d);
    DropDotsId(DropDots(pos));
  }

  lemma UpDiffers(pos: seq<Name>)
    ensures Up(pos) == pos <==> pos == []
  {
    if pos != [] {
      assert |Up(pos)| == |pos| - 1;
    }
  }

  lemma UpLast(pos: seq<Name>, d: Name)
    ensures Up(pos + [d]) == pos
  {
  }

  lemma DropDotsUp(pos: seq<Name>)
    requires pos != []
    ensures DropDots(pos) == if pos[|pos| - 1] == "." then DropDots(Up(pos)) else DropDots(Up(pos)) + [pos[|pos| - 1]]
  {
  }

  lemma UpAlongIff(kept: seq<Name>, below: seq<Name>, last: Name)
    requires kept == if last == "." then below else below + [last]
    ensures Up(kept) == below <==> last != "." || below == []
  {
    if last == "." {
      UpDiffers(below);
    } else {
      UpLast(below, last);
    }
  }

  lemma UpStepAlongIff(pos: seq<Name>)
    ensures Up(DropDots(pos)) == DropDots(Up(pos)) <==> pos == [] || pos[|pos| - 1] != "." || DropDots(Up(pos)) == []
  {
    if pos != [] {
      DropDotsUp(pos);
      UpAlongIff(DropDots(pos), DropDots(Up(pos)), pos[|pos| - 1]);
    }
  }

  /** One step: the kernel goes along if and only if the step does not slip. */
  lemma StepAlongIff(fs: Tree, root: seq<Name>, w: Walker)
    requires w.todo != []
    ensures KernelStep(fs, root, Shadow(w)) == Shadow(WalkStep(fs, root, w)) <==> !Slips(w)
  {
    var d := w.todo[0];
    if d == ".." {
      UpStepAlongIff(w.pos);
    } else if d != "" {
      DropDotsLast(w.pos, d);
      if d != "." {
        SameEntry(fs, root, w.pos, d);
        assert DropDots([]) == [];
      }
    }
  }

  // ---- whole walks -----------------------------------------------------------------------

  /** `v`, where the kernel stands, is the shadow of `w` and stays so for `k` steps. */
  ghost predicate GoesAlong(fs: Tree, root: seq<Name>, k: nat, w: Walker, v: Walker)
    decreases k
  {
    v == Shadow(w) && (k > 0 && w.todo != [] ==> GoesAlong(fs, root, k - 1, WalkStep(fs, root, w), KernelStep(fs, root, v)))
  }

  /** None of the first `k` steps slips. */
  ghost predicate Steady(fs: Tree, root: seq<Name>, k: nat, w: Walker) {
    k > 0 && w.todo != [] ==> !Slips(w) && Steady(fs, root, k - 1, WalkStep(fs, root, w))
  }

  /** Whole walks: the kernel goes along all the way if and only if no step slips. */
  lemma {:induction false} GoesAlongIff(fs: Tree, root: seq<Name>, k: nat, w: Walker)
    ensures GoesAlong(fs, root, k, w, Shadow(w)) <==> Steady(fs, root, k, w)
    decreases k
  {
    if k > 0 && w.todo != [] {
      StepAlongIff(fs, root, w);
      GoesAlongIff(fs, root, k - 1, WalkStep(fs, root, w));
      if Slips(w) {
        NotAlong(fs, root, k, w);
      }
    }
  }

  lemma NotAlong(fs: Tree, root: seq<Name>, k: nat, w: Walker)
    requires k > 0 && w.todo != [] && KernelStep(fs, root, Shadow(w)) != Shadow(WalkStep(fs, root, w))
    ensures !GoesAlong(fs, root, k, w, Shadow(w))
  {
  }

  /** A steady walk ends where and when the kernel's does. */
  lemma {:induction false} SteadyEnd(fs: Tree, root: seq<Name>, k: nat, w: Walker, end: seq<Name>)
    requires Steady(fs, root, k, w) && Reaches(fs, root, k, w, end)
    ensures KernelReaches(fs, root, k, Shadow(w), DropDots(end))
    decreases k
  {
    if w.todo != [] {
      StepAlongIff(fs, root, w);
      SteadyEnd(fs, root, k - 1, WalkStep(fs, root, w), end);
    }
  }

  lemma {:induction false} SteadyStart(fs: Tree, root: seq<Name>, k: nat, w: Walker, end: seq<Name>) returns (e: seq<Name>)
    requires Steady(fs, root, k, w) && KernelReaches(fs, root, k, Shadow(w), end)
    ensures Reaches(fs, root, k, w, e) && DropDots(e) == end
    decreases k
  {
    if w.todo == [] {
      e := w.pos;
    } else {
      StepAlongIff(fs, root, w);
      e := SteadyStart(fs, root, k - 1, WalkStep(fs, root, w), end);
    }
  }

  // ---- trees on which every walk is steady -----------------------------------------------

  /** No link target normalises to ".". */
  ghost predicate NoDotTargets(fs: Tree) {
    forall c | c in fs.link :: "." !in LinkParts(fs.link[c])
  }

  /** No link target begins with "..". */
  ghost predicate NoClimbingTargets(fs: Tree) {
    forall c | c in fs.link :: ".." !in LinkParts(fs.link[c])
  }

  lemma {:induction false} NoDotsIsSteady(fs: Tree, root: seq<Name>, k: nat, w: Walker)
    requires NoDotTargets(fs) && "." !in w.pos && "." !in w.todo
    ensures Steady(fs, root, k, w)
    decreases k
  {
    if k > 0 && w.todo != [] {
      NoDotsIsSteady(fs, root, k - 1, WalkStep(fs, root, w));
    }
  }

  lemma {:induction false} NoClimbIsSteady(fs: Tree, root: seq<Name>, k: nat, w: Walker)
    requires NoClimbingTargets(fs) && ".." !in w.todo
    ensures Steady(fs, root, k, w)
    decreases k
  {
    if k > 0 && w.todo != [] {
      NoClimbIsSteady(fs, root, k - 1, WalkStep(fs, root, w));
    }
  }
}
