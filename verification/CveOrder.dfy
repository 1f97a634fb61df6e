/** The order of versions told by the versions themselves: release, then patch, then pre-release. */
module CveOrder {
  import opened Wrappers
  import opened CveVersion

  /** The number at a position of a release; behind its end stand zeros. */
  function NumberAt(a: seq<nat>, i: nat): nat {
    if i < |a| then a[i] else 0
  }

  ghost predicate SameRelease(a: seq<nat>, b: seq<nat>) {
    forall i: nat :: NumberAt(a, i) == NumberAt(b, i)
  }

  /** `i` is the first position at which the releases differ, and `a` is lower there. */
  ghost predicate LowerAt(a: seq<nat>, b: seq<nat>, i: nat) {
    NumberAt(a, i) < NumberAt(b, i) && forall j: nat | j < i :: NumberAt(a, j) == NumberAt(b, j)
  }

  ghost predicate ReleaseBelow(a: seq<nat>, b: seq<nat>) {
    exists i: nat :: LowerAt(a, b, i)
  }

  lemma TailNumbers(a: seq<nat>)
    ensures At(a) == NumberAt(a, 0) && forall i: nat :: NumberAt(Tail(a), i) == NumberAt(a, i + 1)
  {
  }

  lemma TailsSame(a: seq<nat>, b: seq<nat>)
    requires At(a) == At(b)
    ensures SameRelease(a, b) <==> SameRelease(Tail(a), Tail(b))
  {
    TailNumbers(a);
    TailNumbers(b);
    if SameRelease(a, b) {
      forall i: nat ensures NumberAt(Tail(a), i) == NumberAt(Tail(b), i) {
        assert NumberAt(a, i + 1) == NumberAt(b, i + 1);
      }
    }
    if SameRelease(Tail(a), Tail(b)) {
      forall i: nat ensures NumberAt(a, i) == NumberAt(b, i) {
        if i > 0 {
          assert NumberAt(Tail(a), i - 1) == NumberAt(Tail(b), i - 1);
        }
      }
    }
  }

  lemma TailsLower(a: seq<nat>, b: seq<nat>, i: nat)
    requires At(a) == At(b)
    ensures LowerAt(Tail(a), Tail(b), i) <==> LowerAt(a, b, i + 1)
  {
    TailNumbers(a);
    TailNumbers(b);
    if LowerAt(a, b, i + 1) {
      forall j: nat | j < i ensures NumberAt(Tail(a), j) == NumberAt(Tail(b), j) {
        assert NumberAt(a, j + 1) == NumberAt(b, j + 1);
      }
    }
    if LowerAt(Tail(a), Tail(b), i) {
      forall j: nat | j < i + 1 ensures NumberAt(a, j) == NumberAt(b, j) {
        if j > 0 {
          assert NumberAt(Tail(a), j - 1) == NumberAt(Tail(b), j - 1);
        }
      }
    }
  }

  lemma TailsBelow(a: seq<nat>, b: seq<nat>)
    requires At(a) == At(b)
    ensures ReleaseBelow(a, b) <==> ReleaseBelow(Tail(a), Tail(b))
  {
    if i: nat :| LowerAt(a, b, i) {
      TailNumbers(a);
      TailNumbers(b);
      TailsLower(a, b, i - 1);
    }
    if i: nat :| LowerAt(Tail(a), Tail(b), i) {
      TailsLower(a, b, i);
    }
  }

  lemma HeadsDiffer(a: seq<nat>, b: seq<nat>)
    requires At(a) != At(b)
    ensures !SameRelease(a, b) && (ReleaseBelow(a, b) <==> At(a) < At(b))
  {
    TailNumbers(a);
    TailNumbers(b);
    assert NumberAt(a, 0) != NumberAt(b, 0);
    if At(a) < At(b) {
      assert LowerAt(a, b, 0);
    }
  }

  lemma {:induction false} PaddedIff(a: seq<nat>, b: seq<nat>)
    ensures (Padded(a, b) == 0 <==> SameRelease(a, b)) && (Padded(a, b) < 0 <==> ReleaseBelow(a, b))
    decreases |a| + |b|
  {
    if a != [] || b != [] {
      if At(a) != At(b) {
        HeadsDiffer(a, b);
      } else {
        TailsSame(a, b);
        TailsBelow(a, b);
        PaddedIff(Tail(a), Tail(b));
      }
    }
  }

  // ---- texts -----------------------------------------------------------------------------

  /** Small letters count as the capital ones at their place of the alphabet, all else as itself. */
  lemma UpperIs(c: char)
    ensures |SMALL| == |CAPITAL| == 26
    ensures forall i | 0 <= i < 26 :: Upper(SMALL[i]) == CAPITAL[i] as nat
    ensures c !in SMALL ==> Upper(c) == c as nat
  {
    SmallLetters(c);
    CapitalLetters(c);
  }

  predicate SameText(p: string, q: string) {
    |p| == |q| && forall i | 0 <= i < |p| :: Upper(p[i]) == Upper(q[i])
  }

  /** The texts are alike before `i`, and `p` ends there or has the lower character. */
  predicate EarlierAt(p: string, q: string, i: nat) {
    && i <= |p| && i < |q|
    && (forall j | 0 <= j < i :: Upper(p[j]) == Upper(q[j]))
    && (i == |p| || Upper(p[i]) < Upper(q[i]))
  }

  ghost predicate TextBelow(p: string, q: string) {
    exists i: nat :: EarlierAt(p, q, i)
  }

  function Uppers(p: string): seq<nat> {
    seq(|p|, i requires 0 <= i < |p| => Upper(p[i]))
  }

  lemma TailText(p: string, q: string)
    requires p != "" && q != "" && Upper(p[0]) == Upper(q[0])
    ensures SameText(p, q) <==> SameText(p[1..], q[1..])
    ensures TextBelow(p, q) <==> TextBelow(p[1..], q[1..])
  {
    if SameText(p[1..], q[1..]) {
      forall i | 0 <= i < |p| ensures Upper(p[i]) == Upper(q[i]) {
        if i > 0 {
          assert Upper(p[1..][i - 1]) == Upper(q[1..][i - 1]);
        }
      }
    }
    if i: nat :| EarlierAt(p, q, i) {
      assert EarlierAt(p[1..], q[1..], i - 1);
    }
    if i: nat :| EarlierAt(p[1..], q[1..], i) {
      forall j | 0 <= j < i + 1 ensures Upper(p[j]) == Upper(q[j]) {
        if j > 0 {
          assert Upper(p[1..][j - 1]) == Upper(q[1..][j - 1]);
        }
      }
      assert EarlierAt(p, q, i + 1);
    }
  }

  lemma {:induction false} TextIff(p: string, q: string)
    ensures (Lex(Uppers(p), Uppers(q)) == 0 <==> SameText(p, q)) && (Lex(Uppers(p), Uppers(q)) < 0 <==> TextBelow(p, q))
  {
    if p == "" || q == "" {
      if q != "" {
        assert EarlierAt(p, q, 0);
      }
    } else if Upper(p[0]) != Upper(q[0]) {
      if Upper(p[0]) < Upper(q[0]) {
        assert EarlierAt(p, q, 0);
      }
    } else {
      TailText(p, q);
      TextIff(p[1..], q[1..]);
      assert Uppers(p)[1..] == Uppers(p[1..]) && Uppers(q)[1..] == Uppers(q[1..]);
    }
  }

  // ---- versions --------------------------------------------------------------------------

  predicate IsPre(v: Version) {
    v.preLabel.Some? || v.preNumber.Some?
  }

  /** A pre-release is below what is none; among pre-releases the number decides, and one without a number is
      lowest. */
  predicate PreBelow(v: Version, w: Version) {
    IsPre(v) && (IsPre(w) ==> w.preNumber.Some? && (v.preNumber.Some? ==> v.preNumber.value < w.preNumber.value))
  }

  predicate SamePre(v: Version, w: Version) {
    (IsPre(v) <==> IsPre(w)) && v.preNumber == w.preNumber
  }

  ghost predicate SameVersion(v: Version, w: Version) {
    SameRelease(v.release, w.release) && SameText(v.patch, w.patch) && SamePre(v, w)
  }

  ghost predicate Below(v: Version, w: Version) {
    || ReleaseBelow(v.release, w.release)
    || (SameRelease(v.release, w.release) && TextBelow(v.patch, w.patch))
    || (SameRelease(v.release, w.release) && SameText(v.patch, w.patch) && PreBelow(v, w))
  }

  /** For all versions: the keys compare as the versions do, by the first number in which the releases differ, then
      by the first character in which the patch texts do, then by the pre-release. */
  lemma VersionOrderIff(v: Version, w: Version)
    ensures KeyCmp(CmpKey(v), CmpKey(w)) < 0 <==> Below(v, w)
    ensures KeyCmp(CmpKey(v), CmpKey(w)) == 0 <==> SameVersion(v, w)
    ensures KeyCmp(CmpKey(v), CmpKey(w)) > 0 <==> Below(w, v)
  {
    OneWay(v, w);
    OneWay(w, v);
    KeysAreOrdered(CmpKey(v), CmpKey(w));
  }

  lemma OneWay(v: Version, w: Version)
    ensures KeyCmp(CmpKey(v), CmpKey(w)) < 0 <==> Below(v, w)
    ensures KeyCmp(CmpKey(v), CmpKey(w)) == 0 <==> SameVersion(v, w)
  {
    StrippedIsPadded(v.release, w.release);
    PaddedIff(v.release, w.release);
    TextIff(v.patch, w.patch);
    assert CmpKey(v).patch == Uppers(v.patch) && CmpKey(w).patch == Uppers(w.patch);
    NotBoth(v, w);
  }

  /** Two releases differ in one direction or not at all, and so do two texts. */
  lemma NotBoth(v: Version, w: Version)
    ensures !(ReleaseBelow(v.release, w.release) && SameRelease(v.release, w.release))
    ensures !(TextBelow(v.patch, w.patch) && SameText(v.patch, w.patch))
  {
    PaddedIff(v.release, w.release);
    TextIff(v.patch, w.patch);
  }

  /** The release counts before the patch letter: 1.1.1w is below 3.0.0a, and 1.0 is 1. */
  lemma ReleaseBeforeLetter()
    ensures KeyCmp(CmpKey(Version([1, 1, 1], "w", None, None)), CmpKey(Version([3, 0, 0], "a", None, None))) < 0
    ensures KeyCmp(CmpKey(Version([1, 0], "", None, None)), CmpKey(Version([1], "", None, None))) == 0
    ensures KeyCmp(CmpKey(Version([1], "", Some("rc"), Some(9))), CmpKey(Version([1], "", Some("beta"), Some(10)))) < 0
  {
    var v, w := Version([1, 1, 1], "w", None, None), Version([3, 0, 0], "a", None, None);
    assert LowerAt(v.release, w.release, 0);
    VersionOrderIff(v, w);
    var a, b := Version([1, 0], "", None, None), Version([1], "", None, None);
    forall i: nat ensures NumberAt(a.release, i) == NumberAt(b.release, i) {
    }
    VersionOrderIff(a, b);
    VersionOrderIff(Version([1], "", Some("rc"), Some(9)), Version([1], "", Some("beta"), Some(10)));
  }
}
