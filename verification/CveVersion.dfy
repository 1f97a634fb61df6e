/** cve_check.py: the comparison key of a version. */
module CveVersion {
  import opened Wrappers

  /** What the version pattern finds: the numbers, the patch text and the pre-release label and number. */
  datatype Version = Version(release: seq<nat>, patch: string, preLabel: Option<string>, preNumber: Option<nat>)

  /** `float('-inf')`, a number, `float('inf')`. */
  datatype Extended = Lowest | Number(n: nat) | Highest

  datatype Key = Key(release: seq<nat>, patch: seq<nat>, pre: Extended)

  /** `itertools.dropwhile` over the reversed numbers. */
  function Strip(release: seq<nat>): seq<nat> {
    if release != [] && release[|release| - 1] == 0 then Strip(release[..|release| - 1]) else release
  }

  function Upper(c: char): nat {
    if 'a' <= c <= 'z' then c as nat - 32 else c as nat
  }

  function CmpKey(v: Version): Key {
    Key(Strip(v.release),
        seq(|v.patch|, i requires 0 <= i < |v.patch| => Upper(v.patch[i])),
        if v.preLabel.None? && v.preNumber.None? then Highest
        else if v.preNumber.Some? then Number(v.preNumber.value)
        else Lowest)
  }

  /** Comparing tuples, or texts by code points: -1, 0 or 1. */
  function Lex(a: seq<nat>, b: seq<nat>): int {
    if a == [] && b == [] then 0
    else if a == [] then -1
    else if b == [] then 1
    else if a[0] != b[0] then (if a[0] < b[0] then -1 else 1)
    else Lex(a[1..], b[1..])
  }

  function PreCmp(a: Extended, b: Extended): int {
    if a == b then 0
    else if a.Lowest? || b.Highest? || (a.Number? && b.Number? && a.n < b.n) then -1
    else 1
  }

  /** `self._key > other._key` and `==`, as one comparison of the tuples. */
  function KeyCmp(a: Key, b: Key): int {
    if Lex(a.release, b.release) != 0 then Lex(a.release, b.release)
    else if Lex(a.patch, b.patch) != 0 then Lex(a.patch, b.patch)
    else PreCmp(a.pre, b.pre)
  }

  // ---- Releases are compared number by number --------------------------------------------

  function At(a: seq<nat>): nat {
    if a == [] then 0 else a[0]
  }

  function Tail(a: seq<nat>): seq<nat> {
    if a == [] then [] else a[1..]
  }

  /** Number by number, a missing number counting as 0. */
  function Padded(a: seq<nat>, b: seq<nat>): int
    decreases |a| + |b|
  {
    if a == [] && b == [] then 0
    else if At(a) != At(b) then (if At(a) < At(b) then -1 else 1)
    else Padded(Tail(a), Tail(b))
  }

  lemma {:induction false} StripFront(x: nat, a: seq<nat>)
    ensures Strip([x] + a) == if x == 0 && Strip(a) == [] then [] else [x] + Strip(a)
  {
    var all := [x] + a;
    if a == [] {
      assert all == [x] && [x][..0] == [];
      assert [x] + [] == [x];
    } else {
      var n := |a| - 1;
      assert all[..|all| - 1] == [x] + a[..n] && all[|all| - 1] == a[n];
      if a[n] == 0 {
        StripFront(x, a[..n]);
      }
    }
  }

  lemma {:induction false} PaddedZero(a: seq<nat>)
    ensures Padded(a, []) == (if Strip(a) == [] then 0 else 1)
    ensures Padded([], a) == (if Strip(a) == [] then 0 else -1)
    decreases |a|
  {
    if a != [] {
      assert a == [a[0]] + a[1..];
      StripFront(a[0], a[1..]);
      PaddedZero(a[1..]);
    }
  }

  lemma {:induction false} StrippedIsPadded(a: seq<nat>, b: seq<nat>)
    ensures Lex(Strip(a), Strip(b)) == Padded(a, b)
    decreases |a| + |b|
  {
    PaddedZero(a);
    PaddedZero(b);
    if a != [] && b != [] {
      assert a == [a[0]] + a[1..] && b == [b[0]] + b[1..];
      StripFront(a[0], a[1..]);
      StripFront(b[0], b[1..]);
      PaddedZero(a[1..]);
      PaddedZero(b[1..]);
      StrippedIsPadded(a[1..], b[1..]);
      assert ([a[0]] + Strip(a[1..]))[1..] == Strip(a[1..]);
      assert ([b[0]] + Strip(b[1..]))[1..] == Strip(b[1..]);
      LexEmpty(Strip(a[1..]));
      LexEmpty(Strip(b[1..]));
    }
  }

  lemma LexEmpty(a: seq<nat>)
    ensures Lex(a, []) == (if a == [] then 0 else 1) && Lex([], a) == (if a == [] then 0 else -1)
  {
  }

  // ---- The order is total ----------------------------------------------------------------

  lemma {:induction false} LexFacts(a: seq<nat>, b: seq<nat>)
    ensures (Lex(a, b) == 0 <==> a == b) && Lex(a, b) == -Lex(b, a) && -1 <= Lex(a, b) <= 1
  {
    if a != [] && b != [] {
      LexFacts(a[1..], b[1..]);
      assert a == [a[0]] + a[1..] && b == [b[0]] + b[1..];
    }
  }

  lemma {:induction false} LexTransitive(a: seq<nat>, b: seq<nat>, c: seq<nat>)
    requires Lex(a, b) <= 0 && Lex(b, c) <= 0
    ensures Lex(a, c) <= 0 && (Lex(a, c) == 0 ==> Lex(a, b) == 0 && Lex(b, c) == 0)
  {
    if a != [] && b != [] && c != [] && a[0] == b[0] == c[0] {
      LexTransitive(a[1..], b[1..], c[1..]);
    }
  }

  /** Two versions compare equal exactly when their keys are one, and the order turns round. */
  lemma KeysAreOrdered(a: Key, b: Key)
    ensures (KeyCmp(a, b) == 0 <==> a == b) && KeyCmp(a, b) == -KeyCmp(b, a)
  {
    LexFacts(a.release, b.release);
    LexFacts(a.patch, b.patch);
  }

  lemma OrderIsTransitive(a: Key, b: Key, c: Key)
    requires KeyCmp(a, b) <= 0 && KeyCmp(b, c) <= 0
    ensures KeyCmp(a, c) <= 0
  {
    LexFacts(a.release, b.release);
    LexFacts(b.release, c.release);
    LexFacts(a.patch, b.patch);
    LexFacts(b.patch, c.patch);
    LexTransitive(a.release, b.release, c.release);
    if a.release == b.release == c.release {
      LexTransitive(a.patch, b.patch, c.patch);
    }
  }

  /** Versions are equal when their releases are, number by number, and the rest of the key is. The label of
      a pre-release, "rc" or "alpha", plays no part. */
  lemma EqualVersions(v: Version, w: Version)
    ensures KeyCmp(CmpKey(v), CmpKey(w)) == 0 <==>
            && Padded(v.release, w.release) == 0
            && CmpKey(v).patch == CmpKey(w).patch && CmpKey(v).pre == CmpKey(w).pre
  {
    KeysAreOrdered(CmpKey(v), CmpKey(w));
    StrippedIsPadded(v.release, w.release);
    LexFacts(Strip(v.release), Strip(w.release));
  }

  // ---- Numbered patches ------------------------------------------------------------------

  predicate Digits(p: seq<nat>) {
    forall i | 0 <= i < |p| :: 48 <= p[i] <= 57
  }

  /** A number in decimal, with no zero before it. */
  predicate IsNumeral(p: seq<nat>) {
    p != [] && Digits(p) && (|p| > 1 ==> p[0] != 48)
  }

  function Pow10(n: nat): (r: nat)
    ensures r >= 1
  {
    if n == 0 then 1 else 10 * Pow10(n - 1)
  }

  function Value(p: seq<nat>): nat
    requires Digits(p)
  {
    if p == [] then 0 else Times(p[0] - 48, Pow10(|p| - 1)) + Value(p[1..])
  }

  function Times(a: nat, b: nat): nat {
    a * b
  }

  lemma TimesMono(a: nat, b: nat, w: nat)
    requires a <= b
    ensures Times(a, w) <= Times(b, w) && Times(a + 1, w) == Times(a, w) + w && Times(1, w) == w
  {
    assert (b - a) * w >= 0;
  }

  lemma {:induction false} Pow10Grows(m: nat, n: nat)
    requires m <= n
    ensures Pow10(m) <= Pow10(n)
  {
    if m < n {
      Pow10Grows(m, n - 1);
    }
  }

  lemma {:induction false} FirstDigit(p: seq<nat>)
    requires Digits(p) && p != []
    ensures Times(p[0] - 48, Pow10(|p| - 1)) <= Value(p) < Times(p[0] - 48 + 1, Pow10(|p| - 1))
  {
    TimesMono(p[0] - 48, p[0] - 48, Pow10(|p| - 1));
    if |p| > 1 {
      FirstDigit(p[1..]);
      TimesMono(p[1] - 48 + 1, 10, Pow10(|p| - 2));
      assert Times(10, Pow10(|p| - 2)) == Pow10(|p| - 1);
    }
  }

  lemma LaterFirst(p: seq<nat>, q: seq<nat>)
    requires Digits(p) && Digits(q) && |p| == |q| > 0 && p[0] < q[0]
    ensures Value(p) < Value(q)
  {
    FirstDigit(p);
    FirstDigit(q);
    TimesMono(p[0] - 48 + 1, q[0] - 48, Pow10(|p| - 1));
  }

  lemma {:induction false} SameLength(p: seq<nat>, q: seq<nat>)
    requires Digits(p) && Digits(q) && |p| == |q|
    ensures Lex(p, q) < 0 <==> Value(p) < Value(q)
  {
    if p != [] {
      if p[0] == q[0] {
        SameLength(p[1..], q[1..]);
      } else if p[0] < q[0] {
        LaterFirst(p, q);
      } else {
        LaterFirst(q, p);
      }
    }
  }

  lemma ShorterIsLess(p: seq<nat>, q: seq<nat>)
    requires Digits(p) && IsNumeral(q) && 0 < |p| < |q|
    ensures Value(p) < Value(q)
  {
    FirstDigit(p);
    TimesMono(p[0] - 48 + 1, 10, Pow10(|p| - 1));
    assert Times(10, Pow10(|p| - 1)) == Pow10(|p|);
    FirstDigit(q);
    Pow10Grows(|p|, |q| - 1);
    TimesMono(1, q[0] - 48, Pow10(|q| - 1));
  }

  lemma {:induction false} LexShorter(p: seq<nat>, q: seq<nat>)
    requires |p| < |q|
    ensures Lex(p, q) == if Lex(p, q[..|p|]) <= 0 then -1 else 1
  {
    if p != [] {
      assert q[..|p|][1..] == q[1..][..|p| - 1];
      LexShorter(p[1..], q[1..]);
    }
  }

  lemma {:induction false} OneDigitMore(p: seq<nat>, d: nat)
    requires Digits(p) && 48 <= d <= 57
    ensures Value(p + [d]) == 10 * Value(p) + (d - 48)
  {
    var q := p + [d];
    if p == [] {
      assert q == [d] && q[1..] == [];
      TimesMono(d - 48, d - 48, 1);
      assert Times(d - 48, Pow10(0)) == d - 48;
    } else {
      assert q[1..] == p[1..] + [d];
      OneDigitMore(p[1..], d);
      TimesTen(p[0] - 48, Pow10(|p| - 1));
    }
  }

  lemma TimesTen(a: nat, w: nat)
    ensures Times(a, 10 * w) == 10 * Times(a, w)
  {
  }

  /** Every number is written so. */
  lemma {:induction false} EveryNumber(n: nat) returns (p: seq<nat>)
    ensures IsNumeral(p) && Value(p) == n && (n > 0 ==> p[0] != 48)
  {
    if n < 10 {
      p := [48 + n];
      OneDigitMore([], 48 + n);
      assert [] + p == p;
    } else {
      var front := EveryNumber(n / 10);
      p := front + [48 + n % 10];
      OneDigitMore(front, 48 + n % 10);
    }
  }

  /** Patch numbers are compared as texts. That gives the order of the numbers exactly when they have the
      same number of digits or the shorter one is not after the beginning of the longer. */
  lemma PatchOrderIsNumericIff(p: seq<nat>, q: seq<nat>)
    requires IsNumeral(p) && IsNumeral(q)
    ensures (Lex(p, q) < 0 <==> Value(p) < Value(q)) <==>
            || |p| == |q|
            || (|p| < |q| && Lex(p, q[..|p|]) <= 0)
            || (|q| < |p| && Lex(q, p[..|q|]) <= 0)
  {
    LexFacts(p, q);
    if |p| == |q| {
      SameLength(p, q);
    } else if |p| < |q| {
      ShorterIsLess(p, q);
      LexShorter(p, q);
    } else {
      ShorterIsLess(q, p);
      LexShorter(q, p);
    }
  }

  /** "1.0p10" counts as older than "1.0p9". */
  lemma TenthPatchIsBeforeNinth()
    ensures KeyCmp(CmpKey(Version([1, 0], "10", None, None)), CmpKey(Version([1, 0], "9", None, None))) == -1
  {
    var a, b := CmpKey(Version([1, 0], "10", None, None)), CmpKey(Version([1, 0], "9", None, None));
    LexFacts(a.release, b.release);
    assert a.patch[0] == 49 && b.patch[0] == 57;
  }
}
