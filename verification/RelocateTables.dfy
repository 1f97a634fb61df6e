/** The directory table and the length table of a relocated loader agree, entry by entry. */
module RelocateTables {
  import opened Wrappers
  import opened Relocate
  import opened RelocateContents

  function Pow256(w: nat): nat {
    if w == 0 then 1 else 256 * Pow256(w - 1)
  }

  lemma {:induction false} PackIsLittle(n: nat, w: nat)
    requires n < Pow256(w)
    ensures Little(Pack(n, w)) == n
  {
    if w > 0 {
      PackIsLittle(n / 256, w - 1);
      assert Pack(n, w)[1..] == Pack(n / 256, w - 1);
    }
  }

  lemma {:induction false} LengthsPrefix(paths: seq<Bytes>, w: nat, k: nat)
    requires k <= |paths|
    ensures Lengths(paths[..k], w) <= Lengths(paths, w)
    decreases |paths|
  {
    if k < |paths| {
      var n := |paths| - 1;
      assert paths[..n][..k] == paths[..k];
      LengthsPrefix(paths[..n], w, k);
    } else {
      assert paths[..k] == paths;
    }
  }

  lemma SliceWithin(all: Bytes, a: Bytes, b: Bytes)
    requires a + b <= all
    ensures |a| + |b| <= |all| && all[|a|..|a| + |b|] == b
  {
    assert all[..|a| + |b|] == a + b;
  }

  lemma LengthEntry(paths: seq<Bytes>, w: nat, i: nat)
    requires i < |paths|
    ensures 0 <= w * i && w * i + w <= |Lengths(paths, w)|
    ensures Lengths(paths, w)[w * i..w * i + w] == Pack(|paths[i]|, w)
  {
    var upto := paths[..i + 1];
    assert upto[..i] == paths[..i];
    assert Lengths(upto, w) == Lengths(paths[..i], w) + Pack(|paths[i]|, w);
    LengthsSize(paths[..i], w);
    LengthsPrefix(paths, w, i + 1);
    SliceWithin(Lengths(paths, w), Lengths(paths[..i], w), Pack(|paths[i]|, w));
  }

  lemma {:induction false} LengthsSize(paths: seq<Bytes>, w: nat)
    ensures |Lengths(paths, w)| == w * |paths|
  {
    if paths != [] {
      var n := |paths| - 1;
      LengthsSize(paths[..n], w);
      assert w * (n + 1) == w * n + w;
    }
  }

  /** A path that can stand in a NUL-separated table. */
  predicate Proper(p: Bytes) {
    p != [] && forall k | 0 <= k < |p| :: p[k] != 0
  }

  lemma {:induction false} PathsAreProper(s: Bytes)
    ensures forall i | 0 <= i < |Paths(s)| :: Proper(Paths(s)[i])
    decreases |s|
  {
    var end := FindNul(s, 0);
    FindNulBounds(s, 0);
    if s != [] && end > 0 {
      PathsAreProper(s[end + 1..]);
    }
  }

  lemma {:induction false} SubIsProper(s: Bytes, prefix: Bytes)
    requires Proper(prefix) && Proper(s)
    ensures Proper(Sub(s, prefix))
    decreases |s|
  {
    var rest := if OldPrefix() <= s then s[|OldPrefix()|..] else s[1..];
    if rest != [] {
      SubIsProper(rest, prefix);
    }
  }

  lemma TerminatedLast(paths: seq<Bytes>)
    requires paths != []
    ensures Terminated(paths) == Terminated(paths[..|paths| - 1]) + (paths[|paths| - 1] + [0])
  {
    var init, last := paths[..|paths| - 1], paths[|paths| - 1];
    Regroup(Terminated(init), last, [0]);
  }

  lemma {:induction false} TerminatedFront(paths: seq<Bytes>)
    requires paths != []
    ensures Terminated(paths) == paths[0] + [0] + Terminated(paths[1..])
    decreases |paths|
  {
    var n := |paths| - 1;
    TerminatedLast(paths);
    if n == 0 {
      assert Terminated(paths[..0]) == [] && Terminated(paths[1..]) == [];
      assert [] + (paths[0] + [0]) == paths[0] + [0] + [];
    } else {
      TerminatedFront(paths[..n]);
      TerminatedLast(paths[1..]);
      assert paths[..n][1..] == paths[1..][..n - 1];
      Regroup(paths[0] + [0], Terminated(paths[..n][1..]), paths[n] + [0]);
    }
  }

  lemma FindFirstNul(p: Bytes, t: Bytes, from: nat)
    requires (forall k | 0 <= k < |p| :: p[k] != 0) && from <= |p|
    ensures FindNul(p + [0] + t, from) == |p|
    decreases |p| - from
  {
    if from < |p| {
      FindFirstNul(p, t, from + 1);
    }
  }

  /** Splitting a padded table gives back the paths it was written from. */
  lemma FirstPath(p: Bytes, rest: Bytes)
    requires Proper(p)
    ensures Paths(p + [0] + rest) == [p] + Paths(rest)
  {
    var s := p + [0] + rest;
    FindFirstNul(p, rest, 0);
    assert s[..|p|] == p && s[|p| + 1..] == rest;
  }

  lemma {:induction false} TableSplits(paths: seq<Bytes>, pad: int)
    requires forall i | 0 <= i < |paths| :: Proper(paths[i])
    ensures Paths(Terminated(paths) + Zeros(pad)) == paths
    decreases |paths|
  {
    if paths == [] {
      assert Terminated(paths) + Zeros(pad) == Zeros(pad);
    } else {
      var rest := Terminated(paths[1..]) + Zeros(pad);
      TerminatedFront(paths);
      assert Terminated(paths) + Zeros(pad) == paths[0] + [0] + rest;
      TableSplits(paths[1..], pad);
      FirstPath(paths[0], rest);
    }
  }

  /** Entry `i` of the new .sysdirslen, read as the little-endian number it is written as, is the length
      of path `i` of the new .sysdirs. */
  lemma TablesAgree(d: Bytes, h: Elf, prefix: Bytes, dirs: Chunk, lens: Chunk, i: nat)
    requires TablesDone(d, h, prefix, dirs, lens) && Proper(prefix)
    requires i < |Paths(d[dirs.off..dirs.off + dirs.size])|
    requires |Paths(d[dirs.off..dirs.off + dirs.size])[i]| < Pow256(Width(h))
    ensures var w, table := Width(h), d[lens.off..lens.off + lens.size];
            && Paths(d[dirs.off..dirs.off + dirs.size]) == Subbed(Paths(dirs.content), prefix)
            && w * i + w <= |table|
            && Little(table[w * i..w * i + w]) == |Paths(d[dirs.off..dirs.off + dirs.size])[i]|
  {
    TableReadsBack(d, h, prefix, dirs, lens);
    EntryInTable(d[lens.off..lens.off + lens.size], Subbed(Paths(dirs.content), prefix), Width(h), i);
    PackIsLittle(|Subbed(Paths(dirs.content), prefix)[i]|, Width(h));
  }

  lemma TableReadsBack(d: Bytes, h: Elf, prefix: Bytes, dirs: Chunk, lens: Chunk)
    requires TablesDone(d, h, prefix, dirs, lens) && Proper(prefix)
    ensures Paths(d[dirs.off..dirs.off + dirs.size]) == Subbed(Paths(dirs.content), prefix)
  {
    SubbedProper(dirs.content, prefix);
    PaddedSplits(Subbed(Paths(dirs.content), prefix), dirs.size);
  }

  lemma PaddedSplits(paths: seq<Bytes>, size: nat)
    requires forall i | 0 <= i < |paths| :: Proper(paths[i])
    ensures Paths(Padded(Terminated(paths), size)) == paths
  {
    TableSplits(paths, size - |Terminated(paths)|);
  }

  lemma EntryInTable(table: Bytes, paths: seq<Bytes>, w: nat, i: nat)
    requires Lengths(paths, w) <= table && i < |paths|
    ensures 0 <= w * i && w * i + w <= |table| && table[w * i..w * i + w] == Pack(|paths[i]|, w)
  {
    LengthEntry(paths, w, i);
    var lengths := Lengths(paths, w);
    assert table[..|lengths|] == lengths;
    assert table[w * i..w * i + w] == lengths[w * i..w * i + w];
  }

  lemma SubbedProper(content: Bytes, prefix: Bytes)
    requires Proper(prefix)
    ensures forall i | 0 <= i < |Subbed(Paths(content), prefix)| :: Proper(Subbed(Paths(content), prefix)[i])
  {
    SubbedCounts(Paths(content), prefix);
    PathsAreProper(content);
    forall i | 0 <= i < |Paths(content)|
      ensures Proper(Sub(Paths(content)[i], prefix))
    {
      SubIsProper(Paths(content)[i], prefix);
    }
  }

  // ---- the byte order of the lengths -----------------------------------------------------

  function Backwards(b: Bytes): (r: Bytes)
    ensures |r| == |b|
  {
    if b == [] then [] else [b[|b| - 1]] + Backwards(b[..|b| - 1])
  }

  predicate IsPalindrome(b: Bytes) {
    forall i | 0 <= i < |b| :: b[i] == b[|b| - 1 - i]
  }

  lemma {:induction false} BackwardsAt(b: Bytes, i: nat)
    requires i < |b|
    ensures Backwards(b)[i] == b[|b| - 1 - i]
    decreases |b|
  {
    if i > 0 {
      BackwardsAt(b[..|b| - 1], i - 1);
    }
  }

  lemma PalindromeIsItsReverse(b: Bytes)
    ensures IsPalindrome(b) <==> Backwards(b) == b
  {
    forall i | 0 <= i < |b| ensures Backwards(b)[i] == b[|b| - 1 - i] {
      BackwardsAt(b, i);
    }
  }

  lemma {:induction false} BigIsBackwards(b: Bytes)
    ensures Big(b) == Little(Backwards(b))
    decreases |b|
  {
    if b != [] {
      BigIsBackwards(b[..|b| - 1]);
      assert Backwards(b)[1..] == Backwards(b[..|b| - 1]);
    }
  }

  lemma SameDigit(a: Byte, x: nat, b: Byte, y: nat)
    requires a + 256 * x == b + 256 * y
    ensures a == b && x == y
  {
  }

  lemma {:induction false} LittleInjective(a: Bytes, b: Bytes)
    requires |a| == |b| && Little(a) == Little(b)
    ensures a == b
  {
    if a != [] {
      SameDigit(a[0], Little(a[1..]), b[0], Little(b[1..]));
      LittleInjective(a[1..], b[1..]);
      assert a == [a[0]] + a[1..] && b == [b[0]] + b[1..];
    }
  }

  /** A packed length comes out right if and only if the file is little-endian or the bytes read the same
      backwards. */
  lemma LengthReadsRightIff(h: Elf, n: nat, w: nat)
    requires n < Pow256(w)
    ensures Number(h, Pack(n, w)) == n <==> h.little || IsPalindrome(Pack(n, w))
  {
    var b := Pack(n, w);
    PackIsLittle(n, w);
    BigIsBackwards(b);
    PalindromeIsItsReverse(b);
    if Big(b) == n {
      LittleInjective(Backwards(b), b);
    }
  }

  /** The same in the finished file: what a loader of its own byte order reads as entry `i`. */
  lemma EntryReadsRightIff(d: Bytes, h: Elf, prefix: Bytes, dirs: Chunk, lens: Chunk, i: nat)
    requires TablesDone(d, h, prefix, dirs, lens) && Proper(prefix)
    requires i < |Paths(d[dirs.off..dirs.off + dirs.size])|
    requires |Paths(d[dirs.off..dirs.off + dirs.size])[i]| < Pow256(Width(h))
    ensures var w, table := Width(h), d[lens.off..lens.off + lens.size];
            var path := Paths(d[dirs.off..dirs.off + dirs.size])[i];
            && 0 <= w * i && w * i + w <= |table|
            && (Number(h, table[w * i..w * i + w]) == |path| <==> h.little || IsPalindrome(Pack(|path|, w)))
  {
    TableReadsBack(d, h, prefix, dirs, lens);
    var paths := Subbed(Paths(dirs.content), prefix);
    EntryInTable(d[lens.off..lens.off + lens.size], paths, Width(h), i);
    LengthReadsRightIff(h, |paths[i]|, Width(h));
  }

  lemma PackBytes(n: nat, w: nat)
    requires n < 65536 && w >= 4
    ensures var b := Pack(n, w);
            b[0] == n % 256 && b[1] == n / 256 && b[w - 1] == 0 && b[w - 2] == 0
  {
    assert Pack(n, w)[1..] == Pack(n / 256, w - 1);
    assert Pack(n / 256, w - 1)[1..] == Pack(n / 256 / 256, w - 2);
    assert n / 256 / 256 == 0;
    PackZero(w - 2);
    assert Pack(n, w)[2..] == Pack(0, w - 2);
    assert Pack(n, w)[w - 1] == Pack(n, w)[2..][w - 3] && Pack(n, w)[w - 2] == Pack(n, w)[2..][w - 4];
  }

  lemma {:induction false} PackZero(w: nat)
    ensures forall i | 0 <= i < w :: Pack(0, w)[i] == 0
  {
    if w > 0 {
      PackZero(w - 1);
      assert Pack(0, w) == [0] + Pack(0, w - 1);
    }
  }

  /** Every length of an ordinary path is misread in a big-endian file. */
  lemma BigEndianMisread(h: Elf, n: nat, w: nat)
    requires !h.little && 0 < n < 65536 && w >= 4 && n < Pow256(w)
    ensures Number(h, Pack(n, w)) != n
  {
    LengthReadsRightIff(h, n, w);
    PackBytes(n, w);
    var b := Pack(n, w);
    assert b[0] != b[w - 1 - 0] || b[1] != b[w - 1 - 1];
  }
}
