/** The texts in a file: replacing the placeholder, stripping NULs, and names of sections. */
module RelocateTexts {
  import opened Wrappers
  import opened Relocate

  /** The placeholder stands at place `i` and nowhere before. */
  predicate PlaceholderAt(s: Bytes, i: nat) {
    i + |OldPrefix()| <= |s| && OldPrefix() <= s[i..] && forall j | 0 <= j < i :: !(OldPrefix() <= s[j..])
  }

  lemma SubHere(s: Bytes, prefix: Bytes)
    requires OldPrefix() <= s
    ensures Sub(s, prefix) == prefix + Sub(s[|OldPrefix()|..], prefix)
  {
    assert |OldPrefix()| > 0;
  }

  lemma SubLater(s: Bytes, prefix: Bytes)
    requires s != [] && !(OldPrefix() <= s)
    ensures Sub(s, prefix) == [s[0]] + Sub(s[1..], prefix)
  {
  }

  lemma LaterPlace(s: Bytes, i: nat)
    requires PlaceholderAt(s, i) && i > 0
    ensures PlaceholderAt(s[1..], i - 1) && !(OldPrefix() <= s)
  {
    assert s[0..] == s && s[1..][i - 1..] == s[i..];
    assert forall j | 0 <= j < i - 1 :: s[1..][j..] == s[j + 1..];
  }

  lemma {:induction false} SubFirst(s: Bytes, prefix: Bytes, i: nat)
    requires PlaceholderAt(s, i)
    ensures Sub(s, prefix) == s[..i] + prefix + Sub(s[i + |OldPrefix()|..], prefix)
    decreases |s|
  {
    var n := |OldPrefix()|;
    if i == 0 {
      assert s[0..] == s;
      SubHere(s, prefix);
    } else {
      LaterPlace(s, i);
      SubLater(s, prefix);
      SubFirst(s[1..], prefix, i - 1);
      Rejoin(s, prefix, Sub(s[i + n..], prefix), i, n);
    }
  }

  lemma Rejoin(s: Bytes, prefix: Bytes, rest: Bytes, i: nat, n: nat)
    requires 0 < i && i + n <= |s|
    ensures [s[0]] + (s[1..][..i - 1] + prefix + rest) == s[..i] + prefix + rest && s[1..][i - 1 + n..] == s[i + n..]
  {
    assert s[..i] == [s[0]] + s[1..][..i - 1];
    Regroup([s[0]], s[1..][..i - 1], prefix);
    Regroup([s[0]], s[1..][..i - 1] + prefix, rest);
  }

  lemma {:induction false} SubNone(s: Bytes, prefix: Bytes)
    requires forall j | 0 <= j <= |s| :: !(OldPrefix() <= s[j..])
    ensures Sub(s, prefix) == s
    decreases |s|
  {
    if s != [] {
      assert s[0..] == s;
      assert forall j | 0 <= j <= |s| - 1 :: s[1..][j..] == s[j + 1..];
      SubNone(s[1..], prefix);
    }
  }

  /** Only NULs at the end go, and all of them. */
  lemma {:induction false} StripIs(text: Bytes, nuls: Bytes)
    requires (forall k | 0 <= k < |nuls| :: nuls[k] == 0) && (text != [] ==> text[|text| - 1] != 0)
    ensures Strip(text + nuls) == text
  {
    var all, n := text + nuls, |nuls| - 1;
    if nuls == [] {
      assert all == text;
    } else {
      assert all[..|all| - 1] == text + nuls[..n];
      StripIs(text, nuls[..n]);
    }
  }

  /** A section name goes up to its NUL; the last byte is lost where there is none. */
  lemma NameIs(strtab: Bytes, at: nat, name: Bytes, rest: Bytes)
    requires at <= |strtab| && 0 !in name
    ensures strtab[at..] == name + [0] + rest ==> NameAt(strtab, at) == name
    ensures strtab[at..] == name ==> NameAt(strtab, at) == if name == [] then [] else name[..|name| - 1]
  {
    FindNulBounds(strtab, at);
    var end := FindNul(strtab, at);
    assert forall k | at <= k < |strtab| :: strtab[k] == strtab[at..][k - at];
    if strtab[at..] == name + [0] + rest {
      assert strtab[at + |name|] == (name + [0] + rest)[|name|] == 0;
      assert forall k | at <= k < at + |name| :: strtab[k] == name[k - at];
      assert end == at + |name|;
      assert strtab[at..end] == strtab[at..][..|name|] == name;
    }
    if strtab[at..] == name {
      assert forall k | at <= k < |strtab| :: strtab[k] in name;
    }
  }
}
