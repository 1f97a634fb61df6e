/** What several modules share: an answer that may be missing, facts about lists, and what counts as space. */
module Wrappers {
  datatype Option<+T> = None | Some(value: T)

  predicate Distinct<T(==)>(s: seq<T>) {
    forall i, j | 0 <= i < j < |s| :: s[i] != s[j]
  }

  lemma Regroup<T>(a: seq<T>, b: seq<T>, c: seq<T>)
    ensures (a + b) + c == a + (b + c)
    ensures b == [] ==> a + b == a
  {
  }

  lemma RegroupFour<T>(a: seq<T>, b: seq<T>, c: seq<T>, d: seq<T>)
    ensures a + b + c + d == a + (b + c + d)
  {
  }

  lemma DistinctTail<T>(x: T, s: seq<T>)
    ensures Distinct([x] + s) <==> Distinct(s) && x !in s
  {
    var all := [x] + s;
    assert s == all[1..];
    if Distinct(all) {
      forall i | 0 <= i < |s|
        ensures s[i] != x
      {
        assert all[0] != all[i + 1];
      }
      forall i, j | 0 <= i < j < |s|
        ensures s[i] != s[j]
      {
        assert all[i + 1] != all[j + 1];
      }
    }
  }

  /** `ix` are the places of the list whose members pass the test, in order. */
  ghost predicate Picks<T(!new)>(s: seq<T>, p: T -> bool, ix: seq<nat>) {
    && (forall a, b | 0 <= a < b < |ix| :: ix[a] < ix[b])
    && (forall a | 0 <= a < |ix| :: ix[a] < |s|)
    && (forall i: nat | i < |s| :: i in ix <==> p(s[i]))
  }

  lemma PicksGrow<T(!new)>(s: seq<T>, last: T, p: T -> bool, ix: seq<nat>)
    requires Picks(s, p, ix)
    ensures Picks(s + [last], p, ix + if p(last) then [|s|] else [])
  {
    assert forall i: nat | i < |s| :: (s + [last])[i] == s[i];
  }

  const SMALL := "abcdefghijklmnopqrstuvwxyz"
  const CAPITAL := "ABCDEFGHIJKLMNOPQRSTUVWXYZ"
  const DIGITS := "0123456789"

  /** The letters and the digits stand in code order. */
  lemma SmallLetters(c: char)
    ensures |SMALL| == 26 && forall i | 0 <= i < 26 :: SMALL[i] as int == 97 + i
    ensures c in SMALL <==> 'a' <= c <= 'z'
  {
    if 'a' <= c <= 'z' {
      assert SMALL[c as int - 97] == c;
    }
  }

  lemma CapitalLetters(c: char)
    ensures |CAPITAL| == 26 && forall i | 0 <= i < 26 :: CAPITAL[i] as int == 65 + i
    ensures c in CAPITAL <==> 'A' <= c <= 'Z'
  {
    if 'A' <= c <= 'Z' {
      assert CAPITAL[c as int - 65] == c;
    }
  }

  lemma TenDigits(c: char)
    ensures |DIGITS| == 10 && forall i | 0 <= i < 10 :: DIGITS[i] as int == 48 + i
    ensures c in DIGITS <==> '0' <= c <= '9'
  {
    if '0' <= c <= '9' {
      assert DIGITS[c as int - 48] == c;
    }
  }

  /** `str.isspace` for one character. */
  predicate IsSpace(c: char) {
    || c == ' ' || '\t' <= c <= '\r' || '\U{1C}' <= c <= '\U{1F}' || c == '\U{85}' || c == '\U{A0}' || c == '\U{1680}'
    || '\U{2000}' <= c <= '\U{200A}' || c == '\U{2028}' || c == '\U{2029}' || c == '\U{202F}' || c == '\U{205F}'
    || c == '\U{3000}'
  }
}
