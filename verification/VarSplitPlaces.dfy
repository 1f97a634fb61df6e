/** Which pieces of a value its items are, told by the characters of the value alone. */
module VarSplitPlaces {
  import opened Wrappers
  import opened VarSplit

  /** The brace of "${". */
  predicate Opens(value: string, j: int) {
    0 < j < |value| && value[j - 1] == '$' && value[j] == '{'
  }

  /** The places before `n` that open an expression. */
  function Opened(value: string, n: nat): set<int> {
    set j | 0 <= j < n && Opens(value, j)
  }

  function Closed(value: string, n: nat): set<int> {
    set j | 0 <= j < n && j < |value| && value[j] == '}'
  }

  /** As many "${" as "}" stand before the place. */
  predicate Outside(value: string, i: nat) {
    |Opened(value, i)| == |Closed(value, i)|
  }

  predicate QuotePlace(assignment: bool, value: string, i: nat)
    requires i < |value|
  {
    assignment && (value[i] == '"' || value[i] == '\'') && Outside(value, i)
  }

  predicate SpacePlace(value: string, i: nat)
    requires i < |value|
  {
    IsSpace(value[i]) && Outside(value, i)
  }

  predicate Between(assignment: bool, value: string, i: nat)
    requires i < |value|
  {
    QuotePlace(assignment, value, i) || SpacePlace(value, i)
  }

  /** From `lo` up to `hi` stands an item: a quote alone, or all there is between two cuts. */
  datatype Place = Place(lo: nat, hi: nat)

  predicate NoCuts(assignment: bool, value: string, lo: nat, hi: nat)
    requires hi <= |value|
  {
    forall i: nat | lo <= i < hi :: !Between(assignment, value, i)
  }

  predicate Begins(assignment: bool, value: string, lo: nat)
    requires lo <= |value|
  {
    lo == 0 || Between(assignment, value, lo - 1)
  }

  predicate IsPlace(assignment: bool, value: string, p: Place) {
    && p.lo < p.hi <= |value|
    && (|| (p.hi == p.lo + 1 && QuotePlace(assignment, value, p.lo))
        || (&& NoCuts(assignment, value, p.lo, p.hi) && Begins(assignment, value, p.lo)
            && (p.hi == |value| || Between(assignment, value, p.hi))))
  }

  predicate Ascending(places: seq<Place>) {
    forall k, m | 0 <= k < m < |places| :: places[k].hi <= places[m].lo
  }

  predicate Covered(places: seq<Place>, i: nat) {
    exists k | 0 <= k < |places| :: places[k].lo <= i < places[k].hi
  }

  /** The places of the items found before `upTo`. */
  ghost predicate ArePlaces(assignment: bool, value: string, upTo: nat, places: seq<Place>, items: seq<string>)
    requires upTo <= |value|
  {
    && |places| == |items|
    && Ascending(places)
    && (forall k | 0 <= k < |places| :: IsPlace(assignment, value, places[k]) && places[k].hi <= upTo)
    && (forall k | 0 <= k < |places| :: items[k] == value[places[k].lo..places[k].hi])
    && (forall i: nat | i < upTo && !SpacePlace(value, i) :: Covered(places, i))
  }

  // ---- the scan --------------------------------------------------------------------------

  /** The loop after `n` characters. */
  function ScanTo(assignment: bool, value: string, n: nat): Scan
    requires n <= |value|
  {
    if n == 0 then Scan([], START, "") else Step(assignment, ScanTo(assignment, value, n - 1), value[n - 1])
  }

  lemma {:induction false} ScanRest(assignment: bool, value: string, n: nat)
    requires n <= |value|
    ensures Rest(assignment, ScanTo(assignment, value, n), value[n..]) == Split(assignment, value, START, "")
  {
    if n == 0 {
      assert value[0..] == value;
      assert [] + Split(assignment, value, START, "") == Split(assignment, value, START, "");
    } else {
      ScanRest(assignment, value, n - 1);
      assert value[n - 1..][1..] == value[n..];
      StepRest(assignment, ScanTo(assignment, value, n - 1), value[n - 1..]);
    }
  }

  lemma NextOpened(value: string, n: nat)
    requires n < |value|
    ensures |Opened(value, n + 1)| == |Opened(value, n)| + if Opens(value, n) then 1 else 0
  {
    if Opens(value, n) {
      assert Opened(value, n + 1) == Opened(value, n) + {n};
    } else {
      assert Opened(value, n + 1) == Opened(value, n);
    }
  }

  lemma NextClosed(value: string, n: nat)
    requires n < |value|
    ensures |Closed(value, n + 1)| == |Closed(value, n)| + if value[n] == '}' then 1 else 0
  {
    if value[n] == '}' {
      assert Closed(value, n + 1) == Closed(value, n) + {n};
    } else {
      assert Closed(value, n + 1) == Closed(value, n);
    }
  }

  /** The loop's two counters, as the characters before the place have them. */
  function CursorAt(value: string, n: nat): Cursor
    requires n <= |value|
  {
    Cursor(|Opened(value, n)| - |Closed(value, n)|, n > 0 && value[n - 1] == '$')
  }

  lemma CutsAreBetween(assignment: bool, value: string, n: nat)
    requires n < |value|
    ensures QuoteCut(assignment, CursorAt(value, n), value[n]) <==> QuotePlace(assignment, value, n)
    ensures SpaceCut(CursorAt(value, n), value[n]) <==> SpacePlace(value, n)
  {
  }

  lemma {:induction false} CursorIs(assignment: bool, value: string, n: nat)
    requires n <= |value|
    ensures ScanTo(assignment, value, n).cur == CursorAt(value, n)
  {
    if n > 0 {
      CursorIs(assignment, value, n - 1);
      NextOpened(value, n - 1);
      NextClosed(value, n - 1);
      CutsAreBetween(assignment, value, n - 1);
    }
  }

  /** The item under way: everything since the last cut. */
  predicate UnderWay(assignment: bool, value: string, n: nat, lo: nat, buf: string)
    requires n <= |value|
  {
    lo <= n && buf == value[lo..n] && NoCuts(assignment, value, lo, n) && Begins(assignment, value, lo)
  }

  ghost predicate Scanned(assignment: bool, value: string, n: nat, places: seq<Place>, lo: nat)
    requires n <= |value|
  {
    var s := ScanTo(assignment, value, n);
    UnderWay(assignment, value, n, lo, s.buf) && ArePlaces(assignment, value, lo, places, s.out)
  }

  /** The items with one more place. */
  lemma OnePlaceMore(assignment: bool, value: string, upTo: nat, places: seq<Place>, items: seq<string>, p: Place)
    requires upTo == p.lo < p.hi <= |value| && ArePlaces(assignment, value, upTo, places, items) && IsPlace(assignment, value, p)
    ensures ArePlaces(assignment, value, p.hi, places + [p], items + [value[p.lo..p.hi]])
  {
    var more := places + [p];
    assert forall k | 0 <= k < |places| :: more[k] == places[k];
    assert more[|places|] == p;
    forall i: nat | i < p.hi && !SpacePlace(value, i) ensures Covered(more, i) {
      if i < upTo {
        var k :| 0 <= k < |places| && places[k].lo <= i < places[k].hi;
        assert more[k].lo <= i < more[k].hi;
      } else {
        assert more[|places|].lo <= i < more[|places|].hi;
      }
    }
  }

  /** The item under way ends at `n`, where a cut or the end of the value is. */
  lemma Flushed(assignment: bool, value: string, n: nat, places: seq<Place>, lo: nat, out: seq<string>, buf: string) returns (more: seq<Place>)
    requires n <= |value| && UnderWay(assignment, value, n, lo, buf) && ArePlaces(assignment, value, lo, places, out)
    requires n == |value| || Between(assignment, value, n)
    ensures ArePlaces(assignment, value, n, more, out + Flush(buf))
  {
    if buf == "" {
      more := places;
      assert out + [] == out;
    } else {
      OnePlaceMore(assignment, value, lo, places, out, Place(lo, n));
      more := places + [Place(lo, n)];
    }
  }

  /** A cut character: the quote is an item itself, whitespace is none. */
  lemma CutDone(assignment: bool, value: string, n: nat, places: seq<Place>, out: seq<string>) returns (more: seq<Place>)
    requires n < |value| && Between(assignment, value, n) && ArePlaces(assignment, value, n, places, out)
    ensures ArePlaces(assignment, value, n + 1, more, out + CutPiece(assignment, CursorAt(value, n), value[n]))
  {
    CutsAreBetween(assignment, value, n);
    if QuotePlace(assignment, value, n) {
      assert value[n..n + 1] == [value[n]];
      OnePlaceMore(assignment, value, n, places, out, Place(n, n + 1));
      more := places + [Place(n, n + 1)];
    } else {
      more := places;
      assert out + [] == out;
    }
  }

  lemma StayUnderWay(assignment: bool, value: string, n: nat, lo: nat, buf: string)
    requires n < |value| && UnderWay(assignment, value, n, lo, buf) && !Between(assignment, value, n)
    ensures UnderWay(assignment, value, n + 1, lo, buf + [value[n]])
  {
    assert value[lo..n + 1] == value[lo..n] + [value[n]];
  }

  /** One turn of the loop, from what it finds to what it leaves. */
  lemma PlacesNext(assignment: bool, value: string, n: nat, s: Scan, places: seq<Place>, lo: nat) returns (places': seq<Place>, lo': nat)
    requires n < |value| && s.cur == CursorAt(value, n)
    requires UnderWay(assignment, value, n, lo, s.buf) && ArePlaces(assignment, value, lo, places, s.out)
    ensures var s' := Step(assignment, s, value[n]);
            UnderWay(assignment, value, n + 1, lo', s'.buf) && ArePlaces(assignment, value, lo', places', s'.out)
  {
    places', lo' := places, lo;
    CutsAreBetween(assignment, value, n);
    if Between(assignment, value, n) {
      var flushed, piece := s.out + Flush(s.buf), CutPiece(assignment, s.cur, value[n]);
      places' := Flushed(assignment, value, n, places, lo, s.out, s.buf);
      places' := CutDone(assignment, value, n, places', flushed);
      Regroup(s.out, Flush(s.buf), piece);
      lo' := n + 1;
    } else {
      StayUnderWay(assignment, value, n, lo, s.buf);
    }
  }

  lemma {:induction false} ScanPlaces(assignment: bool, value: string, n: nat) returns (places: seq<Place>, lo: nat)
    requires n <= |value|
    ensures Scanned(assignment, value, n, places, lo)
  {
    places, lo := [], 0;
    if n > 0 {
      places, lo := ScanPlaces(assignment, value, n - 1);
      CursorIs(assignment, value, n - 1);
      places, lo := PlacesNext(assignment, value, n - 1, ScanTo(assignment, value, n - 1), places, lo);
    }
  }

  /** For every value: the items are its quotes outside expressions and what stands between two cuts, all of them
      and in order. A place is outside where as many "${" as "}" stand before it. */
  lemma ItemsHavePlaces(assignment: bool, value: string) returns (places: seq<Place>)
    ensures ArePlaces(assignment, value, |value|, places, Split(assignment, value, START, ""))
  {
    var n := |value|;
    var lo: nat;
    places, lo := ScanPlaces(assignment, value, n);
    ScanRest(assignment, value, n);
    assert value[n..] == "";
    var s := ScanTo(assignment, value, n);
    places := Flushed(assignment, value, n, places, lo, s.out, s.buf);
  }
}
