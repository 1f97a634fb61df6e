/** recipeutils.py, split_var_value: cutting a variable's value at whitespace outside `${...}`. */
module VarSplit {
  import opened Wrappers

  /** How deep the scan is in expressions, and whether the last character was '$'. A '}' without an opening
      brace takes the depth below zero. */
  datatype Cursor = Cursor(inexpr: int, dollar: bool)

  const START := Cursor(0, false)

  predicate IsQuote(c: char) {
    c == '"' || c == '\''
  }

  predicate QuoteCut(assignment: bool, cur: Cursor, c: char) {
    assignment && IsQuote(c) && cur.inexpr == 0
  }

  predicate SpaceCut(cur: Cursor, c: char) {
    IsSpace(c) && cur.inexpr == 0
  }

  predicate Cuts(assignment: bool, cur: Cursor, c: char) {
    QuoteCut(assignment, cur, c) || SpaceCut(cur, c)
  }

  function Next(cur: Cursor, c: char): Cursor {
    Cursor(if c == '{' then (if cur.dollar then cur.inexpr + 1 else cur.inexpr)
           else if c == '}' then cur.inexpr - 1
           else cur.inexpr,
           c == '$')
  }

  function Flush(buf: string): seq<string> {
    if buf == "" then [] else [buf]
  }

  function CutPiece(assignment: bool, cur: Cursor, c: char): seq<string> {
    if QuoteCut(assignment, cur, c) then [[c]] else []
  }

  /** The items still to come, `buf` being the one under way. */
  function Split(assignment: bool, value: string, cur: Cursor, buf: string): seq<string>
    decreases |value|
  {
    if value == "" then Flush(buf)
    else if Cuts(assignment, cur, value[0]) then
      Flush(buf) + CutPiece(assignment, cur, value[0]) + Split(assignment, value[1..], START, "")
    else
      Split(assignment, value[1..], Next(cur, value[0]), buf + [value[0]])
  }

  predicate HasQuote(item: string) {
    '"' in item || '\'' in item
  }

  function Spaced(items: seq<string>): string {
    if items == [] then ""
    else if |items| == 1 then items[0]
    else items[0] + " " + Spaced(items[1..])
  }

  /** The first item with a quote at or after the first with '='. */
  function OpeningQuote(out: seq<string>, idx: nat, found: bool): (r: Option<nat>)
    requires idx <= |out|
    ensures r.Some? ==> idx <= r.value < |out|
    decreases |out| - idx
  {
    if idx == |out| then None
    else
      var assigfound := found || '=' in out[idx];
      if assigfound && HasQuote(out[idx]) then Some(idx) else OpeningQuote(out, idx + 1, assigfound)
  }

  /** "Join together assignment statement and opening quote". */
  function JoinHead(out: seq<string>): seq<string> {
    var idx := OpeningQuote(out, 0, false);
    if idx.None? then out else [Spaced(out[..idx.value + 1])] + out[idx.value + 1..]
  }

  /** The loop's variables. */
  datatype Scan = Scan(out: seq<string>, cur: Cursor, buf: string)

  function Step(assignment: bool, s: Scan, c: char): Scan {
    if Cuts(assignment, s.cur, c) then Scan(s.out + (Flush(s.buf) + CutPiece(assignment, s.cur, c)), START, "")
    else Scan(s.out, Next(s.cur, c), s.buf + [c])
  }

  function Rest(assignment: bool, s: Scan, value: string): seq<string> {
    s.out + Split(assignment, value, s.cur, s.buf)
  }

  lemma StepRest(assignment: bool, s: Scan, value: string)
    requires value != ""
    ensures Rest(assignment, s, value) == Rest(assignment, Step(assignment, s, value[0]), value[1..])
  {
    var c := value[0];
    if Cuts(assignment, s.cur, c) {
      RegroupFour(s.out, Flush(s.buf), CutPiece(assignment, s.cur, c), Split(assignment, value[1..], START, ""));
      assert s.out + (Flush(s.buf) + CutPiece(assignment, s.cur, c)) ==
             s.out + Flush(s.buf) + CutPiece(assignment, s.cur, c);
    }
  }

  /** The loop body for one character. */
  method ScanChar(assignment: bool, c: char, out0: seq<string>, inexpr0: int, lastdollar0: bool, buf0: string)
    returns (out: seq<string>, inexpr: int, lastdollar: bool, buf: string)
    ensures Scan(out, Cursor(inexpr, lastdollar), buf)
         == Step(assignment, Scan(out0, Cursor(inexpr0, lastdollar0), buf0), c)
  {
    out, inexpr, lastdollar, buf := out0, inexpr0, lastdollar0, buf0;
    if c == '{' {
      if lastdollar {
        inexpr := inexpr + 1;
      }
    } else if c == '}' {
      inexpr := inexpr - 1;
    } else if assignment && IsQuote(c) && inexpr == 0 {
      if buf != "" {
        out := out + [buf];
      }
      out := out + [[c]];
      return out, inexpr, false, "";
    } else if IsSpace(c) && inexpr == 0 {
      if buf != "" {
        out := out + [buf];
      }
      return out, inexpr, false, "";
    }
    buf, lastdollar := buf + [c], c == '$';
  }

  method ScanItems(value: string, assignment: bool) returns (out: seq<string>)
    ensures out == Split(assignment, value, START, "")
  {
    var inexpr, lastdollar := 0, false;
    out := [];
    var buf := "";
    var i := 0;
    while i < |value|
      invariant i <= |value|
      invariant Rest(assignment, Scan(out, Cursor(inexpr, lastdollar), buf), value[i..]) ==
                Split(assignment, value, START, "")
    {
      assert value[i..][1..] == value[i + 1..];
      StepRest(assignment, Scan(out, Cursor(inexpr, lastdollar), buf), value[i..]);
      out, inexpr, lastdollar, buf := ScanChar(assignment, value[i], out, inexpr, lastdollar, buf);
      i := i + 1;
    }
    if buf != "" {
      out := out + [buf];
    }
  }

  method SplitVarValue(value: string, assignment: bool) returns (outlist: seq<string>)
    ensures var out := Split(assignment, value, START, ""); outlist == if assignment then JoinHead(out) else out
  {
    var out := ScanItems(value, assignment);
    outlist := out;
    if assignment {
      var assigfound := false;
      var idx := 0;
      while idx < |out|
        invariant idx <= |out|
        invariant OpeningQuote(out, idx, assigfound) == OpeningQuote(out, 0, false)
      {
        if '=' in out[idx] {
          assigfound := true;
        }
        if assigfound && HasQuote(out[idx]) {
          return [Spaced(out[..idx + 1])] + out[idx + 1..];
        }
        idx := idx + 1;
      }
    }
  }

  // ---- Nothing but whitespace is dropped -------------------------------------------------

  function Flat(items: seq<string>): string {
    if items == [] then "" else items[0] + Flat(items[1..])
  }

  /** The value without the whitespace that stands outside every expression. */
  function Kept(assignment: bool, value: string, cur: Cursor): string
    decreases |value|
  {
    if value == "" then ""
    else if SpaceCut(cur, value[0]) then Kept(assignment, value[1..], START)
    else [value[0]] + Kept(assignment, value[1..],
                           if QuoteCut(assignment, cur, value[0]) then START else Next(cur, value[0]))
  }

  lemma {:induction false} FlatAppend(a: seq<string>, b: seq<string>)
    ensures Flat(a + b) == Flat(a) + Flat(b)
  {
    if a == [] {
      assert a + b == b;
    } else {
      assert (a + b)[1..] == a[1..] + b;
      FlatAppend(a[1..], b);
      assert a[0] + (Flat(a[1..]) + Flat(b)) == a[0] + Flat(a[1..]) + Flat(b);
    }
  }

  lemma FlatOne(item: string)
    ensures Flat([item]) == item && Flat(Flush(item)) == item
  {
    assert [item][1..] == [];
    assert item + "" == item;
  }

  lemma QuoteIsNoSpace(c: char)
    requires IsQuote(c)
    ensures !IsSpace(c)
  {
  }

  lemma CutFlat(assignment: bool, cur: Cursor, c: char, buf: string, rest: seq<string>)
    requires Cuts(assignment, cur, c)
    ensures Flat(Flush(buf) + CutPiece(assignment, cur, c) + rest) ==
            buf + ((if SpaceCut(cur, c) then "" else [c]) + Flat(rest))
  {
    var piece := CutPiece(assignment, cur, c);
    FlatAppend(Flush(buf) + piece, rest);
    FlatAppend(Flush(buf), piece);
    FlatOne(buf);
    FlatOne([c]);
    if IsQuote(c) {
      QuoteIsNoSpace(c);
    }
  }

  lemma {:induction false} OnlySpaceDropped(assignment: bool, value: string, cur: Cursor, buf: string)
    ensures Flat(Split(assignment, value, cur, buf)) == buf + Kept(assignment, value, cur)
    decreases |value|
  {
    if value == "" {
      FlatOne(buf);
      assert buf + "" == buf;
    } else if Cuts(assignment, cur, value[0]) {
      OnlySpaceDropped(assignment, value[1..], START, "");
      assert "" + Kept(assignment, value[1..], START) == Kept(assignment, value[1..], START);
      CutFlat(assignment, cur, value[0], buf, Split(assignment, value[1..], START, ""));
    } else {
      OnlySpaceDropped(assignment, value[1..], Next(cur, value[0]), buf + [value[0]]);
      Regroup(buf, [value[0]], Kept(assignment, value[1..], Next(cur, value[0])));
    }
  }

  // ---- Splitting undoes joining ----------------------------------------------------------

  /** Scanning `item` from `cur` meets nothing to cut at. */
  predicate Whole(item: string, cur: Cursor)
    decreases |item|
  {
    item == "" || (!SpaceCut(cur, item[0]) && Whole(item[1..], Next(cur, item[0])))
  }

  function End(item: string, cur: Cursor): Cursor
    decreases |item|
  {
    if item == "" then cur else End(item[1..], Next(cur, item[0]))
  }

  /** Items a list of values can have: none empty, none to be cut, all but the last closed. */
  predicate GoodItems(items: seq<string>) {
    && (forall k | 0 <= k < |items| :: items[k] != "" && Whole(items[k], START))
    && (forall k | 0 <= k < |items| - 1 :: End(items[k], START).inexpr == 0)
  }

  lemma {:induction false} WholeMore(item: string, cur: Cursor, c: char)
    requires Whole(item, cur) && !SpaceCut(End(item, cur), c)
    ensures Whole(item + [c], cur) && End(item + [c], cur) == Next(End(item, cur), c)
    decreases |item|
  {
    if item == "" {
      assert item + [c] == [c] && [c][1..] == "";
    } else {
      assert (item + [c])[1..] == item[1..] + [c];
      WholeMore(item[1..], Next(cur, item[0]), c);
    }
  }

  lemma {:induction false} ItemsAreGood(value: string, cur: Cursor, buf: string)
    requires Whole(buf, START) && End(buf, START) == cur
    ensures GoodItems(Split(false, value, cur, buf))
    decreases |value|
  {
    if value == "" {
    } else if Cuts(false, cur, value[0]) {
      ItemsAreGood(value[1..], START, "");
      var rest := Split(false, value[1..], START, "");
      assert Flush(buf) + [] + rest == Flush(buf) + rest;
    } else {
      WholeMore(buf, START, value[0]);
      ItemsAreGood(value[1..], Next(cur, value[0]), buf + [value[0]]);
    }
  }

  lemma {:induction false} ScanWhole(item: string, rest: string, cur: Cursor, buf: string)
    requires Whole(item, cur)
    ensures Split(false, item + rest, cur, buf) == Split(false, rest, End(item, cur), buf + item)
    decreases |item|
  {
    if item == "" {
      assert item + rest == rest && buf + item == buf;
    } else {
      assert (item + rest)[1..] == item[1..] + rest;
      ScanWhole(item[1..], rest, Next(cur, item[0]), buf + [item[0]]);
      assert buf + [item[0]] + item[1..] == buf + item;
    }
  }

  /** Joining items with single spaces and splitting again gives the items. */
  lemma {:induction false} SplitUndoesSpaced(items: seq<string>)
    requires GoodItems(items)
    ensures Split(false, Spaced(items), START, "") == items
    decreases |items|
  {
    if items == [] {
    } else if |items| == 1 {
      ScanWhole(items[0], "", START, "");
      assert items[0] + "" == items[0] && "" + items[0] == items[0];
    } else {
      var rest := Spaced(items[1..]);
      SplitUndoesSpaced(items[1..]);
      ScanWhole(items[0], " " + rest, START, "");
      assert items[0] + " " + rest == items[0] + (" " + rest);
      assert "" + items[0] == items[0];
      assert (" " + rest)[1..] == rest;
      assert [items[0]] + [] + items[1..] == items;
    }
  }

  /** For every value whatever, braces balanced or not. */
  lemma SplitAgain(value: string)
    ensures var items := Split(false, value, START, ""); Split(false, Spaced(items), START, "") == items
  {
    ItemsAreGood(value, START, "");
    SplitUndoesSpaced(Split(false, value, START, ""));
  }

  // ---- An assignment ---------------------------------------------------------------------

  /** The cursor after a value: every cut starts afresh. */
  function After(value: string, cur: Cursor): Cursor
    decreases |value|
  {
    if value == "" then cur
    else After(value[1..], if Cuts(true, cur, value[0]) then START else Next(cur, value[0]))
  }

  lemma {:induction false} SplitAtQuote(v: string, q: char, w: string, cur: Cursor, buf: string)
    requires IsQuote(q) && After(v, cur).inexpr == 0
    ensures Split(true, v + [q] + w, cur, buf) == Split(true, v, cur, buf) + [[q]] + Split(true, w, START, "")
    decreases |v|
  {
    var all := v + [q] + w;
    if v == "" {
      assert all[0] == q && all[1..] == w;
    } else {
      assert all[0] == v[0] && all[1..] == v[1..] + [q] + w;
      if Cuts(true, cur, v[0]) {
        SplitAtQuote(v[1..], q, w, START, "");
        RegroupFour(Flush(buf) + CutPiece(true, cur, v[0]), Split(true, v[1..], START, ""), [[q]], Split(true, w, START, ""));
      } else {
        SplitAtQuote(v[1..], q, w, Next(cur, v[0]), buf + [v[0]]);
      }
    }
  }

  lemma {:induction false} CharsOfItems(items: seq<string>, c: char)
    ensures c in Flat(items) <==> exists k | 0 <= k < |items| :: c in items[k]
  {
    if items != [] {
      CharsOfItems(items[1..], c);
      if k :| 0 <= k < |items| && c in items[k] {
        assert k > 0 ==> items[1..][k - 1] == items[k];
      }
      if k :| 0 <= k < |items[1..]| && c in items[1..][k] {
        assert items[k + 1] == items[1..][k];
      }
    }
  }

  lemma {:induction false} KeptChars(value: string, cur: Cursor, c: char)
    ensures c in Kept(true, value, cur) ==> c in value
    ensures c in value && !IsSpace(c) ==> c in Kept(true, value, cur)
    decreases |value|
  {
    if value != "" {
      KeptChars(value[1..], START, c);
      KeptChars(value[1..], Next(cur, value[0]), c);
      assert c in value <==> c == value[0] || c in value[1..];
    }
  }

  lemma {:induction false} QuoteFound(head: seq<string>, q: string, rest: seq<string>, idx: nat, found: bool)
    requires idx <= |head| && HasQuote(q) && forall k | 0 <= k < |head| :: !HasQuote(head[k])
    requires found || exists k | idx <= k < |head| :: '=' in head[k]
    ensures OpeningQuote(head + [q] + rest, idx, found) == Some(|head|)
    decreases |head| - idx
  {
    var out := head + [q] + rest;
    if idx < |head| {
      assert out[idx] == head[idx];
      QuoteFound(head, q, rest, idx + 1, found || '=' in out[idx]);
    } else {
      assert out[idx] == q;
    }
  }

  /** The value of `head "body"`: the head up to and with the opening quote comes first, spaced, then the
      items of the body, then the closing quote. */
  lemma AssignmentIsSplit(head: string, q: char, body: string)
    requires IsQuote(q) && '=' in head && '"' !in head && '\'' !in head
    requires After(head, START).inexpr == 0 && After(body, START).inexpr == 0
    ensures var value := head + [q] + (body + [q]);
            JoinHead(Split(true, value, START, "")) ==
            [Spaced(Split(true, head, START, "") + [[q]])] + Split(true, body, START, "") + [[q]]
  {
    var h, b := Split(true, head, START, ""), Split(true, body, START, "");
    SplitAtQuote(head, q, body + [q], START, "");
    SplitAtQuote(body, q, "", START, "");
    assert body + [q] + "" == body + [q];
    assert b + [[q]] + [] == b + [[q]];
    HeadItems(head);
    QuoteFound(h, [q], b + [[q]], 0, false);
    var out := h + [[q]] + (b + [[q]]);
    assert out[..|h| + 1] == h + [[q]] && out[|h| + 1..] == b + [[q]];
  }

  lemma HeadItems(head: string)
    requires '=' in head && '"' !in head && '\'' !in head
    ensures var h := Split(true, head, START, "");
            (forall k | 0 <= k < |h| :: !HasQuote(h[k])) && exists k | 0 <= k < |h| :: '=' in h[k]
  {
    var h := Split(true, head, START, "");
    OnlySpaceDropped(true, head, START, "");
    assert "" + Kept(true, head, START) == Kept(true, head, START);
    KeptChars(head, START, '=');
    KeptChars(head, START, '"');
    KeptChars(head, START, '\'');
    CharsOfItems(h, '=');
    CharsOfItems(h, '"');
    CharsOfItems(h, '\'');
  }
}
