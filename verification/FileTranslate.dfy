/** package.py, file_translate: a file name made fit for use in a variable name. */
module FileTranslate {
  import opened Wrappers

  /** `text.replace(c, code)` for a text of one character. */
  function Replace(text: string, c: char, code: string): string {
    if text == "" then "" else (if text[0] == c then code else [text[0]]) + Replace(text[1..], c, code)
  }

  /** The six replacements, one after the other. */
  function Translate(file: string): string {
    var t1 := Replace(file, '@', "@at@");
    var t2 := Replace(t1, ' ', "@space@");
    var t3 := Replace(t2, '\t', "@tab@");
    var t4 := Replace(t3, '[', "@openbrace@");
    var t5 := Replace(t4, ']', "@closebrace@");
    Replace(t5, '_', "@underscore@")
  }

  function Code(c: char): string {
    match c
    case '@' => "@at@"
    case ' ' => "@space@"
    case '\t' => "@tab@"
    case '[' => "@openbrace@"
    case ']' => "@closebrace@"
    case '_' => "@underscore@"
    case _ => [c]
  }

  /** Every character escaped by itself, in one pass. */
  function Escape(file: string): string {
    if file == "" then "" else Code(file[0]) + Escape(file[1..])
  }

  const ESCAPED := ['@', ' ', '\t', '[', ']', '_']

  /** The escaped character whose code the text begins with, from entry `k` of the table on. */
  function Match(text: string, k: nat): (r: Option<char>)
    ensures r.Some? ==> r.value in ESCAPED && Code(r.value) <= text
    decreases 6 - k
  {
    if k >= 6 then None
    else if Code(ESCAPED[k]) <= text then Some(ESCAPED[k])
    else Match(text, k + 1)
  }

  lemma CodeLength(c: char)
    ensures |Code(c)| >= 1 && (c in ESCAPED ==> |Code(c)| >= 4) && (c !in ESCAPED ==> Code(c) == [c])
  {
  }

  /** The character a text that is a translation stands for first. */
  function Head(text: string): (r: Option<char>)
    requires text != ""
    ensures r.Some? ==> 0 < |Code(r.value)| && Code(r.value) <= text
  {
    if text[0] == '@' then Match(text, 0) else if text[0] in ESCAPED then None else Some(text[0])
  }

  /** Reading a translated name back; None where no name translates to the text. */
  function Decode(text: string): Option<string>
    decreases |text|
  {
    if text == "" then Some("")
    else
      var c := Head(text);
      if c.None? then None
      else
        var rest := Decode(text[|Code(c.value)|..]);
        if rest.None? then None else Some([c.value] + rest.value)
  }

  // ---- The replacements do not meet ------------------------------------------------------

  lemma {:induction false} ReplaceAppend(a: string, b: string, c: char, code: string)
    ensures Replace(a + b, c, code) == Replace(a, c, code) + Replace(b, c, code)
  {
    if a == "" {
      assert a + b == b;
    } else {
      assert (a + b)[1..] == a[1..] + b;
      ReplaceAppend(a[1..], b, c, code);
      var first := if a[0] == c then code else [a[0]];
      assert first + (Replace(a[1..], c, code) + Replace(b, c, code)) ==
             (first + Replace(a[1..], c, code)) + Replace(b, c, code);
    }
  }

  lemma {:induction false} ReplaceNothing(text: string, c: char, code: string)
    requires c !in text
    ensures Replace(text, c, code) == text
  {
    if text != "" {
      ReplaceNothing(text[1..], c, code);
      assert [text[0]] + text[1..] == text;
    }
  }

  lemma ReplaceOne(d: char, c: char, code: string)
    ensures Replace([d], c, code) == if d == c then code else [d]
  {
    assert [d][1..] == "";
    assert code + "" == code;
    assert [d] + "" == [d];
  }

  lemma TranslateAppend(a: string, b: string)
    ensures Translate(a + b) == Translate(a) + Translate(b)
  {
    ReplaceAppend(a, b, '@', "@at@");
    var a1, b1 := Replace(a, '@', "@at@"), Replace(b, '@', "@at@");
    ReplaceAppend(a1, b1, ' ', "@space@");
    var a2, b2 := Replace(a1, ' ', "@space@"), Replace(b1, ' ', "@space@");
    ReplaceAppend(a2, b2, '\t', "@tab@");
    var a3, b3 := Replace(a2, '\t', "@tab@"), Replace(b2, '\t', "@tab@");
    ReplaceAppend(a3, b3, '[', "@openbrace@");
    var a4, b4 := Replace(a3, '[', "@openbrace@"), Replace(b3, '[', "@openbrace@");
    ReplaceAppend(a4, b4, ']', "@closebrace@");
    ReplaceAppend(Replace(a4, ']', "@closebrace@"), Replace(b4, ']', "@closebrace@"), '_', "@underscore@");
  }

  /** Which of the replacements concerns the character. */
  function Rank(d: char): (k: nat)
    ensures k < 6 ==> ESCAPED[k] == d
    ensures k >= 6 ==> Code(d) == [d]
  {
    match d
    case '@' => 0
    case ' ' => 1
    case '\t' => 2
    case '[' => 3
    case ']' => 4
    case '_' => 5
    case _ => 6
  }

  /** The text a character has become after the first `k` replacements. */
  function Partly(d: char, k: nat): string {
    if Rank(d) < k then Code(d) else [d]
  }

  /** A later replacement leaves what an earlier one wrote alone. */
  lemma CodeKept(d: char, c: char)
    requires c in ESCAPED && c != '@' && c != d
    ensures Replace(Code(d), c, Code(c)) == Code(d)
  {
    assert c !in Code(d);
    ReplaceNothing(Code(d), c, Code(c));
  }

  lemma PartlyStep(d: char, k: nat)
    requires k < 6
    ensures Replace(Partly(d, k), ESCAPED[k], Code(ESCAPED[k])) == Partly(d, k + 1)
  {
    if Rank(d) < k {
      CodeKept(d, ESCAPED[k]);
    } else {
      ReplaceOne(d, ESCAPED[k], Code(ESCAPED[k]));
    }
  }

  lemma TranslateOne(d: char)
    ensures Translate([d]) == Code(d)
  {
    FirstThree(d);
    LastThree(d);
  }

  lemma FirstThree(d: char)
    ensures Replace(Replace(Replace([d], '@', "@at@"), ' ', "@space@"), '\t', "@tab@") == Partly(d, 3)
  {
    PartlyStep(d, 0);
    assert Code('@') == "@at@";
    PartlyStep(d, 1);
    assert Code(' ') == "@space@";
    PartlyStep(d, 2);
    assert Code('\t') == "@tab@";
  }

  lemma LastThree(d: char)
    ensures Replace(Replace(Replace(Partly(d, 3), '[', "@openbrace@"), ']', "@closebrace@"), '_', "@underscore@")
            == Code(d)
  {
    PartlyStep(d, 3);
    assert Code('[') == "@openbrace@";
    PartlyStep(d, 4);
    assert Code(']') == "@closebrace@";
    PartlyStep(d, 5);
    assert Code('_') == "@underscore@";
  }

  /** Six global replacements in a row are one escape of every character. */
  lemma {:induction false} TranslateIsEscape(file: string)
    ensures Translate(file) == Escape(file)
  {
    if file != "" {
      assert file == [file[0]] + file[1..];
      TranslateAppend([file[0]], file[1..]);
      TranslateOne(file[0]);
      TranslateIsEscape(file[1..]);
    }
  }

  // ---- Reading back ----------------------------------------------------------------------

  /** No code begins another: the second characters and lengths tell them apart. */
  lemma CodesApart(c: char, d: char, rest: string)
    requires c in ESCAPED && d in ESCAPED && Code(c) <= Code(d) + rest
    ensures c == d
  {
    var text := Code(d) + rest;
    assert text[1] == Code(d)[1] && text[1] == Code(c)[1];
    assert text[2] == Code(d)[2] && text[2] == Code(c)[2];
  }

  lemma {:induction false} MatchCode(c: char, rest: string, k: nat)
    requires c in ESCAPED && k < 6 && c in ESCAPED[k..]
    ensures Match(Code(c) + rest, k) == Some(c)
    decreases 6 - k
  {
    var text := Code(c) + rest;
    if Code(ESCAPED[k]) <= text {
      CodesApart(ESCAPED[k], c, rest);
    } else {
      assert Code(c) <= text;
      assert ESCAPED[k..][1..] == ESCAPED[k + 1..];
      MatchCode(c, rest, k + 1);
    }
  }

  lemma HeadOfCode(c: char, rest: string)
    ensures Head(Code(c) + rest) == Some(c)
  {
    CodeLength(c);
    if c in ESCAPED {
      assert ESCAPED[0..] == ESCAPED;
      MatchCode(c, rest, 0);
    }
  }

  lemma DecodeOne(c: char, rest: string)
    ensures Decode(Code(c) + rest) == if Decode(rest).None? then None else Some([c] + Decode(rest).value)
  {
    CodeLength(c);
    HeadOfCode(c, rest);
    assert (Code(c) + rest)[|Code(c)|..] == rest;
  }

  lemma {:induction false} DecodeEscape(file: string)
    ensures Decode(Escape(file)) == Some(file)
  {
    if file != "" {
      DecodeEscape(file[1..]);
      DecodeOne(file[0], Escape(file[1..]));
      assert [file[0]] + file[1..] == file;
    }
  }

  lemma {:induction false} EscapeDecode(text: string)
    ensures Decode(text).Some? ==> Escape(Decode(text).value) == text
    decreases |text|
  {
    if text != "" && Head(text).Some? {
      var c := Head(text).value;
      var tail := text[|Code(c)|..];
      EscapeDecode(tail);
      if Decode(tail).Some? {
        assert ([c] + Decode(tail).value)[1..] == Decode(tail).value;
        assert Code(c) + tail == text;
      }
    }
  }

  /** Every name comes back from its translation, and `Decode` answers for translations only. */
  lemma TranslationReadsBack(file: string, text: string)
    ensures Decode(text) == Some(file) <==> text == Translate(file)
  {
    TranslateIsEscape(file);
    DecodeEscape(file);
    EscapeDecode(text);
  }

  /** No two names have one translation. */
  lemma TranslationInjective(f: string, g: string)
    requires Translate(f) == Translate(g)
    ensures f == g
  {
    TranslationReadsBack(f, Translate(f));
    TranslationReadsBack(g, Translate(f));
  }
}
