/** What the debug packages take beside their FILES, told by the texts of the paths. */
module PackageDebug {
  import opened Wrappers
  import opened PackageFiles
  import opened Packages
  import opened PackagesLeftover
  import opened PackageOrder

  /** The components, each behind its slash. */
  function Slashed(x: seq<string>): string {
    if x == [] then "" else "/" + x[0] + Slashed(x[1..])
  }

  /** The path as the walk spells it. */
  function PathText(x: seq<string>): string {
    "." + Slashed(x)
  }

  /** `part in text`. */
  predicate StandsAt(part: string, text: string, i: nat) {
    i + |part| <= |text| && text[i..i + |part|] == part
  }

  predicate Occurs(part: string, text: string) {
    exists i: nat | i <= |text| :: StandsAt(part, text, i)
  }

  predicate NoSlash(x: seq<string>) {
    forall i | 0 <= i < |x| :: '/' !in x[i]
  }

  /** A text that begins with a slash and a name, and goes on with a slash or ends. */
  lemma FirstName(a: string, rest: string, name: string)
    requires '/' !in a && '/' !in name && (rest != "" ==> rest[0] == '/')
    ensures StandsAt("/" + name + "/", "/" + a + rest, 0) <==> a == name && rest != ""
  {
    var text, part := "/" + a + rest, "/" + name + "/";
    assert forall k | 0 <= k < |a| :: text[1 + k] == a[k];
    if StandsAt(part, text, 0) {
      assert forall k | 0 <= k < |part| :: text[..|part|][k] == text[k];
      assert part[1 + |name|] == '/' && text[1 + |name|] == '/';
      assert forall k | 0 <= k < |name| :: part[1 + k] == name[k];
      assert text[1 + |a|] == rest[0];
      assert |a| == |name|;
      assert forall k | 0 <= k < |a| :: a[k] == part[1 + k] == name[k];
    }
  }

  /** Anything with a slash in front stands at the beginning or behind the first name. */
  lemma BehindFirst(a: string, rest: string, part: string, i: nat)
    requires '/' !in a && part != "" && part[0] == '/' && i > 0 && StandsAt(part, "/" + a + rest, i)
    ensures i >= 1 + |a| && StandsAt(part, rest, i - 1 - |a|)
  {
    var text := "/" + a + rest;
    assert text[i] == part[0];
    assert forall k | 0 <= k < |a| :: text[1 + k] == a[k];
    assert rest == text[1 + |a|..];
    assert rest[i - 1 - |a|..][..|part|] == text[i..i + |part|];
  }

  lemma InRest(a: string, rest: string, part: string, i: nat)
    requires StandsAt(part, rest, i)
    ensures StandsAt(part, "/" + a + rest, i + 1 + |a|)
  {
    var text := "/" + a + rest;
    assert rest == text[1 + |a|..];
    assert text[i + 1 + |a|..i + 1 + |a| + |part|] == rest[i..i + |part|];
  }

  lemma OccursStep(a: string, rest: string, name: string)
    requires '/' !in a && '/' !in name && (rest != "" ==> rest[0] == '/')
    ensures Occurs("/" + name + "/", "/" + a + rest) <==> (a == name && rest != "") || Occurs("/" + name + "/", rest)
  {
    var part, text := "/" + name + "/", "/" + a + rest;
    FirstName(a, rest, name);
    if i: nat :| i <= |text| && StandsAt(part, text, i) {
      if i > 0 {
        BehindFirst(a, rest, part, i);
      }
    }
    if i: nat :| i <= |rest| && StandsAt(part, rest, i) {
      InRest(a, rest, part, i);
    }
  }

  /** A name between slashes is a component that is not the last. */
  lemma {:induction false} Between(x: seq<string>, name: string)
    requires NoSlash(x) && '/' !in name
    ensures Occurs("/" + name + "/", Slashed(x)) <==> exists i | 0 <= i < |x| - 1 :: x[i] == name
  {
    if x != [] {
      var tail := x[1..];
      Between(tail, name);
      OccursStep(x[0], Slashed(tail), name);
      if i :| 0 <= i < |x| - 1 && x[i] == name && i > 0 {
        assert tail[i - 1] == name;
      }
      if i :| 0 <= i < |tail| - 1 && tail[i] == name {
        assert x[i + 1] == name;
      }
      if |x| > 1 {
        assert tail != [];
      }
    }
  }

  lemma LastName(a: string, name: string)
    requires '/' !in a && '/' !in name
    ensures EndsWith("/" + a, "/" + name) <==> a == name
  {
    var text, part := "/" + a, "/" + name;
    if EndsWith(text, part) {
      var n := |text| - |part|;
      assert text[n] == text[n..][0] == '/';
      assert n == 0;
      assert text == part;
      assert text[1..] == a && part[1..] == name;
    }
  }

  lemma EndStep(a: string, rest: string, part: string)
    requires rest != "" && rest[0] == '/' && part != "" && part[0] == '/' && '/' !in part[1..]
    ensures EndsWith("/" + a + rest, part) <==> EndsWith(rest, part)
  {
    var front := "/" + a;
    if |part| <= |rest| {
      EndOfBoth(front, rest, part);
    } else {
      var text, k := front + rest, |part| - |rest|;
      assert text[|front|] == rest[0] && part[k] == part[1..][k - 1];
      assert |part| <= |text| ==> text[|text| - |part|..][k] == text[|front|];
    }
  }

  lemma EndOfBoth(front: string, rest: string, part: string)
    requires |part| <= |rest|
    ensures EndsWith(front + rest, part) <==> EndsWith(rest, part)
  {
    var text := front + rest;
    assert text[|front|..] == rest;
    assert text[|text| - |part|..] == text[|front|..][|rest| - |part|..];
  }

  lemma {:induction false} AtTheEnd(x: seq<string>, name: string)
    requires NoSlash(x) && '/' !in name
    ensures EndsWith(Slashed(x), "/" + name) <==> x != [] && x[|x| - 1] == name
  {
    if |x| == 1 {
      assert Slashed(x) == "/" + x[0] + Slashed([]) == "/" + x[0];
      LastName(x[0], name);
    } else if x != [] {
      AtTheEnd(x[1..], name);
      assert ("/" + name)[1..] == name;
      EndStep(x[0], Slashed(x[1..]), "/" + name);
    }
  }

  /** The dot in front changes nothing, since the parts looked for begin with a slash. */
  lemma DotBefore(text: string, part: string)
    requires part != "" && part[0] == '/'
    ensures Occurs(part, "." + text) <==> Occurs(part, text)
  {
    var all := "." + text;
    assert all[0] == '.' && all[1..] == text;
    if i: nat :| i <= |all| && StandsAt(part, all, i) {
      assert all[i] == part[0];
      assert text[i - 1..i - 1 + |part|] == all[i..i + |part|];
      assert StandsAt(part, text, i - 1);
    }
    if i: nat :| i <= |text| && StandsAt(part, text, i) {
      assert all[i + 1..i + 1 + |part|] == text[i..i + |part|];
      assert StandsAt(part, all, i + 1);
    }
  }

  lemma DotBeforeEnd(text: string, part: string)
    requires part != "" && part[0] == '/'
    ensures EndsWith("." + text, part) <==> EndsWith(text, part)
  {
    var all := "." + text;
    assert all[0] == '.' && all[1..] == text;
    if |part| <= |text| {
      assert all[|all| - |part|..] == all[1..][|text| - |part|..];
    } else if |part| == |all| {
      assert all[0..] == all;
    }
  }

  /** "/.debug/" or "/.debug-static/" in the path, or "/.debug" at its end. */
  predicate DebugText(text: string) {
    Occurs("/.debug/", text) || Occurs("/.debug-static/", text) || EndsWith(text, "/.debug")
  }

  lemma DebugTextIff(x: seq<string>)
    requires NoSlash(x)
    ensures IsDebug(x) <==> DebugText(PathText(x))
  {
    assert "/" + ".debug" + "/" == "/.debug/" && "/" + ".debug" == "/.debug";
    assert "/" + ".debug-static" + "/" == "/.debug-static/";
    NameInText(x, ".debug");
    NameInText(x, ".debug-static");
  }

  predicate Above(x: seq<string>, name: string) {
    exists i | 0 <= i < |x| - 1 :: x[i] == name
  }

  lemma NameInText(x: seq<string>, name: string)
    requires NoSlash(x) && '/' !in name
    ensures Occurs("/" + name + "/", PathText(x)) <==> Above(x, name)
    ensures EndsWith(PathText(x), "/" + name) <==> x != [] && x[|x| - 1] == name
  {
    Between(x, name);
    AtTheEnd(x, name);
    DotBefore(Slashed(x), "/" + name + "/");
    DotBeforeEnd(Slashed(x), "/" + name);
  }

  lemma {:induction false} DebugTextsMembers(entries: seq<seq<string>>, f: Raw)
    ensures f in DebugTexts(entries) <==> exists i | 0 <= i < |entries| :: IsDebug(entries[i]) && f == Dotted(entries[i])
  {
    if entries != [] {
      DebugTextsMembers(entries[1..], f);
      if i :| 0 <= i < |entries| && IsDebug(entries[i]) && f == Dotted(entries[i]) && i > 0 {
        assert entries[1..][i - 1] == entries[i];
      }
      if i :| 0 <= i < |entries[1..]| && IsDebug(entries[1..][i]) && f == Dotted(entries[1..][i]) {
        assert entries[i + 1] == entries[1..][i];
      }
    }
  }

  /** The list of a package has what its FILES expand to; that of a debug package has, where these are split off, all
      of the tree whose path is one of debug files, too. */
  lemma ListMeaning(tree: Node, pkg: string, asked: seq<Raw>, autodebug: bool, f: Raw)
    requires WellFormed(tree) && forall x | Lookup(tree, x).Some? :: NoSlash(x)
    ensures f in ListOf(tree, pkg, asked, autodebug) <==>
            || f in Expand(tree, asked)
            || (autodebug && IsDebugPackage(pkg) && exists x :: x != [] && Lookup(tree, x).Some? && f == Dotted(x) && DebugText(PathText(x)))
  {
    var entries := Entries(tree, []);
    EndsWithIff(pkg);
    DebugTextsMembers(entries, f);
    if i :| 0 <= i < |entries| && IsDebug(entries[i]) && f == Dotted(entries[i]) {
      EntriesMeaning(tree, entries[i]);
      DebugTextIff(entries[i]);
    }
    if x :| x != [] && Lookup(tree, x).Some? && f == Dotted(x) && DebugText(PathText(x)) {
      EntriesMeaning(tree, x);
      DebugTextIff(x);
      var i :| 0 <= i < |entries| && entries[i] == x;
    }
  }
}
