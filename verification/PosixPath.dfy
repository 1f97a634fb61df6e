/** Absolute POSIX paths as component lists, with the `os.path` text operations the
    resolvers rely on. */
module PosixPath {
  import opened Wrappers

  /** One piece of a path text cut at every '/'. */
  type Part = s: string | '/' !in s witness ""

  /** A component that can stand in an absolute path the resolvers build: "." is
      possible (a link to "." puts it there), "" and ".." are not. */
  type Name = s: string | s != "" && s != ".." && '/' !in s witness "a"

  /** The path text "/a/b", or "/a/b/" when `slash` is set; "/" is `Path([], true)`. */
  datatype Path_ = Path(comps: seq<Name>, slash: bool)

  type Path = p: Path_ | p.comps == [] ==> p.slash witness Path([], true)

  /** A path text as given by a caller or stored in a link, cut at every '/'. */
  datatype Raw = Raw(abs: bool, parts: seq<Part>)

  function CompsText(comps: seq<Name>): string {
    if comps == [] then "" else "/" + comps[0] + CompsText(comps[1..])
  }

  function Text(p: Path): string {
    CompsText(p.comps) + if p.slash then "/" else ""
  }

  predicate StartsWith(s: string, prefix: string) {
    prefix <= s
  }

  /** `os.path.join` with one further part; an empty part only adds the slash. */
  function Join(p: Path, d: Part): Path
    requires d != ".."
  {
    if d == "" then Path(p.comps, true) else Path(p.comps + [d], false)
  }

  /** `os.path.dirname`. */
  function Dirname(p: Path): Path {
    if p.comps == [] then p
    else if p.slash then Path(p.comps, false)
    else Path(p.comps[..|p.comps| - 1], |p.comps| == 1)
  }

  /** The component stack of `os.path.normpath` after one more part. */
  function NormPush(abs: bool, stack: seq<Part>, part: Part): seq<Part> {
    if part == "" || part == "." then stack
    else if part != ".." || (!abs && stack == []) || (stack != [] && stack[|stack| - 1] == "..") then stack + [part]
    else if stack != [] then stack[..|stack| - 1]
    else stack
  }

  /** The components left by `os.path.normpath`. */
  function Normpath(r: Raw): (stack: seq<Part>)
    ensures "" !in stack && "." !in stack
    ensures r.abs ==> ".." !in stack
    decreases |r.parts|
  {
    if r.parts == [] then []
    else NormPush(r.abs, Normpath(r.(parts := r.parts[..|r.parts| - 1])), r.parts[|r.parts| - 1])
  }

  function NormalForm(r: Raw): Raw {
    Raw(r.abs, Normpath(r))
  }

  /** ".." only survives in front of a relative path. */
  ghost predicate LeadingDots(stack: seq<Part>) {
    forall i, j | 0 <= i < j < |stack| :: stack[j] == ".." ==> stack[i] == ".."
  }

  lemma {:induction false} NormpathLeads(r: Raw)
    ensures LeadingDots(Normpath(r))
    decreases |r.parts|
  {
    if r.parts != [] {
      NormpathLeads(r.(parts := r.parts[..|r.parts| - 1]));
    }
  }

  lemma {:induction false} NormpathKeeps(abs: bool, stack: seq<Part>)
    requires "" !in stack && "." !in stack && LeadingDots(stack) && (abs ==> ".." !in stack)
    ensures Normpath(Raw(abs, stack)) == stack
    decreases |stack|
  {
    if stack != [] {
      var init := stack[..|stack| - 1];
      NormpathKeeps(abs, init);
      assert Raw(abs, stack).(parts := stack[..|stack| - 1]) == Raw(abs, init);
      assert stack == init + [stack[|stack| - 1]];
    }
  }

  /** Normalising twice is normalising once. */
  lemma NormpathIdempotent(r: Raw)
    ensures NormalForm(NormalForm(r)) == NormalForm(r)
  {
    NormpathLeads(r);
    NormpathKeeps(r.abs, Normpath(r));
  }

  lemma NormpathLast(abs: bool, parts: seq<Part>, part: Part)
    ensures Normpath(Raw(abs, parts + [part])) == NormPush(abs, Normpath(Raw(abs, parts)), part)
  {
    var r := Raw(abs, parts + [part]);
    assert r.(parts := r.parts[..|r.parts| - 1]) == Raw(abs, parts);
  }

  /** What follows sees only the normal form of what stands before it. */
  lemma {:induction false} NormpathGoesOn(abs: bool, a: seq<Part>, b: seq<Part>, rest: seq<Part>)
    requires Normpath(Raw(abs, a)) == Normpath(Raw(abs, b))
    ensures Normpath(Raw(abs, a + rest)) == Normpath(Raw(abs, b + rest))
  {
    if rest == [] {
      assert a + rest == a && b + rest == b;
    } else {
      var init, last := rest[..|rest| - 1], rest[|rest| - 1];
      assert rest == init + [last];
      NormpathGoesOn(abs, a, b, init);
      NormpathStep(abs, a, init, last);
      NormpathStep(abs, b, init, last);
    }
  }

  lemma NormpathStep(abs: bool, a: seq<Part>, init: seq<Part>, last: Part)
    ensures Normpath(Raw(abs, a + (init + [last]))) == NormPush(abs, Normpath(Raw(abs, a + init)), last)
  {
    Regroup(a, init, [last]);
    NormpathLast(abs, a + init, last);
  }

  /** Rules of a normal form: "" and "." count for nothing, ... */
  lemma EmptyPartsDrop(abs: bool, a: seq<Part>, part: Part, rest: seq<Part>)
    requires part == "" || part == "."
    ensures Normpath(Raw(abs, a + [part] + rest)) == Normpath(Raw(abs, a + rest))
  {
    NormpathLast(abs, a, part);
    NormpathGoesOn(abs, a + [part], a, rest);
  }

  /** ... a name goes with the ".." behind it, ... */
  lemma NameGoesUp(abs: bool, a: seq<Part>, name: Part, up: Part, rest: seq<Part>)
    requires name != "" && name != "." && name != ".." && up == ".."
    ensures Normpath(Raw(abs, a + [name] + [up] + rest)) == Normpath(Raw(abs, a + rest))
  {
    NormpathLast(abs, a, name);
    NormpathLast(abs, a + [name], up);
    NormpathGoesOn(abs, a + [name] + [up], a, rest);
  }

  /** ... and above "/" there is nothing. With `NormpathKeeps` these leave one normal form for each path. */
  lemma RootIsTop(up: Part, rest: seq<Part>)
    requires up == ".."
    ensures Normpath(Raw(true, [up] + rest)) == Normpath(Raw(true, rest))
  {
    NormpathLast(true, [], up);
    assert [] + [up] == [up] && [] + rest == rest;
    NormpathGoesOn(true, [up], [], rest);
  }

  /** The normalised form of an absolute path text. */
  function Absolute(r: Raw): (p: Path)
    requires r.abs
    ensures "." !in p.comps
    ensures p.slash <==> p.comps == []
  {
    var stack := Normpath(r);
    var comps: seq<Name> := stack;
    Path(comps, comps == [])
  }

  /** The parts of a path that is already a list of names, as a caller would pass it. */
  function AsRaw(p: Path): Raw {
    Raw(true, p.comps + if p.slash then [""] else [])
  }

  /** Components without ".", which is what `normpath` makes of a path built by the resolvers. */
  function DropDots(comps: seq<Name>): (r: seq<Name>)
    ensures "." !in r
    ensures |r| <= |comps|
  {
    if comps == [] then []
    else
      var init := DropDots(comps[..|comps| - 1]);
      if comps[|comps| - 1] == "." then init else init + [comps[|comps| - 1]]
  }

  lemma {:induction false} DropDotsId(comps: seq<Name>)
    requires "." !in comps
    ensures DropDots(comps) == comps
  {
    if comps != [] {
      DropDotsId(comps[..|comps| - 1]);
      assert comps == comps[..|comps| - 1] + [comps[|comps| - 1]];
    }
  }

  /** Normalising the text of a path the resolvers built drops its "." components. */
  lemma {:induction false} NormalOfComps(comps: seq<Name>)
    ensures Normpath(Raw(true, comps)) == DropDots(comps)
  {
    if comps != [] {
      var init := comps[..|comps| - 1];
      NormalOfComps(init);
      assert Raw(true, comps).(parts := Raw(true, comps).parts[..|comps| - 1]) == Raw(true, init);
    }
  }

  /** ... and its trailing slash. */
  lemma NormalOfBuilt(p: Path)
    ensures Normpath(AsRaw(p)) == DropDots(p.comps)
  {
    NormalOfComps(p.comps);
    var r := AsRaw(p);
    if p.slash {
      assert r.(parts := r.parts[..|r.parts| - 1]) == Raw(true, p.comps);
    } else {
      assert r == Raw(true, p.comps);
    }
  }

  lemma {:induction false} CompsTextAppend(a: seq<Name>, b: seq<Name>)
    ensures CompsText(a + b) == CompsText(a) + CompsText(b)
  {
    if a == [] {
      assert a + b == b;
    } else {
      assert (a + b)[1..] == a[1..] + b;
      CompsTextAppend(a[1..], b);
    }
  }

  /** Two '/'-free names followed by '/' agree as soon as one text is a prefix of the other. */
  lemma FirstName(a: Name, b: Name, s: string, t: string)
    requires s != "" && s[0] == '/' && t != "" && t[0] == '/'
    requires a + s <= b + t
    ensures a == b && s <= t
  {
    var n := |a|;
    assert (b + t)[n] == (a + s)[n] == '/';
    assert forall i | 0 <= i < |b| :: (b + t)[i] != '/';
    assert |b| <= n && (a + s)[|b|] == (b + t)[|b|] == '/';
    assert forall i | 0 <= i < |a| :: (a + s)[i] != '/';
    assert a == (a + s)[..n] == (b + t)[..n] == b;
    assert s == (a + s)[n..] && t == (b + t)[n..];
  }

  /** A text that starts with the text of `root` has the components of `root` in front. */
  lemma {:induction false} PrefixOfText(r: seq<Name>, f: seq<Name>, tail: string)
    requires tail == "/" || tail == "//"
    requires CompsText(r) + "/" <= CompsText(f) + tail
    ensures r <= f
  {
    if r != [] {
      var s := CompsText(r[1..]) + "/";
      assert CompsText(r) + "/" == "/" + r[0] + s;
      assert (CompsText(r) + "/")[1] == r[0][0] != '/';
      assert f != [];
      var t := CompsText(f[1..]) + tail;
      assert CompsText(f) + tail == "/" + f[0] + t;
      assert ("/" + (r[0] + s))[1..] == r[0] + s && ("/" + (f[0] + t))[1..] == f[0] + t;
      assert "/" + r[0] + s == "/" + (r[0] + s) && "/" + f[0] + t == "/" + (f[0] + t);
      FirstName(r[0], f[0], s, t);
      PrefixOfText(r[1..], f[1..], tail);
      assert r == [r[0]] + r[1..] && f == [f[0]] + f[1..];
    }
  }
}
