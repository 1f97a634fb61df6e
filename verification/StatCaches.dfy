/** The three caches of `CachedPath` as a value: what each call does to them, and what they answer
    over a whole run in which the file system changes. */
module StatCaches {
  import opened Wrappers
  import opened PosixPath
  import opened RealPath

  /** The three dictionaries; `None` in them is the `False` that a failed stat call leaves behind. */
  datatype Caches = Caches(stat: map<Raw, Option<StatInfo>>, lstat: map<Raw, Option<StatInfo>>, norm: map<Raw, Raw>)

  function OsLstat(fs: Tree, p: Raw): Option<StatInfo> {
    var m := if p.abs then fs.lstat else fs.cwdLstat;
    if p.parts in m then Some(m[p.parts]) else None
  }

  function OsStat(fs: Tree, p: Raw): Option<StatInfo> {
    var m := if p.abs then fs.stat else fs.cwdStat;
    if p.parts in m then Some(m[p.parts]) else None
  }

  predicate IsSymlink(st: Option<StatInfo>) {
    st.Some? && st.value.kind == Symlink
  }

  /** Kernel law: following a path that is not a link changes nothing. */
  ghost predicate StatLaw(fs: Tree) {
    forall p: Raw :: OsStat(fs, p) == OsLstat(fs, p) || (OsLstat(fs, p).Some? && OsLstat(fs, p).value.kind == Symlink)
  }

  function NormOf(c: Caches, p: Raw): Raw {
    if p in c.norm then c.norm[p] else NormalForm(p)
  }

  function AfterNorm(c: Caches, p: Raw): Caches {
    if p in c.norm then c else c.(norm := c.norm[p := NormalForm(p)])
  }

  function AfterLstat(c: Caches, fs: Tree, p: Raw): Caches {
    var q, c1 := NormOf(c, p), AfterNorm(c, p);
    if q in c1.lstat then c1
    else
      var lst := OsLstat(fs, q);
      c1.(lstat := c1.lstat[q := lst],
          stat := if !IsSymlink(lst) then c1.stat[q := lst]
                  else if q in c1.stat then c1.stat
                  else c1.stat[q := OsStat(fs, q)])
  }

  function AfterStat(c: Caches, fs: Tree, p: Raw): Caches {
    AfterLstat(AfterNorm(c, p), fs, NormOf(c, p))
  }

  function AfterUpdate(c: Caches, p: Raw): Caches {
    var q, c1 := NormOf(c, p), AfterNorm(c, p);
    c1.(stat := c1.stat - {q}, lstat := c1.lstat - {q})
  }

  ghost predicate NormCorrect(c: Caches) {
    forall p | p in c.norm :: c.norm[p] == NormalForm(p)
  }

  ghost predicate EntryCorrect(c: Caches, fs: Tree, q: Raw)
    requires q in c.lstat && q in c.stat
  {
    c.lstat[q] == OsLstat(fs, q) && c.stat[q] == OsStat(fs, q)
  }

  /** The caches answer for `fs`, and a path cached by lstat is cached by stat, and the reverse. */
  ghost predicate Coherent(c: Caches, fs: Tree) {
    && NormCorrect(c)
    && c.lstat.Keys == c.stat.Keys
    && (forall q | q in c.lstat && q in c.stat :: EntryCorrect(c, fs, q))
  }

  /** The same, except for what is cached about one path. */
  ghost predicate CoherentExcept(c: Caches, fs: Tree, x: Raw) {
    && NormCorrect(c)
    && c.lstat.Keys == c.stat.Keys
    && (forall q | q in c.lstat && q in c.stat && q != x :: EntryCorrect(c, fs, q))
  }

  /** A change of the file system that shows at one path only. */
  ghost predicate ChangedAt(fs: Tree, fs': Tree, x: Raw) {
    forall q: Raw | q != x :: OsLstat(fs', q) == OsLstat(fs, q) && OsStat(fs', q) == OsStat(fs, q)
  }

  lemma NormCoherent(c: Caches, fs: Tree, p: Raw)
    requires Coherent(c, fs)
    ensures Coherent(AfterNorm(c, p), fs) && NormOf(c, p) == NormalForm(p)
  {
    forall q | q in c.lstat && q in c.stat
      ensures EntryCorrect(AfterNorm(c, p), fs, q)
    {
      assert EntryCorrect(c, fs, q);
    }
  }

  /** Storing the right answers for one path keeps the caches right. */
  lemma StoreCoherent(c: Caches, fs: Tree, q: Raw)
    requires Coherent(c, fs)
    ensures Coherent(c.(lstat := c.lstat[q := OsLstat(fs, q)], stat := c.stat[q := OsStat(fs, q)]), fs)
  {
    var c' := c.(lstat := c.lstat[q := OsLstat(fs, q)], stat := c.stat[q := OsStat(fs, q)]);
    assert c'.lstat.Keys == c.lstat.Keys + {q} && c'.stat.Keys == c.stat.Keys + {q};
    forall r | r in c'.lstat && r in c'.stat
      ensures EntryCorrect(c', fs, r)
    {
      if r != q {
        assert EntryCorrect(c, fs, r);
      }
    }
  }

  lemma LstatCoherent(c: Caches, fs: Tree, p: Raw)
    requires Coherent(c, fs) && StatLaw(fs)
    ensures var c', q := AfterLstat(c, fs, p), NormalForm(p);
            && Coherent(c', fs) && q in c'.lstat && q in c'.stat
            && c'.lstat[q] == OsLstat(fs, q) && c'.stat[q] == OsStat(fs, q)
  {
    var q, c1 := NormalForm(p), AfterNorm(c, p);
    NormCoherent(c, fs, p);
    if q in c1.lstat {
      assert EntryCorrect(c1, fs, q);
    } else {
      assert q !in c1.stat.Keys;
      StoreCoherent(c1, fs, q);
    }
  }

  lemma StatCoherent(c: Caches, fs: Tree, p: Raw)
    requires Coherent(c, fs) && StatLaw(fs)
    ensures var c', q := AfterStat(c, fs, p), NormalForm(p);
            && Coherent(c', fs) && q in c'.lstat && q in c'.stat
            && c'.lstat[q] == OsLstat(fs, q) && c'.stat[q] == OsStat(fs, q)
  {
    NormpathIdempotent(p);
    NormCoherent(c, fs, p);
    LstatCoherent(AfterNorm(c, p), fs, NormOf(c, p));
  }

  /** One change at the path that is then passed to `updatecache` leaves the caches right. */
  lemma UpdateCoherent(c: Caches, fs: Tree, p: Raw)
    requires CoherentExcept(c, fs, NormalForm(p))
    ensures Coherent(AfterUpdate(c, p), fs)
  {
    var c' := AfterUpdate(c, p);
    assert c'.lstat.Keys == c'.stat.Keys;
    forall q | q in c'.lstat && q in c'.stat
      ensures EntryCorrect(c', fs, q)
    {
      assert EntryCorrect(c, fs, q);
    }
  }

  lemma ChangeKeepsOthers(c: Caches, fs: Tree, fs': Tree, x: Raw)
    requires Coherent(c, fs) && ChangedAt(fs, fs', x)
    ensures CoherentExcept(c, fs', x)
  {
    forall q | q in c.lstat && q in c.stat && q != x
      ensures EntryCorrect(c, fs', q)
    {
      assert EntryCorrect(c, fs, q);
    }
  }

  /** Asked once, a path is answered from the caches, whatever the file system has become meanwhile: neither query
      stores anything new about any path. */
  lemma AskedOnce(c: Caches, fs: Tree, later: Tree, p: Raw)
    requires Coherent(c, fs) && StatLaw(fs)
    ensures var c1 := AfterLstat(c, fs, p);
            var c2 := AfterStat(c1, later, p);
            p in c1.norm && AfterLstat(c1, later, p) == c1 && c2.stat == c1.stat && c2.lstat == c1.lstat
  {
    LstatCoherent(c, fs, p);
    NormpathIdempotent(p);
    NormCoherent(c, fs, p);
    var c1 := AfterLstat(c, fs, p);
    NormCoherent(c1, fs, p);
    NormCoherent(c1, fs, NormalForm(p));
    assert NormOf(c1, p) == NormalForm(p) && NormalForm(p) in c1.lstat;
  }

  /** `updatecache` forgets one path and nothing else, so that it is asked about again. */
  lemma UpdateForgetsOne(c: Caches, p: Raw)
    requires NormCorrect(c)
    ensures var c', q := AfterUpdate(c, p), NormalForm(p);
            && c'.stat.Keys == c.stat.Keys - {q} && c'.lstat.Keys == c.lstat.Keys - {q}
            && (forall r | r in c'.stat :: c'.stat[r] == c.stat[r]) && (forall r | r in c'.lstat :: c'.lstat[r] == c.lstat[r])
            && c'.norm.Keys == c.norm.Keys + {p} && NormCorrect(c')
  {
  }

  /** What can happen to a `CachedPath`: a stat, an lstat, or a change announced with `updatecache`. */
  datatype Event = Stat(path: Raw) | Lstat(path: Raw) | Change(after: Tree, path: Raw)

  function TreeAfter(fs: Tree, e: Event): Tree {
    if e.Change? then e.after else fs
  }

  function CachesAfter(c: Caches, fs: Tree, e: Event): Caches {
    match e
    case Stat(p) => AfterStat(c, fs, p)
    case Lstat(p) => AfterLstat(c, fs, p)
    case Change(_, p) => AfterUpdate(c, p)
  }

  /** The answer the caches hold after a query, `None` also for what is not there. */
  function Answer(c: Caches, e: Event): Option<Option<StatInfo>>
    requires !e.Change?
  {
    var q := NormalForm(e.path);
    var m := if e.Stat? then c.stat else c.lstat;
    if q in m then Some(m[q]) else None
  }

  ghost predicate FairRun(fs: Tree, run: seq<Event>)
    decreases |run|
  {
    run != [] ==>
      && (run[0].Change? ==> ChangedAt(fs, run[0].after, NormalForm(run[0].path)) && StatLaw(run[0].after))
      && FairRun(TreeAfter(fs, run[0]), run[1..])
  }

  /** Every query of the run is answered, as the operating system answers at that moment for the
      normalised path. */
  ghost predicate AllAnswersRight(c: Caches, fs: Tree, run: seq<Event>)
    decreases |run|
  {
    run != [] ==>
      var c' := CachesAfter(c, fs, run[0]);
      && (!run[0].Change? ==>
            Answer(c', run[0]) == Some(if run[0].Stat? then OsStat(fs, NormalForm(run[0].path))
                                       else OsLstat(fs, NormalForm(run[0].path))))
      && AllAnswersRight(c', TreeAfter(fs, run[0]), run[1..])
  }

  /** Whole runs: queries in any order, mixed with changes that each show at one path and are followed
      by `updatecache` of that path, get the answers of the file system as it then is. */
  lemma {:induction false} RunsAnswerRight(c: Caches, fs: Tree, run: seq<Event>)
    requires Coherent(c, fs) && StatLaw(fs) && FairRun(fs, run)
    ensures AllAnswersRight(c, fs, run)
    decreases |run|
  {
    if run != [] {
      var e := run[0];
      match e {
        case Stat(p) => StatCoherent(c, fs, p);
        case Lstat(p) => LstatCoherent(c, fs, p);
        case Change(fs', p) =>
          ChangeKeepsOthers(c, fs, fs', NormalForm(p));
          UpdateCoherent(c, fs', p);
      }
      RunsAnswerRight(CachesAfter(c, fs, e), TreeAfter(fs, e), run[1..]);
    }
  }
}
