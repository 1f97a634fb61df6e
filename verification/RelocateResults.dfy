/** What relocation leaves alone, and what it leaves behind in the sections it rewrites. */
module RelocateResults {
  import opened Relocate

  lemma {:induction false} StripEnds(s: Bytes)
    ensures |Strip(s)| <= |s| && Strip(s) <= s
    ensures Strip(s) != [] ==> Strip(s)[|Strip(s)| - 1] != 0
  {
    if s != [] && s[|s| - 1] == 0 {
      StripEnds(s[..|s| - 1]);
    }
  }

  lemma WriteInside(data: Bytes, off: nat, b: Bytes)
    requires off + |b| <= |data|
    ensures var d := WriteAt(data, off, b);
            && |d| == |data| && d[off..off + |b|] == b
            && (forall k | 0 <= k < |data| && !(off <= k < off + |b|) :: d[k] == data[k])
  {
  }

  // ---- the interpreter -----------------------------------------------------------------

  /** The record of program header `i` can be unpacked. */
  predicate HeaderReadable(data: Bytes, h: Elf, i: nat) {
    |ProgramHeader(data, h, i)| == PhSize(h)
  }

  function SegmentAt(data: Bytes, h: Elf, i: nat): Segment
    requires HeaderReadable(data, h, i)
  {
    SegmentOf(h, ProgramHeader(data, h, i))
  }

  /** Header `i` can be read and is no PT_INTERP entry. */
  ghost predicate PassedOver(data: Bytes, h: Elf, i: nat) {
    HeaderReadable(data, h, i) && SegmentAt(data, h, i).kind != 3
  }

  /** Header `i` is the first PT_INTERP entry. */
  ghost predicate FirstInterp(data: Bytes, h: Elf, i: nat) {
    && i < h.phnum && HeaderReadable(data, h, i) && SegmentAt(data, h, i).kind == 3
    && (forall j | 0 <= j < i :: PassedOver(data, h, j))
  }

  lemma SkipOne(data: Bytes, h: Elf, path: Bytes, j: nat)
    requires j < h.phnum && PassedOver(data, h, j)
    ensures ChangedInterp(data, h, path, j) == ChangedInterp(data, h, path, j + 1)
  {
  }

  lemma {:induction false} SameThroughout(results: nat -> Patched, j: nat, i: nat)
    requires j <= i && forall m | j <= m < i :: results(m) == results(m + 1)
    ensures results(j) == results(i)
    decreases i - j
  {
    if j < i {
      assert results(j) == results(j + 1);
      SameThroughout(results, j + 1, i);
    }
  }

  lemma SkipToInterp(data: Bytes, h: Elf, path: Bytes, i: nat)
    requires i <= h.phnum && forall j | 0 <= j < i :: PassedOver(data, h, j)
    ensures ChangedInterp(data, h, path, 0) == ChangedInterp(data, h, path, i)
  {
    var results := (m: nat) => ChangedInterp(data, h, path, m);
    forall m | 0 <= m < i ensures results(m) == results(m + 1) {
      SkipOne(data, h, path, m);
    }
    SameThroughout(results, 0, i);
  }

  lemma SegmentPatch(data: Bytes, p: Segment, path: Bytes)
    requires p.off + p.size <= |data|
    ensures var r := ChangedSegment(data, p, path);
            var keep := SystemPath(ReadAt(data, p.off, 11)) || p.size == 0;
            && |r.data| == |data|
            && (forall k | 0 <= k < |data| && !(p.off <= k < p.off + p.size) :: r.data[k] == data[k])
            && (keep ==> r == Patched(data, Done))
            && (!keep && |path| >= p.size ==> r == Patched(data, Refused))
            && (!keep && |path| < p.size ==> r.status == Done && r.data[p.off..p.off + p.size] == Padded(path, p.size)
                                             && r.data[p.off + p.size - 1] == 0)
  {
    if |path| < p.size {
      PaddedSize(path, p.size);
      WriteInside(data, p.off, path + Zeros(p.size - |path|));
    }
  }

  /** Patching the interpreter of a file whose PT_INTERP segment lies inside it: the length stays, no byte
      outside the segment changes, and either nothing changes or the segment holds exactly the new path
      and NULs up to its end. Which of the two, and the answer, depend on the old path and the room. */
  lemma InterpreterPatch(data: Bytes, h: Elf, path: Bytes, i: nat)
    requires FirstInterp(data, h, i)
    requires SegmentAt(data, h, i).off + SegmentAt(data, h, i).size <= |data|
    ensures var p, r := SegmentAt(data, h, i), ChangedInterp(data, h, path, 0);
            var keep := SystemPath(ReadAt(data, p.off, 11)) || p.size == 0;
            && |r.data| == |data|
            && (forall k | 0 <= k < |data| && !(p.off <= k < p.off + p.size) :: r.data[k] == data[k])
            && (keep ==> r == Patched(data, Done))
            && (!keep && |path| >= p.size ==> r == Patched(data, Refused))
            && (!keep && |path| < p.size ==> r.status == Done && r.data[p.off..p.off + p.size] == Padded(path, p.size)
                                             && r.data[p.off + p.size - 1] == 0)
  {
    SkipToInterp(data, h, path, i);
    SegmentPatch(data, SegmentAt(data, h, i), path);
  }

  // ---- the sections --------------------------------------------------------------------

  ghost predicate TableInFile(data: Bytes, h: Elf) {
    h.shentsize == ShSize(h) && h.shoff + h.shnum * h.shentsize <= |data| && h.shstrndx < h.shnum
  }

  lemma RecordInTable(h: Elf, i: nat)
    requires i < h.shnum
    ensures i * h.shentsize + h.shentsize <= h.shnum * h.shentsize
  {
    assert (i + 1) * h.shentsize <= h.shnum * h.shentsize;
  }

  function Record(data: Bytes, h: Elf, i: nat): (r: Bytes)
    requires TableInFile(data, h) && i < h.shnum
    ensures |r| == ShSize(h)
  {
    RecordInTable(h, i);
    data[h.shoff + i * h.shentsize..h.shoff + i * h.shentsize + h.shentsize]
  }

  function SectionAt(data: Bytes, h: Elf, i: nat): Section
    requires TableInFile(data, h) && i < h.shnum
  {
    SectionOf(h, Record(data, h, i))
  }

  function Strtab(data: Bytes, h: Elf): Bytes
    requires TableInFile(data, h)
  {
    RecordInTable(h, h.shstrndx);
    StringTable(data, h)
  }

  ghost predicate Named(data: Bytes, h: Elf, i: nat, name: string)
    requires TableInFile(data, h)
  {
    i < h.shnum && SectionAt(data, h, i).kind == 1 && NameAt(Strtab(data, h), SectionAt(data, h, i).name) == Ascii(name)
  }

  /** One of the four sections the script rewrites. */
  ghost predicate Touched(data: Bytes, h: Elf, i: nat)
    requires TableInFile(data, h)
  {
    Named(data, h, i, ".sysdirs") || Named(data, h, i, ".sysdirslen") || Named(data, h, i, ".ldsocache")
    || Named(data, h, i, ".gccrelocprefix")
  }

  ghost predicate Within(data: Bytes, h: Elf, i: nat, k: int)
    requires TableInFile(data, h) && i < h.shnum
  {
    SectionAt(data, h, i).off <= k < SectionAt(data, h, i).off + SectionAt(data, h, i).size
  }

  /** The sections to rewrite lie inside the file and away from the section header table. */
  ghost predicate Sane(data: Bytes, h: Elf) {
    && TableInFile(data, h)
    && forall i | 0 <= i < h.shnum && Touched(data, h, i) ::
         var s := SectionAt(data, h, i);
         s.off + s.size <= |data| && (s.off + s.size <= h.shoff || h.shoff + h.shnum * h.shentsize <= s.off)
  }

  /** `d` differs from `data` inside the four kinds of sections only. */
  ghost predicate Local(d: Bytes, data: Bytes, h: Elf)
    requires TableInFile(data, h)
  {
    && |d| == |data|
    && forall k | 0 <= k < |data| && (forall i | 0 <= i < h.shnum && Touched(data, h, i) :: !Within(data, h, i, k)) ::
         d[k] == data[k]
  }

  /** A byte of the header table is in no section that is rewritten. */
  lemma TableUntouched(d: Bytes, data: Bytes, h: Elf, k: nat)
    requires Sane(data, h) && Local(d, data, h) && h.shoff <= k < h.shoff + h.shnum * h.shentsize
    ensures d[k] == data[k]
  {
    assert forall j | 0 <= j < h.shnum && Touched(data, h, j) :: !Within(data, h, j, k);
  }

  lemma SameRecord(d: Bytes, data: Bytes, h: Elf, i: nat)
    requires Sane(data, h) && Local(d, data, h) && i < h.shnum
    ensures SectionHeader(d, h, i) == Record(data, h, i)
  {
    forall k | h.shoff <= k < h.shoff + h.shnum * h.shentsize
      ensures d[k] == data[k]
    {
      TableUntouched(d, data, h, k);
    }
    RecordOfTable(d, data, h, i);
  }

  lemma RecordOfTable(d: Bytes, data: Bytes, h: Elf, i: nat)
    requires TableInFile(data, h) && |d| == |data| && i < h.shnum
    requires forall k | h.shoff <= k < h.shoff + h.shnum * h.shentsize :: d[k] == data[k]
    ensures SectionHeader(d, h, i) == Record(data, h, i)
  {
    RecordInTable(h, i);
    var a := h.shoff + i * h.shentsize;
    SameSlice(d, data, a, a + h.shentsize);
  }

  lemma SameSlice(d: Bytes, data: Bytes, lo: nat, hi: nat)
    requires |d| == |data| && lo <= hi <= |d| && forall k | lo <= k < hi :: d[k] == data[k]
    ensures d[lo..hi] == data[lo..hi]
  {
  }

  lemma LocalWrite(d: Bytes, data: Bytes, h: Elf, i: nat, off: nat, b: Bytes)
    requires Sane(data, h) && Local(d, data, h) && i < h.shnum && Touched(data, h, i)
    requires SectionAt(data, h, i).off <= off && off + |b| <= SectionAt(data, h, i).off + SectionAt(data, h, i).size
    ensures Local(WriteAt(d, off, b), data, h)
  {
    WriteInside(d, off, b);
    forall k | 0 <= k < |data| && (forall j | 0 <= j < h.shnum && Touched(data, h, j) :: !Within(data, h, j, k))
      ensures WriteAt(d, off, b)[k] == data[k]
    {
      assert !Within(data, h, i, k);
    }
  }

  /** The slot at `at` holds the changed, NUL-padded, NUL-terminated form of what it held in `data`. */
  ghost predicate SlotDone(d: Bytes, data: Bytes, at: nat, change: Bytes -> Bytes) {
    && at + SLOT <= |d| && at + SLOT <= |data|
    && |change(data[at..at + SLOT])| < SLOT
    && d[at..at + SLOT] == Padded(change(data[at..at + SLOT]), SLOT)
    && d[at + SLOT - 1] == 0
  }

  /** All whole slots of the section from `done` bytes on are rewritten. */
  ghost predicate SlotsDone(d: Bytes, data: Bytes, off: nat, size: nat, change: Bytes -> Bytes, done: nat)
    decreases size - done
  {
    done + SLOT <= size ==> SlotDone(d, data, off + done, change) && SlotsDone(d, data, off, size, change, done + SLOT)
  }

  /** Two files of one length that agree from `lo` to `hi`. */
  ghost predicate Agree(d: Bytes, d': Bytes, lo: nat, hi: nat) {
    |d| == |d'| && hi <= |d| && (forall k | lo <= k < hi :: d[k] == d'[k])
  }

  lemma AgreeParts(d: Bytes, d': Bytes, lo: nat, mid: nat, hi: nat)
    requires Agree(d, d', lo, hi) && lo <= mid <= hi
    ensures Agree(d, d', lo, mid) && Agree(d, d', mid, hi)
  {
  }

  lemma OneSlot(data: Bytes, at: nat, change: Bytes -> Bytes)
    requires at + SLOT <= |data| && |change(data[at..at + SLOT])| < SLOT
    ensures var d := WriteAt(data, at, Padded(change(data[at..at + SLOT]), SLOT));
            && SlotDone(d, data, at, change)
            && Agree(d, data, 0, at) && Agree(d, data, at + SLOT, |data|)
  {
    var path := change(data[at..at + SLOT]);
    PaddedSize(path, SLOT);
    WriteInside(data, at, Padded(path, SLOT));
  }

  lemma SlotDoneFrame(d: Bytes, data: Bytes, d': Bytes, data': Bytes, at: nat, change: Bytes -> Bytes)
    requires SlotDone(d, data, at, change) && Agree(d, d', at, at + SLOT) && Agree(data, data', at, at + SLOT)
    ensures SlotDone(d', data', at, change)
  {
    assert d'[at..at + SLOT] == d[at..at + SLOT] && data'[at..at + SLOT] == data[at..at + SLOT];
  }

  lemma {:induction false} SlotsDoneFrame(d: Bytes, data: Bytes, d': Bytes, data': Bytes, off: nat, size: nat, change: Bytes -> Bytes, done: nat)
    requires SlotsDone(d, data, off, size, change, done)
    requires Agree(d, d', off + done, off + size) && Agree(data, data', off + done, off + size)
    ensures SlotsDone(d', data', off, size, change, done)
    decreases size - done
  {
    if done + SLOT <= size {
      var at, mid, end := off + done, off + done + SLOT, off + size;
      AgreeParts(d, d', at, mid, end);
      AgreeParts(data, data', at, mid, end);
      SlotDoneFrame(d, data, d', data', at, change);
      SlotsDoneFrame(d, data, d', data', off, size, change, done + SLOT);
    }
  }

  /** What the slots loop leaves: nothing changed outside the rest of the section, every slot rewritten. */
  ghost predicate SlotsPatched(p: Patched, data: Bytes, off: nat, size: nat, change: Bytes -> Bytes, done: nat) {
    && Agree(p.data, data, 0, off + done) && Agree(p.data, data, off + size, |data|)
    && (p.status == Done || p.status == TooLong)
    && (p.status == Done ==> SlotsDone(p.data, data, off, size, change, done))
  }

  /** One slot: rewritten and the rest of the file kept, or nothing done. */
  ghost predicate SlotPatched(p: Patched, data: Bytes, at: nat, change: Bytes -> Bytes) {
    if p.status == Done then
      SlotDone(p.data, data, at, change) && Agree(p.data, data, 0, at) && Agree(p.data, data, at + SLOT, |data|)
    else
      p == Patched(data, TooLong)
  }

  lemma SlotPatch(data: Bytes, at: nat, change: Bytes -> Bytes)
    requires at + SLOT <= |data|
    ensures SlotPatched(ChangedSlot(data, at, change), data, at, change)
  {
    if |change(data[at..at + SLOT])| < SLOT {
      OneSlot(data, at, change);
    }
  }

  lemma {:induction false} SlotsPatch(data: Bytes, off: nat, size: nat, change: Bytes -> Bytes, done: nat)
    requires off + size <= |data| && done <= size
    ensures SlotsPatched(ChangedSlots(data, off, size, change, done), data, off, size, change, done)
    decreases size - done
  {
    NothingPatched(data, off, size, change, done);
    if done + SLOT <= size {
      SlotPatch(data, off + done, change);
      var p := ChangedSlot(data, off + done, change);
      if p.status == Done {
        SlotsPatch(p.data, off, size, change, done + SLOT);
        MoreSlots(data, p, ChangedSlots(p.data, off, size, change, done + SLOT), off, size, change, done);
      }
    }
  }

  lemma NothingPatched(data: Bytes, off: nat, size: nat, change: Bytes -> Bytes, done: nat)
    requires off + size <= |data| && done <= size
    ensures SlotsPatched(Patched(data, TooLong), data, off, size, change, done)
    ensures done + SLOT > size ==> SlotsPatched(Patched(data, Done), data, off, size, change, done)
  {
  }

  lemma MoreSlots(data: Bytes, p: Patched, rest: Patched, off: nat, size: nat, change: Bytes -> Bytes, done: nat)
    requires off + size <= |data| && done + SLOT <= size
    requires p.status == Done && SlotPatched(p, data, off + done, change)
    requires SlotsPatched(rest, p.data, off, size, change, done + SLOT)
    ensures SlotsPatched(rest, data, off, size, change, done)
  {
    if rest.status == Done {
      JoinSlots(data, p.data, rest.data, off, size, change, done);
    }
  }

  lemma JoinSlots(data: Bytes, d: Bytes, last: Bytes, off: nat, size: nat, change: Bytes -> Bytes, done: nat)
    requires done + SLOT <= size && Agree(d, data, off + done + SLOT, off + size) && Agree(last, d, off + done, off + done + SLOT)
    requires SlotDone(d, data, off + done, change) && SlotsDone(last, d, off, size, change, done + SLOT)
    ensures SlotsDone(last, data, off, size, change, done)
  {
    SlotsDoneFrame(last, d, last, data, off, size, change, done + SLOT);
    SlotDoneFrame(d, data, last, data, off + done, change);
  }

  // ---- locality of the section loop ----------------------------------------------------

  ghost predicate ChunkOf(c: Chunk, data: Bytes, h: Elf, name: string)
    requires TableInFile(data, h)
  {
    c == Missing || exists i | 0 <= i < h.shnum :: Named(data, h, i, name) && c.off == SectionAt(data, h, i).off && c.size == SectionAt(data, h, i).size
  }

  ghost predicate LoopLocal(s: Loop, data: Bytes, h: Elf)
    requires TableInFile(data, h)
  {
    Local(s.data, data, h) && ChunkOf(s.sysdirs, data, h, ".sysdirs") && ChunkOf(s.lens, data, h, ".sysdirslen")
  }

  lemma SectionLocal(s: Loop, data: Bytes, h: Elf, prefix: Bytes, i: nat)
    requires Sane(data, h) && LoopLocal(s, data, h) && i < h.shnum && SectionAt(data, h, i).kind == 1
    ensures LoopLocal(ChangedSection(s, NameAt(Strtab(data, h), SectionAt(data, h, i).name), SectionAt(data, h, i), prefix), data, h)
  {
    var sec := SectionAt(data, h, i);
    var name := NameAt(Strtab(data, h), sec.name);
    if name == Ascii(".sysdirs") {
      assert Named(data, h, i, ".sysdirs");
    } else if name == Ascii(".sysdirslen") {
      assert Named(data, h, i, ".sysdirslen");
    } else if name == Ascii(".ldsocache") {
      assert Touched(data, h, i);
      var path := Relocated(ReadAt(s.data, sec.off, sec.size), prefix);
      if |path| < sec.size {
        PaddedSize(path, sec.size);
        LocalWrite(s.data, data, h, i, sec.off, Padded(path, sec.size));
      }
    } else if name == Ascii(".gccrelocprefix") {
      assert Touched(data, h, i);
      SlotsPatch(s.data, sec.off, sec.size, Relocation(prefix), 0);
      LocalPatch(s.data, ChangedSlots(s.data, sec.off, sec.size, Relocation(prefix), 0).data, data, h, i);
    }
  }

  lemma LocalPatch(d: Bytes, d': Bytes, data: Bytes, h: Elf, i: nat)
    requires Sane(data, h) && Local(d, data, h) && i < h.shnum && Touched(data, h, i)
    requires Agree(d', d, 0, SectionAt(data, h, i).off)
    requires Agree(d', d, SectionAt(data, h, i).off + SectionAt(data, h, i).size, |d|)
    ensures Local(d', data, h)
  {
    forall k | 0 <= k < |data| && (forall j | 0 <= j < h.shnum && Touched(data, h, j) :: !Within(data, h, j, k))
      ensures d'[k] == data[k]
    {
      assert !Within(data, h, i, k);
      assert d'[k] == d[k];
    }
  }

  lemma HeaderLocal(s: Loop, data: Bytes, h: Elf, prefix: Bytes, i: nat)
    requires Sane(data, h) && LoopLocal(s, data, h) && i < h.shnum
    ensures LoopLocal(ChangedHeader(s, h, Strtab(data, h), prefix, i), data, h)
  {
    SameRecord(s.data, data, h, i);
    if SectionAt(data, h, i).kind == 1 {
      SectionLocal(s, data, h, prefix, i);
    }
  }

  lemma {:induction false} LoopStaysLocal(s: Loop, data: Bytes, h: Elf, prefix: Bytes, i: nat)
    requires Sane(data, h) && LoopLocal(s, data, h)
    ensures LoopLocal(ChangedSections(s, h, Strtab(data, h), prefix, i), data, h)
    decreases h.shnum - i
  {
    if i < h.shnum && s.status == Done {
      HeaderLocal(s, data, h, prefix, i);
      LoopStaysLocal(ChangedHeader(s, h, Strtab(data, h), prefix, i), data, h, prefix, i + 1);
    }
  }

  /** The loop over the sections of a whole file. */
  ghost function AllSections(data: Bytes, h: Elf, prefix: Bytes): Loop
    requires TableInFile(data, h)
  {
    ChangedSections(Loop(data, Missing, Missing, Done), h, Strtab(data, h), prefix, 0)
  }

  /** The rewritten directory table and its length table fit the sections they came from. */
  ghost predicate Fits(s: Loop, h: Elf, prefix: Bytes) {
    s.status == Done && s.sysdirs.Chunk? && s.lens.Chunk? ==>
      var paths := Subbed(Paths(s.sysdirs.content), prefix);
      |Terminated(paths)| <= s.sysdirs.size && |Lengths(paths, Width(h))| <= s.lens.size
  }

  // ---- tables of any length ------------------------------------------------------------

  function Max(a: nat, b: nat): nat {
    if a < b then b else a
  }

  lemma WriteOver(data: Bytes, off: nat, b: Bytes)
    requires off <= |data|
    ensures var d := WriteAt(data, off, b);
            && |d| == Max(|data|, off + |b|) && d[off..off + |b|] == b
            && (forall k | 0 <= k < |data| && !(off <= k < off + |b|) :: d[k] == data[k])
  {
  }

  /** Both tables are written. */
  ghost predicate WritesTables(s: Loop) {
    s.status == Done && s.sysdirs.Chunk? && s.lens.Chunk?
  }

  /** The rewritten path table, at least as long as its section. */
  ghost function DirTable(s: Loop, prefix: Bytes): Bytes
    requires s.sysdirs.Chunk?
  {
    Padded(Terminated(Subbed(Paths(s.sysdirs.content), prefix)), s.sysdirs.size)
  }

  ghost function LenTable(s: Loop, h: Elf, prefix: Bytes): Bytes
    requires s.sysdirs.Chunk?
  {
    Lengths(Subbed(Paths(s.sysdirs.content), prefix), Width(h))
  }

  /** `k` is where one of the two tables is written. */
  ghost predicate InTables(s: Loop, h: Elf, prefix: Bytes, k: int)
    requires WritesTables(s)
  {
    || s.sysdirs.off <= k < s.sysdirs.off + |DirTable(s, prefix)|
    || s.lens.off <= k < s.lens.off + |LenTable(s, h, prefix)|
  }

  lemma TwoOver(data: Bytes, off1: nat, a: Bytes, off2: nat, b: Bytes)
    requires off1 <= |data| && off2 <= |data|
    ensures var d := WriteAt(WriteAt(data, off1, a), off2, b);
            && |d| == Max(Max(|data|, off1 + |a|), off2 + |b|)
            && forall k | 0 <= k < |data| && !(off1 <= k < off1 + |a|) && !(off2 <= k < off2 + |b|) :: d[k] == data[k]
  {
    WriteOver(data, off1, a);
    WriteOver(WriteAt(data, off1, a), off2, b);
  }

  lemma ChunkInside(c: Chunk, data: Bytes, h: Elf, name: string)
    requires Sane(data, h) && c.Chunk? && ChunkOf(c, data, h, name) && (name == ".sysdirs" || name == ".sysdirslen")
    ensures c.off <= |data|
  {
    var i :| 0 <= i < h.shnum && Named(data, h, i, name) && c.off == SectionAt(data, h, i).off && c.size == SectionAt(data, h, i).size;
    assert Touched(data, h, i);
  }

  lemma DirsWritten(data: Bytes, h: Elf, prefix: Bytes)
    requires TableInFile(data, h)
    ensures var d, s := ChangedDirs(data, h, prefix).data, AllSections(data, h, prefix);
            d == if WritesTables(s) then WriteAt(WriteAt(s.data, s.sysdirs.off, DirTable(s, prefix)), s.lens.off, LenTable(s, h, prefix))
                 else s.data
  {
    RecordInTable(h, h.shstrndx);
  }

  /** `k` is in no section that is rewritten. */
  ghost predicate Outside(data: Bytes, h: Elf, k: int)
    requires TableInFile(data, h)
  {
    forall i | 0 <= i < h.shnum && Touched(data, h, i) :: !Within(data, h, i, k)
  }

  lemma LocalOutside(d: Bytes, data: Bytes, h: Elf)
    requires TableInFile(data, h) && Local(d, data, h)
    ensures |d| == |data| && forall k | 0 <= k < |data| && Outside(data, h, k) :: d[k] == data[k]
  {
  }

  /** For every file: relocation changes bytes of the four kinds of sections and bytes the two tables are
      written over, also past the end of their sections, and nothing else; the file grows exactly when a table
      reaches past its end. */
  lemma RelocationReach(data: Bytes, h: Elf, prefix: Bytes)
    requires Sane(data, h)
    ensures var d, s := ChangedDirs(data, h, prefix).data, AllSections(data, h, prefix);
            if !WritesTables(s) then Local(d, data, h)
            else
              && |d| == Max(Max(|data|, s.sysdirs.off + |DirTable(s, prefix)|), s.lens.off + |LenTable(s, h, prefix)|)
              && forall k | 0 <= k < |data| && !InTables(s, h, prefix, k) && Outside(data, h, k) :: d[k] == data[k]
  {
    DirsWritten(data, h, prefix);
    var s := AllSections(data, h, prefix);
    LoopStaysLocal(Loop(data, Missing, Missing, Done), data, h, prefix, 0);
    if WritesTables(s) {
      LocalOutside(s.data, data, h);
      ChunkInside(s.sysdirs, data, h, ".sysdirs");
      ChunkInside(s.lens, data, h, ".sysdirslen");
      TwoOver(s.data, s.sysdirs.off, DirTable(s, prefix), s.lens.off, LenTable(s, h, prefix));
    }
  }

  /** What is written at `k`; the length table comes last. */
  ghost function TableByte(s: Loop, h: Elf, prefix: Bytes, k: int): Byte
    requires WritesTables(s) && InTables(s, h, prefix, k)
  {
    if s.lens.off <= k < s.lens.off + |LenTable(s, h, prefix)| then LenTable(s, h, prefix)[k - s.lens.off]
    else DirTable(s, prefix)[k - s.sysdirs.off]
  }

  lemma LandsAt(data: Bytes, off: nat, b: Bytes, k: int)
    requires off <= |data| && off <= k < off + |b|
    ensures k < |WriteAt(data, off, b)| && WriteAt(data, off, b)[k] == b[k - off]
  {
    WriteOver(data, off, b);
    var d := WriteAt(data, off, b);
    assert d[k] == d[off..off + |b|][k - off];
  }

  lemma TwoLand(data: Bytes, off1: nat, a: Bytes, off2: nat, b: Bytes, k: int)
    requires off1 <= |data| && off2 <= |data|
    requires off1 <= k < off1 + |a| || off2 <= k < off2 + |b|
    ensures var d := WriteAt(WriteAt(data, off1, a), off2, b);
            && k < |d|
            && d[k] == if off2 <= k < off2 + |b| then b[k - off2] else a[k - off1]
  {
    var d1 := WriteAt(data, off1, a);
    WriteOver(data, off1, a);
    WriteOver(d1, off2, b);
    if off2 <= k < off2 + |b| {
      LandsAt(d1, off2, b, k);
    } else {
      LandsAt(data, off1, a, k);
    }
  }

  lemma WrittenLand(s: Loop, h: Elf, prefix: Bytes, k: int)
    requires WritesTables(s) && s.sysdirs.off <= |s.data| && s.lens.off <= |s.data| && InTables(s, h, prefix, k)
    ensures var d := WriteAt(WriteAt(s.data, s.sysdirs.off, DirTable(s, prefix)), s.lens.off, LenTable(s, h, prefix));
            0 <= k < |d| && d[k] == TableByte(s, h, prefix, k)
  {
    TwoLand(s.data, s.sysdirs.off, DirTable(s, prefix), s.lens.off, LenTable(s, h, prefix), k);
  }

  lemma TablesStart(data: Bytes, h: Elf, prefix: Bytes)
    requires Sane(data, h) && WritesTables(AllSections(data, h, prefix))
    ensures var s := AllSections(data, h, prefix); |s.data| == |data| && s.sysdirs.off <= |data| && s.lens.off <= |data|
  {
    var s := AllSections(data, h, prefix);
    LoopStaysLocal(Loop(data, Missing, Missing, Done), data, h, prefix, 0);
    ChunkInside(s.sysdirs, data, h, ".sysdirs");
    ChunkInside(s.lens, data, h, ".sysdirslen");
  }

  /** Both tables are in the finished file at their full length, inside their sections and past them. */
  lemma TablesLand(data: Bytes, h: Elf, prefix: Bytes)
    requires Sane(data, h) && WritesTables(AllSections(data, h, prefix))
    ensures var d, s := ChangedDirs(data, h, prefix).data, AllSections(data, h, prefix);
            forall k | InTables(s, h, prefix, k) :: 0 <= k < |d| && d[k] == TableByte(s, h, prefix, k)
  {
    var d, s := ChangedDirs(data, h, prefix).data, AllSections(data, h, prefix);
    DirsWritten(data, h, prefix);
    TablesStart(data, h, prefix);
    forall k | InTables(s, h, prefix, k)
      ensures 0 <= k < |d| && d[k] == TableByte(s, h, prefix, k)
    {
      WrittenLand(s, h, prefix, k);
    }
  }

  ghost predicate TablesInside(data: Bytes, h: Elf, s: Loop, prefix: Bytes)
    requires WritesTables(s)
  {
    s.sysdirs.off + |DirTable(s, prefix)| <= |data| && s.lens.off + |LenTable(s, h, prefix)| <= |data|
  }

  /** The tables end inside the file, and what they are written over outside the four kinds of sections is what
      stands there already. */
  ghost predicate Harmless(data: Bytes, h: Elf, s: Loop, prefix: Bytes)
    requires TableInFile(data, h) && WritesTables(s)
  {
    && TablesInside(data, h, s, prefix)
    && forall k | 0 <= k < |data| && InTables(s, h, prefix, k) && Outside(data, h, k) :: data[k] == TableByte(s, h, prefix, k)
  }

  /** For every file: the size stays and no byte outside the four kinds of sections changes if and only if no
      table is written, or the tables do no harm. */
  lemma LocalIff(data: Bytes, h: Elf, prefix: Bytes)
    requires Sane(data, h)
    ensures var s := AllSections(data, h, prefix);
            Local(ChangedDirs(data, h, prefix).data, data, h) <==> (WritesTables(s) ==> Harmless(data, h, s, prefix))
  {
    var d, s := ChangedDirs(data, h, prefix).data, AllSections(data, h, prefix);
    RelocationReach(data, h, prefix);
    if WritesTables(s) {
      TablesLand(data, h, prefix);
      if Local(d, data, h) {
        LocalOutside(d, data, h);
      }
    }
  }

  /** Relocation of the directories keeps the length of the file and changes no byte outside the four
      kinds of sections, if the rewritten tables fit; it does so even when it fails half way. */
  lemma RelocationIsLocal(data: Bytes, h: Elf, prefix: Bytes)
    requires Sane(data, h) && Fits(AllSections(data, h, prefix), h, prefix)
    ensures Local(ChangedDirs(data, h, prefix).data, data, h)
  {
    RecordInTable(h, h.shstrndx);
    var s := AllSections(data, h, prefix);
    LoopStaysLocal(Loop(data, Missing, Missing, Done), data, h, prefix, 0);
    if s.status == Done && s.sysdirs.Chunk? && s.lens.Chunk? {
      var paths := Subbed(Paths(s.sysdirs.content), prefix);
      var i :| 0 <= i < h.shnum && Named(data, h, i, ".sysdirs") && s.sysdirs.off == SectionAt(data, h, i).off && s.sysdirs.size == SectionAt(data, h, i).size;
      var j :| 0 <= j < h.shnum && Named(data, h, j, ".sysdirslen") && s.lens.off == SectionAt(data, h, j).off && s.lens.size == SectionAt(data, h, j).size;
      PaddedSize(Terminated(paths), s.sysdirs.size);
      LocalWrite(s.data, data, h, i, s.sysdirs.off, Padded(Terminated(paths), s.sysdirs.size));
      LocalWrite(WriteAt(s.data, s.sysdirs.off, Padded(Terminated(paths), s.sysdirs.size)), data, h, j, s.lens.off, Lengths(paths, Width(h)));
    }
  }
}
