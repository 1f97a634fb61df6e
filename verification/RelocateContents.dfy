/** What the rewritten sections of a relocated file contain. */
module RelocateContents {
  import opened Relocate
  import opened RelocateResults

  /** The sections to rewrite do not overlap each other. */
  ghost predicate Apart(data: Bytes, h: Elf)
    requires TableInFile(data, h)
  {
    forall i, j | 0 <= i < h.shnum && 0 <= j < h.shnum && i != j && Touched(data, h, i) && Touched(data, h, j) ::
      var s, t := SectionAt(data, h, i), SectionAt(data, h, j);
      s.off + s.size <= t.off || t.off + t.size <= s.off
  }

  /** Section `i` of `d` holds the same bytes as in `data`. */
  ghost predicate Kept(d: Bytes, data: Bytes, h: Elf, i: nat)
    requires TableInFile(data, h) && i < h.shnum
  {
    Agree(d, data, SectionAt(data, h, i).off, SectionAt(data, h, i).off + SectionAt(data, h, i).size)
  }

  /** The loader's cache path, relocated, with NULs to the end of its section. */
  ghost predicate CacheDone(d: Bytes, data: Bytes, sec: Section, prefix: Bytes) {
    && sec.off + sec.size <= |data| == |d|
    && var path := Relocated(data[sec.off..sec.off + sec.size], prefix);
       |path| < sec.size && d[sec.off..sec.off + sec.size] == Padded(path, sec.size) && d[sec.off + sec.size - 1] == 0
  }

  /** What the loop has to make of section `i`. */
  ghost predicate Rewritten(d: Bytes, data: Bytes, h: Elf, i: nat, prefix: Bytes)
    requires TableInFile(data, h) && i < h.shnum
  {
    var sec := SectionAt(data, h, i);
    && (Named(data, h, i, ".ldsocache") ==> CacheDone(d, data, sec, prefix))
    && (Named(data, h, i, ".gccrelocprefix") ==> SlotsDone(d, data, sec.off, sec.size, Relocation(prefix), 0))
    && (Named(data, h, i, ".sysdirs") || Named(data, h, i, ".sysdirslen") ==> Kept(d, data, h, i))
  }

  lemma RewrittenFrame(d: Bytes, d': Bytes, data: Bytes, h: Elf, i: nat, prefix: Bytes)
    requires Sane(data, h) && |d| == |data| && i < h.shnum && Touched(data, h, i)
    requires Rewritten(d, data, h, i, prefix)
    requires Agree(d, d', SectionAt(data, h, i).off, SectionAt(data, h, i).off + SectionAt(data, h, i).size)
    ensures Rewritten(d', data, h, i, prefix)
  {
    var sec := SectionAt(data, h, i);
    if Named(data, h, i, ".ldsocache") {
      assert d'[sec.off..sec.off + sec.size] == d[sec.off..sec.off + sec.size];
    }
    if Named(data, h, i, ".gccrelocprefix") {
      SlotsDoneFrame(d, data, d', data, sec.off, sec.size, Relocation(prefix), 0);
    }
  }

  ghost predicate ChunkFrom(c: Chunk, data: Bytes, h: Elf, name: string)
    requires TableInFile(data, h)
  {
    c == Missing || exists i | 0 <= i < h.shnum :: ChunkIs(c, data, h, i, name)
  }

  ghost predicate ChunkIs(c: Chunk, data: Bytes, h: Elf, i: nat, name: string)
    requires TableInFile(data, h) && i < h.shnum
  {
    && Named(data, h, i, name) && c.Chunk?
    && c.off == SectionAt(data, h, i).off && c.size == SectionAt(data, h, i).size
    && c.off + c.size <= |data| && c.content == data[c.off..c.off + c.size]
  }

  /** The loop stands before header `i`: earlier sections are rewritten, later ones untouched. */
  ghost predicate Progress(s: Loop, data: Bytes, h: Elf, prefix: Bytes, i: nat)
    requires TableInFile(data, h)
  {
    && Local(s.data, data, h)
    && (forall j | 0 <= j < h.shnum && j < i && Touched(data, h, j) :: Rewritten(s.data, data, h, j, prefix))
    && (forall j | i <= j < h.shnum && Touched(data, h, j) :: Kept(s.data, data, h, j))
    && ChunkFrom(s.sysdirs, data, h, ".sysdirs") && ChunkFrom(s.lens, data, h, ".sysdirslen")
  }

  lemma PaddedWritten(d: Bytes, off: nat, size: nat, path: Bytes)
    requires off + size <= |d| && |path| < size
    ensures var d' := WriteAt(d, off, Padded(path, size));
            && |d'| == |d| && d'[off..off + size] == Padded(path, size) && d'[off + size - 1] == 0
            && Agree(d', d, 0, off) && Agree(d', d, off + size, |d|)
  {
    PaddedSize(path, size);
    WriteInside(d, off, Padded(path, size));
    var d' := WriteAt(d, off, Padded(path, size));
    assert d'[off + size - 1] == d'[off..off + size][size - 1];
  }

  lemma CacheWritten(d: Bytes, data: Bytes, sec: Section, prefix: Bytes)
    requires sec.off + sec.size <= |data| && Agree(d, data, sec.off, sec.off + sec.size) && |d| == |data|
    requires |Relocated(ReadAt(d, sec.off, sec.size), prefix)| < sec.size
    ensures var d' := WriteAt(d, sec.off, Padded(Relocated(ReadAt(d, sec.off, sec.size), prefix), sec.size));
            && CacheDone(d', data, sec, prefix)
            && Agree(d', d, 0, sec.off) && Agree(d', d, sec.off + sec.size, |d|)
  {
    assert ReadAt(d, sec.off, sec.size) == data[sec.off..sec.off + sec.size];
    PaddedWritten(d, sec.off, sec.size, Relocated(ReadAt(d, sec.off, sec.size), prefix));
  }

  lemma CacheRewritten(d: Bytes, data: Bytes, h: Elf, i: nat, prefix: Bytes)
    requires Sane(data, h) && i < h.shnum && Named(data, h, i, ".ldsocache") && Kept(d, data, h, i)
    requires var sec := SectionAt(data, h, i); |Relocated(ReadAt(d, sec.off, sec.size), prefix)| < sec.size
    ensures var sec := SectionAt(data, h, i);
            var d' := WriteAt(d, sec.off, Padded(Relocated(ReadAt(d, sec.off, sec.size), prefix), sec.size));
            && CacheDone(d', data, sec, prefix)
            && Agree(d', d, 0, sec.off) && Agree(d', d, sec.off + sec.size, |d|)
  {
    assert Touched(data, h, i);
    CacheWritten(d, data, SectionAt(data, h, i), prefix);
  }

  lemma SlotsRewritten(d: Bytes, data: Bytes, h: Elf, i: nat, prefix: Bytes)
    requires Sane(data, h) && i < h.shnum && Named(data, h, i, ".gccrelocprefix") && Kept(d, data, h, i)
    ensures var sec := SectionAt(data, h, i);
            var p := ChangedSlots(d, sec.off, sec.size, Relocation(prefix), 0);
            && (p.status == Done ==> SlotsDone(p.data, data, sec.off, sec.size, Relocation(prefix), 0))
            && Agree(p.data, d, 0, sec.off) && Agree(p.data, d, sec.off + sec.size, |d|)
  {
    var sec := SectionAt(data, h, i);
    assert Touched(data, h, i);
    SlotsPatch(d, sec.off, sec.size, Relocation(prefix), 0);
    var p := ChangedSlots(d, sec.off, sec.size, Relocation(prefix), 0);
    if p.status == Done {
      SlotsDoneFrame(p.data, d, p.data, data, sec.off, sec.size, Relocation(prefix), 0);
    }
  }

  /** A change inside section `i` that rewrites it takes the loop one header further. */
  lemma Advance(s: Loop, d: Bytes, data: Bytes, h: Elf, prefix: Bytes, i: nat)
    requires Sane(data, h) && Apart(data, h) && i < h.shnum && Touched(data, h, i) && Progress(s, data, h, prefix, i)
    requires Agree(d, s.data, 0, SectionAt(data, h, i).off)
    requires Agree(d, s.data, SectionAt(data, h, i).off + SectionAt(data, h, i).size, |s.data|)
    requires Rewritten(d, data, h, i, prefix)
    ensures Progress(s.(data := d), data, h, prefix, i + 1)
  {
    LocalPatch(s.data, d, data, h, i);
    forall j | 0 <= j < h.shnum && j != i && Touched(data, h, j)
      ensures Agree(s.data, d, SectionAt(data, h, j).off, SectionAt(data, h, j).off + SectionAt(data, h, j).size)
    {
    }
    forall j | 0 <= j < i && Touched(data, h, j)
      ensures Rewritten(d, data, h, j, prefix)
    {
      RewrittenFrame(s.data, d, data, h, j, prefix);
    }
    forall j | i + 1 <= j < h.shnum && Touched(data, h, j)
      ensures Kept(d, data, h, j)
    {
      assert Kept(s.data, data, h, j);
    }
  }

  lemma NamesDiffer()
    ensures |Ascii(".sysdirs")| == 8 && |Ascii(".sysdirslen")| == 11 && |Ascii(".ldsocache")| == 10 && |Ascii(".gccrelocprefix")| == 15
  {
  }

  lemma SectionProgress(s: Loop, data: Bytes, h: Elf, prefix: Bytes, i: nat)
    requires Sane(data, h) && Apart(data, h) && i < h.shnum && Progress(s, data, h, prefix, i) && s.status == Done
    ensures var sec := SectionAt(data, h, i);
            var s' := if sec.kind == 1 then ChangedSection(s, NameAt(Strtab(data, h), sec.name), sec, prefix) else s;
            s'.status == Done ==> Progress(s', data, h, prefix, i + 1)
  {
    NamesDiffer();
    var sec := SectionAt(data, h, i);
    var name := NameAt(Strtab(data, h), sec.name);
    if Touched(data, h, i) {
      assert Kept(s.data, data, h, i);
      if name == Ascii(".ldsocache") {
        var path := Relocated(ReadAt(s.data, sec.off, sec.size), prefix);
        if |path| < sec.size {
          CacheRewritten(s.data, data, h, i, prefix);
          Advance(s, WriteAt(s.data, sec.off, Padded(path, sec.size)), data, h, prefix, i);
        }
      } else if name == Ascii(".gccrelocprefix") {
        var p := ChangedSlots(s.data, sec.off, sec.size, Relocation(prefix), 0);
        if p.status == Done {
          SlotsRewritten(s.data, data, h, i, prefix);
          Advance(s, p.data, data, h, prefix, i);
        }
      } else {
        RememberedSection(s, data, h, prefix, i);
      }
    }
  }

  lemma RememberedSection(s: Loop, data: Bytes, h: Elf, prefix: Bytes, i: nat)
    requires Sane(data, h) && Apart(data, h) && i < h.shnum && Progress(s, data, h, prefix, i) && s.status == Done
    requires Named(data, h, i, ".sysdirs") || Named(data, h, i, ".sysdirslen")
    ensures Progress(ChangedSection(s, NameAt(Strtab(data, h), SectionAt(data, h, i).name), SectionAt(data, h, i), prefix), data, h, prefix, i + 1)
  {
    NamesDiffer();
    var sec := SectionAt(data, h, i);
    assert Touched(data, h, i) && Kept(s.data, data, h, i);
    Advance(s, s.data, data, h, prefix, i);
    var c := Chunk(ReadAt(s.data, sec.off, sec.size), sec.off, sec.size);
    assert s.data[sec.off..sec.off + sec.size] == data[sec.off..sec.off + sec.size];
    assert Named(data, h, i, ".sysdirs") ==> ChunkIs(c, data, h, i, ".sysdirs");
    assert Named(data, h, i, ".sysdirslen") ==> ChunkIs(c, data, h, i, ".sysdirslen");
  }

  lemma HeaderProgress(s: Loop, data: Bytes, h: Elf, prefix: Bytes, i: nat)
    requires Sane(data, h) && Apart(data, h) && i < h.shnum && Progress(s, data, h, prefix, i) && s.status == Done
    ensures var s' := ChangedHeader(s, h, Strtab(data, h), prefix, i);
            s'.status == Done ==> Progress(s', data, h, prefix, i + 1)
  {
    SameRecord(s.data, data, h, i);
    SectionProgress(s, data, h, prefix, i);
  }

  lemma {:induction false} LoopProgress(s: Loop, data: Bytes, h: Elf, prefix: Bytes, i: nat)
    requires Sane(data, h) && Apart(data, h) && Progress(s, data, h, prefix, i) && i <= h.shnum && s.status == Done
    ensures var t := ChangedSections(s, h, Strtab(data, h), prefix, i);
            t.status == Done ==> Progress(t, data, h, prefix, h.shnum)
    decreases h.shnum - i
  {
    if i < h.shnum {
      HeaderProgress(s, data, h, prefix, i);
      var s' := ChangedHeader(s, h, Strtab(data, h), prefix, i);
      if s'.status == Done {
        LoopProgress(s', data, h, prefix, i + 1);
      }
    }
  }

  /** The two tables in the finished file: where the remembered paths stood, the same paths relocated,
      and where their lengths stood, the new lengths. */
  ghost predicate TablesDone(d: Bytes, h: Elf, prefix: Bytes, dirs: Chunk, lens: Chunk) {
    && dirs.Chunk? && lens.Chunk? && dirs.off + dirs.size <= |d| && lens.off + lens.size <= |d|
    && var paths := Subbed(Paths(dirs.content), prefix);
       && d[dirs.off..dirs.off + dirs.size] == Padded(Terminated(paths), dirs.size)
       && Lengths(paths, Width(h)) <= d[lens.off..lens.off + lens.size]
  }

  lemma TablesApart(data: Bytes, h: Elf, i: nat, j: nat)
    requires Sane(data, h) && Apart(data, h) && Named(data, h, i, ".sysdirs") && Named(data, h, j, ".sysdirslen")
    ensures var s, t := SectionAt(data, h, i), SectionAt(data, h, j);
            s.off + s.size <= t.off || t.off + t.size <= s.off
  {
    NamesDiffer();
    assert Touched(data, h, i) && Touched(data, h, j) && i != j;
  }

  /** A region of the file. */
  ghost predicate Covers(c: Chunk, k: int) {
    c.Chunk? && c.off <= k < c.off + c.size
  }

  lemma TablesWritten(h: Elf, prefix: Bytes, s: Loop)
    requires s.status == Done && s.sysdirs.Chunk? && s.lens.Chunk? && Fits(s, h, prefix)
    requires s.sysdirs.off + s.sysdirs.size <= |s.data| && s.lens.off + s.lens.size <= |s.data|
    requires s.sysdirs.off + s.sysdirs.size <= s.lens.off || s.lens.off + s.lens.size <= s.sysdirs.off
    ensures var t := ChangedSysdirs(s, h, prefix).data;
            && TablesDone(t, h, prefix, s.sysdirs, s.lens) && |t| == |s.data|
            && (forall k | 0 <= k < |t| && !Covers(s.sysdirs, k) && !Covers(s.lens, k) :: t[k] == s.data[k])
  {
    var paths := Subbed(Paths(s.sysdirs.content), prefix);
    var a, b := Padded(Terminated(paths), s.sysdirs.size), Lengths(paths, Width(h));
    PaddedSize(Terminated(paths), s.sysdirs.size);
    TwoWrites(s.data, s.sysdirs.off, a, s.lens.off, b, s.lens.size);
  }

  lemma TwoWrites(d: Bytes, off1: nat, a: Bytes, off2: nat, b: Bytes, room: nat)
    requires off1 + |a| <= |d| && off2 + room <= |d| && |b| <= room
    requires off1 + |a| <= off2 || off2 + room <= off1
    ensures var t := WriteAt(WriteAt(d, off1, a), off2, b);
            && |t| == |d| && t[off1..off1 + |a|] == a && b <= t[off2..off2 + room]
            && (forall k | 0 <= k < |d| && !(off1 <= k < off1 + |a|) && !(off2 <= k < off2 + room) :: t[k] == d[k])
  {
    WriteInside(d, off1, a);
    var d1 := WriteAt(d, off1, a);
    WriteInside(d1, off2, b);
    var t := WriteAt(d1, off2, b);
    assert t[off1..off1 + |a|] == d1[off1..off1 + |a|];
    assert t[off2..off2 + room][..|b|] == t[off2..off2 + |b|];
  }

  /** A relocation that succeeds: every .ldsocache section holds the relocated path and NULs to its end,
      every whole 4096-byte slot of .gccrelocprefix holds its relocated, NUL-terminated path, and the two
      directory tables hold the relocated paths and their lengths. */
  lemma RelocatedFile(data: Bytes, h: Elf, prefix: Bytes)
    requires Sane(data, h) && Apart(data, h) && Fits(AllSections(data, h, prefix), h, prefix)
    requires ChangedDirs(data, h, prefix).status == Done
    ensures var d := ChangedDirs(data, h, prefix).data;
            && (forall i | 0 <= i < h.shnum && Named(data, h, i, ".ldsocache") :: CacheDone(d, data, SectionAt(data, h, i), prefix))
            && (forall i | 0 <= i < h.shnum && Named(data, h, i, ".gccrelocprefix") ::
                  SlotsDone(d, data, SectionAt(data, h, i).off, SectionAt(data, h, i).size, Relocation(prefix), 0))
            && var s := AllSections(data, h, prefix);
               s.sysdirs != Missing ==>
                 && TablesDone(d, h, prefix, s.sysdirs, s.lens)
                 && ChunkFrom(s.sysdirs, data, h, ".sysdirs") && ChunkFrom(s.lens, data, h, ".sysdirslen")
  {
    RecordInTable(h, h.shstrndx);
    var s := AllSections(data, h, prefix);
    LoopProgress(Loop(data, Missing, Missing, Done), data, h, prefix, 0);
    var d := ChangedDirs(data, h, prefix).data;
    AfterLoop(s, data, h, prefix);
    NamesDiffer();
    assert forall i | 0 <= i < h.shnum && (Named(data, h, i, ".ldsocache") || Named(data, h, i, ".gccrelocprefix")) ::
        Touched(data, h, i) && Rewritten(d, data, h, i, prefix);
  }

  /** The tables are written after the loop; that leaves the other sections as the loop left them. */
  lemma AfterLoop(s: Loop, data: Bytes, h: Elf, prefix: Bytes)
    requires Sane(data, h) && Apart(data, h) && Fits(s, h, prefix) && s.status == Done && Progress(s, data, h, prefix, h.shnum)
    requires ChangedSysdirs(s, h, prefix).status == Done
    ensures var d := ChangedSysdirs(s, h, prefix).data;
            && (forall i | 0 <= i < h.shnum && (Named(data, h, i, ".ldsocache") || Named(data, h, i, ".gccrelocprefix")) ::
                  Rewritten(d, data, h, i, prefix))
            && (s.sysdirs != Missing ==> TablesDone(d, h, prefix, s.sysdirs, s.lens))
  {
    var d := ChangedSysdirs(s, h, prefix).data;
    assert forall i | 0 <= i < h.shnum && Touched(data, h, i) :: Rewritten(s.data, data, h, i, prefix);
    if s.sysdirs != Missing {
      var i :| 0 <= i < h.shnum && ChunkIs(s.sysdirs, data, h, i, ".sysdirs");
      var j :| 0 <= j < h.shnum && ChunkIs(s.lens, data, h, j, ".sysdirslen");
      TablesApart(data, h, i, j);
      TablesWritten(h, prefix, s);
      assert forall k | 0 <= k < |data| && !Within(data, h, i, k) && !Within(data, h, j, k) :: !Covers(s.sysdirs, k) && !Covers(s.lens, k);
      OthersStayRewritten(s.data, d, data, h, prefix, i, j);
    }
  }

  lemma OthersStayRewritten(d: Bytes, d': Bytes, data: Bytes, h: Elf, prefix: Bytes, i: nat, j: nat)
    requires Sane(data, h) && Apart(data, h) && i < h.shnum && j < h.shnum && |d| == |d'| == |data|
    requires Named(data, h, i, ".sysdirs") && Named(data, h, j, ".sysdirslen")
    requires forall k | 0 <= k < |d| && !Within(data, h, i, k) && !Within(data, h, j, k) :: d'[k] == d[k]
    requires forall m | 0 <= m < h.shnum && Touched(data, h, m) :: Rewritten(d, data, h, m, prefix)
    ensures forall m | 0 <= m < h.shnum && (Named(data, h, m, ".ldsocache") || Named(data, h, m, ".gccrelocprefix")) ::
              Rewritten(d', data, h, m, prefix)
  {
    NamesDiffer();
    forall m | 0 <= m < h.shnum && (Named(data, h, m, ".ldsocache") || Named(data, h, m, ".gccrelocprefix"))
      ensures Rewritten(d', data, h, m, prefix)
    {
      assert Touched(data, h, m) && Touched(data, h, i) && Touched(data, h, j) && m != i && m != j;
      RewrittenFrame(d, d', data, h, m, prefix);
    }
  }
}
