/** When relocation ends on a variable that was never set. */
module RelocateUnbound {
  import opened Relocate
  import opened RelocateResults
  import opened RelocateContents
  import opened RelocateTables

  /** Some header from index `i` on is a PROGBITS section of that name. */
  ghost predicate NamedFrom(data: Bytes, h: Elf, i: nat, name: string)
    requires TableInFile(data, h)
  {
    exists j | i <= j < h.shnum :: Named(data, h, j, name)
  }

  /** One header is remembered exactly when it has the name. */
  lemma HeaderRemembered(s: Loop, data: Bytes, h: Elf, prefix: Bytes, i: nat)
    requires Sane(data, h) && LoopLocal(s, data, h) && i < h.shnum
    ensures var t := ChangedHeader(s, h, Strtab(data, h), prefix, i);
            && (t.sysdirs != Missing <==> s.sysdirs != Missing || Named(data, h, i, ".sysdirs"))
            && (t.lens != Missing <==> s.lens != Missing || Named(data, h, i, ".sysdirslen"))
  {
    SameRecord(s.data, data, h, i);
    NamesDiffer();
  }

  lemma NamedStep(data: Bytes, h: Elf, i: nat, name: string)
    requires TableInFile(data, h) && i < h.shnum
    ensures NamedFrom(data, h, i, name) <==> Named(data, h, i, name) || NamedFrom(data, h, i + 1, name)
  {
    if j :| i <= j < h.shnum && Named(data, h, j, name) && j != i {
      assert i + 1 <= j < h.shnum;
    }
  }

  lemma {:induction false} LoopRemembers(s: Loop, data: Bytes, h: Elf, prefix: Bytes, i: nat)
    requires Sane(data, h) && LoopLocal(s, data, h) && s.status == Done && i <= h.shnum
    ensures var t := ChangedSections(s, h, Strtab(data, h), prefix, i);
            t.status == Done ==>
              && (t.sysdirs != Missing <==> s.sysdirs != Missing || NamedFrom(data, h, i, ".sysdirs"))
              && (t.lens != Missing <==> s.lens != Missing || NamedFrom(data, h, i, ".sysdirslen"))
    decreases h.shnum - i
  {
    if i < h.shnum {
      var s' := ChangedHeader(s, h, Strtab(data, h), prefix, i);
      HeaderRemembered(s, data, h, prefix, i);
      HeaderLocal(s, data, h, prefix, i);
      NamedStep(data, h, i, ".sysdirs");
      NamedStep(data, h, i, ".sysdirslen");
      if s'.status == Done {
        LoopRemembers(s', data, h, prefix, i + 1);
      }
    }
  }

  lemma DirsFromSections(data: Bytes, h: Elf, prefix: Bytes)
    requires TableInFile(data, h) && AllSections(data, h, prefix).status == Done
    ensures ChangedDirs(data, h, prefix).status == ChangedSysdirs(AllSections(data, h, prefix), h, prefix).status
  {
    RecordInTable(h, h.shstrndx);
  }

  lemma SysdirsStatus(s: Loop, h: Elf, prefix: Bytes)
    requires s.status == Done
    ensures ChangedSysdirs(s, h, prefix).status == Unbound <==> s.sysdirs != Missing && s.lens == Missing
  {
  }

  lemma NothingYet(data: Bytes, h: Elf)
    requires TableInFile(data, h)
    ensures LoopLocal(Loop(data, Missing, Missing, Done), data, h)
  {
  }

  lemma {:induction false} SectionsNeverUnbound(s: Loop, h: Elf, strtab: Bytes, prefix: Bytes, i: nat)
    requires s.status != Unbound
    ensures ChangedSections(s, h, strtab, prefix, i).status != Unbound
    decreases h.shnum - i
  {
    if i < h.shnum && s.status == Done {
      HeaderNeverUnbound(s, h, strtab, prefix, i);
      SectionsNeverUnbound(ChangedHeader(s, h, strtab, prefix, i), h, strtab, prefix, i + 1);
    }
  }

  lemma HeaderNeverUnbound(s: Loop, h: Elf, strtab: Bytes, prefix: Bytes, i: nat)
    requires s.status != Unbound
    ensures ChangedHeader(s, h, strtab, prefix, i).status != Unbound
  {
    var rec := SectionHeader(s.data, h, i);
    if |rec| == ShSize(h) {
      SlotsNeverUnbound(s.data, SectionOf(h, rec).off, SectionOf(h, rec).size, Relocation(prefix), 0);
    }
  }

  lemma {:induction false} SlotsNeverUnbound(data: Bytes, off: nat, size: nat, change: Bytes -> Bytes, done: nat)
    ensures ChangedSlots(data, off, size, change, done).status != Unbound
    decreases size - done
  {
    if done + SLOT <= size {
      SlotsNeverUnbound(ChangedSlot(data, off + done, change).data, off, size, change, done + SLOT);
    }
  }

  lemma DirsUnfinished(data: Bytes, h: Elf, prefix: Bytes)
    requires TableInFile(data, h) && AllSections(data, h, prefix).status != Done
    ensures ChangedDirs(data, h, prefix).status == AllSections(data, h, prefix).status
  {
    RecordInTable(h, h.shstrndx);
  }

  /** `change_dl_sysdirs` ends on the unset `sysdirslen` if and only if all sections get done, there is a section
      .sysdirs, and there is none .sysdirslen. */
  lemma UnboundIff(data: Bytes, h: Elf, prefix: Bytes)
    requires Sane(data, h)
    ensures ChangedDirs(data, h, prefix).status == Unbound <==>
            && AllSections(data, h, prefix).status == Done
            && NamedFrom(data, h, 0, ".sysdirs") && !NamedFrom(data, h, 0, ".sysdirslen")
  {
    if AllSections(data, h, prefix).status == Done {
      DirsFromSections(data, h, prefix);
      SysdirsStatus(AllSections(data, h, prefix), h, prefix);
      NothingYet(data, h);
      LoopRemembers(Loop(data, Missing, Missing, Done), data, h, prefix, 0);
    } else {
      DirsUnfinished(data, h, prefix);
      SectionsNeverUnbound(Loop(data, Missing, Missing, Done), h, Strtab(data, h), prefix, 0);
    }
  }

  // ---- files with .sysdirs alone ---------------------------------------------------------

  /** Two headers, the second of them of an empty .sysdirs, the file's one PROGBITS section. */
  ghost predicate OneSysdirs(data: Bytes, h: Elf) {
    && TableInFile(data, h) && h.shnum == 2
    && SectionAt(data, h, 0).kind != 1
    && SectionAt(data, h, 1).kind == 1 && SectionAt(data, h, 1).off + SectionAt(data, h, 1).size == 0
    && NameAt(Strtab(data, h), SectionAt(data, h, 1).name) == Ascii(".sysdirs")
  }

  lemma OneNamed(data: Bytes, h: Elf, j: nat, name: string)
    requires OneSysdirs(data, h)
    ensures Named(data, h, j, name) <==> j == 1 && Ascii(name) == Ascii(".sysdirs")
  {
  }

  lemma OneIsSane(data: Bytes, h: Elf)
    requires OneSysdirs(data, h)
    ensures Sane(data, h)
  {
    forall i: nat | i < h.shnum && Touched(data, h, i)
      ensures i == 1
    {
    }
  }

  lemma OneLacksLengths(data: Bytes, h: Elf)
    requires OneSysdirs(data, h)
    ensures NamedFrom(data, h, 0, ".sysdirs") && !NamedFrom(data, h, 0, ".sysdirslen")
  {
    NamesDiffer();
    OneNamed(data, h, 1, ".sysdirs");
    forall j: nat | j < h.shnum
      ensures !Named(data, h, j, ".sysdirslen")
    {
      OneNamed(data, h, j, ".sysdirslen");
    }
  }

  lemma HeaderStays(s: Loop, data: Bytes, h: Elf, prefix: Bytes, i: nat)
    requires Sane(data, h) && LoopLocal(s, data, h) && i < h.shnum && s.status == Done
    requires SectionAt(data, h, i).kind != 1 || Named(data, h, i, ".sysdirs")
    ensures var t := ChangedHeader(s, h, Strtab(data, h), prefix, i); t.status == Done && LoopLocal(t, data, h)
  {
    SameRecord(s.data, data, h, i);
    HeaderLocal(s, data, h, prefix, i);
  }

  lemma TwoHeaders(s: Loop, h: Elf, strtab: Bytes, prefix: Bytes)
    requires h.shnum == 2 && s.status == Done && ChangedHeader(s, h, strtab, prefix, 0).status == Done
    ensures ChangedSections(s, h, strtab, prefix, 0) ==
            ChangedHeader(ChangedHeader(s, h, strtab, prefix, 0), h, strtab, prefix, 1)
  {
    var s1 := ChangedHeader(s, h, strtab, prefix, 0);
    var s2 := ChangedHeader(s1, h, strtab, prefix, 1);
    assert ChangedSections(s2, h, strtab, prefix, 2) == s2;
    assert ChangedSections(s1, h, strtab, prefix, 1) == ChangedSections(s2, h, strtab, prefix, 2);
  }

  lemma OneLoop(data: Bytes, h: Elf, prefix: Bytes)
    requires OneSysdirs(data, h)
    ensures AllSections(data, h, prefix).status == Done
  {
    OneIsSane(data, h);
    OneNamed(data, h, 1, ".sysdirs");
    var s0 := Loop(data, Missing, Missing, Done);
    NothingYet(data, h);
    HeaderStays(s0, data, h, prefix, 0);
    HeaderStays(ChangedHeader(s0, h, Strtab(data, h), prefix, 0), data, h, prefix, 1);
    TwoHeaders(s0, h, Strtab(data, h), prefix);
  }

  lemma OneIsUnbound(data: Bytes, h: Elf, prefix: Bytes)
    requires OneSysdirs(data, h)
    ensures Sane(data, h) && AllSections(data, h, prefix).status == Done && ChangedDirs(data, h, prefix).status == Unbound
  {
    OneIsSane(data, h);
    OneLoop(data, h, prefix);
    OneLacksLengths(data, h);
    UnboundIff(data, h, prefix);
  }
}
