/** relocate_sdk.py: one executable through both patches. */
module RelocateWhole {
  import opened Relocate
  import opened RelocateResults

  datatype Outcome = Outcome(data: Bytes, errors: bool, status: Status)

  /** `change_interpreter`, whose refusal is noted, and then `change_dl_sysdirs`. */
  function RelocatedExecutable(data: Bytes, h: Elf, path: Bytes, prefix: Bytes): Outcome {
    var p := ChangedInterp(data, h, path, 0);
    if p.status == BadHeader then Outcome(p.data, false, BadHeader)
    else
      var q := ChangedDirs(p.data, h, prefix);
      Outcome(q.data, p.status == Refused, q.status)
  }

  method RelocateExecutable(f: BinaryFile, h: Elf, newDlPath: Bytes, newPrefix: Bytes)
    returns (errors: bool, status: Status)
    modifies f
    ensures Outcome(f.data, errors, status) == RelocatedExecutable(old(f.data), h, newDlPath, newPrefix)
  {
    errors := false;
    status := ChangeInterpreter(f, h, newDlPath);
    if status == BadHeader {
      return;
    }
    if status == Refused {
      errors := true;
    }
    status := ChangeDlSysdirs(f, h, newPrefix);
  }

  /** The segment lies inside the file, away from the section header table and the section names. */
  ghost predicate SegmentClear(data: Bytes, h: Elf, p: Segment)
    requires TableInFile(data, h)
  {
    var names := SectionAt(data, h, h.shstrndx);
    && p.off + p.size <= |data|
    && (p.off + p.size <= h.shoff || h.shoff + h.shnum * h.shentsize <= p.off)
    && names.off + names.size <= |data|
    && (p.off + p.size <= names.off || names.off + names.size <= p.off)
  }

  ghost predicate SameOutside(d: Bytes, data: Bytes, off: nat, size: nat) {
    |d| == |data| && forall k | 0 <= k < |data| && !(off <= k < off + size) :: d[k] == data[k]
  }

  lemma SameElsewhere(d: Bytes, data: Bytes, off: nat, size: nat, lo: nat, hi: nat)
    requires SameOutside(d, data, off, size) && lo <= hi <= |data| && (off + size <= lo || hi <= off)
    ensures d[lo..hi] == data[lo..hi]
  {
    assert forall k | lo <= k < hi :: d[k] == data[k];
  }

  lemma HeadersStay(d: Bytes, data: Bytes, h: Elf, p: Segment, i: nat)
    requires TableInFile(data, h) && SegmentClear(data, h, p) && SameOutside(d, data, p.off, p.size) && i < h.shnum
    ensures TableInFile(d, h) && Record(d, h, i) == Record(data, h, i) && SectionAt(d, h, i) == SectionAt(data, h, i)
  {
    RecordInTable(h, i);
    var at := h.shoff + i * h.shentsize;
    SameElsewhere(d, data, p.off, p.size, at, at + h.shentsize);
  }

  lemma StrtabIs(data: Bytes, h: Elf)
    requires TableInFile(data, h)
    ensures Strtab(data, h) == ReadAt(data, SectionAt(data, h, h.shstrndx).off, SectionAt(data, h, h.shstrndx).size)
  {
    RecordInTable(h, h.shstrndx);
  }

  lemma ReadInside(data: Bytes, off: nat, size: nat)
    requires off + size <= |data|
    ensures ReadAt(data, off, size) == data[off..off + size]
  {
  }

  lemma NamesStay(d: Bytes, data: Bytes, h: Elf, p: Segment)
    requires TableInFile(data, h) && SegmentClear(data, h, p) && SameOutside(d, data, p.off, p.size)
    ensures TableInFile(d, h) && Strtab(d, h) == Strtab(data, h)
  {
    HeadersStay(d, data, h, p, h.shstrndx);
    StrtabIs(data, h);
    StrtabIs(d, h);
    var names := SectionAt(data, h, h.shstrndx);
    ReadInside(data, names.off, names.size);
    ReadInside(d, names.off, names.size);
    SameElsewhere(d, data, p.off, p.size, names.off, names.off + names.size);
  }

  lemma SectionsStay(d: Bytes, data: Bytes, h: Elf, p: Segment)
    requires Sane(data, h) && SegmentClear(data, h, p) && SameOutside(d, data, p.off, p.size)
    ensures Sane(d, h)
    ensures forall i: nat | i < h.shnum :: SectionAt(d, h, i) == SectionAt(data, h, i) && (Touched(d, h, i) <==> Touched(data, h, i))
  {
    NamesStay(d, data, h, p);
    forall i: nat | i < h.shnum
      ensures SectionAt(d, h, i) == SectionAt(data, h, i) && (Touched(d, h, i) <==> Touched(data, h, i))
    {
      HeadersStay(d, data, h, p, i);
    }
  }

  /** Without a PT_INTERP entry the first patch changes nothing. */
  lemma {:induction false} NoInterp(data: Bytes, h: Elf, path: Bytes, i: nat)
    requires (forall j | 0 <= j < i :: PassedOver(data, h, j)) && forall j: nat :: !FirstInterp(data, h, j)
    ensures ChangedInterp(data, h, path, i).data == data
    decreases h.phnum - i
  {
    if i < h.phnum && HeaderReadable(data, h, i) {
      assert !FirstInterp(data, h, i);
      NoInterp(data, h, path, i + 1);
    }
  }

  lemma {:induction false} BadHeaderKeeps(data: Bytes, h: Elf, path: Bytes, i: nat)
    requires ChangedInterp(data, h, path, i).status == BadHeader
    ensures ChangedInterp(data, h, path, i).data == data
    decreases h.phnum - i
  {
    if i < h.phnum && HeaderReadable(data, h, i) && SegmentAt(data, h, i).kind != 3 {
      BadHeaderKeeps(data, h, path, i + 1);
    }
  }

  /** The first PT_INTERP segment, if there is one, is clear of what the second patch reads. */
  ghost predicate InterpClear(data: Bytes, h: Elf)
    requires TableInFile(data, h)
  {
    forall i: nat | FirstInterp(data, h, i) :: SegmentClear(data, h, SegmentAt(data, h, i))
  }

  /** `k` is in the first PT_INTERP segment. */
  ghost predicate InInterp(data: Bytes, h: Elf, k: int) {
    exists i: nat :: FirstInterp(data, h, i) && SegmentAt(data, h, i).off <= k < SegmentAt(data, h, i).off + SegmentAt(data, h, i).size
  }

  /** The file after the first patch has the same sections. */
  ghost predicate SameSections(d: Bytes, data: Bytes, h: Elf)
    requires TableInFile(data, h)
  {
    && Sane(d, h) && |d| == |data|
    && (forall k | 0 <= k < |data| && !InInterp(data, h, k) :: d[k] == data[k])
    && (forall k | Outside(data, h, k) :: Outside(d, h, k))
  }

  lemma OutsideStays(d: Bytes, data: Bytes, h: Elf)
    requires TableInFile(data, h) && TableInFile(d, h)
    requires forall i: nat | i < h.shnum :: SectionAt(d, h, i) == SectionAt(data, h, i) && (Touched(d, h, i) <==> Touched(data, h, i))
    ensures forall k | Outside(data, h, k) :: Outside(d, h, k)
  {
  }

  lemma InterpKeepsSections(data: Bytes, h: Elf, path: Bytes)
    requires Sane(data, h) && InterpClear(data, h)
    ensures SameSections(ChangedInterp(data, h, path, 0).data, data, h)
  {
    if i: nat :| FirstInterp(data, h, i) {
      var p, d := SegmentAt(data, h, i), ChangedInterp(data, h, path, 0).data;
      InterpreterPatch(data, h, path, i);
      assert SameOutside(d, data, p.off, p.size);
      SectionsStay(d, data, h, p);
      OutsideStays(d, data, h);
      assert forall k | 0 <= k < |data| && !InInterp(data, h, k) :: !(p.off <= k < p.off + p.size);
    } else {
      NoInterp(data, h, path, 0);
    }
  }

  /** The finished file against the first: `s` is where the loop over the sections ends. */
  ghost predicate Reaches(last: Bytes, data: Bytes, h: Elf, s: Loop, prefix: Bytes)
    requires TableInFile(data, h)
  {
    && |last| >= |data|
    && (|last| == |data| <==> (WritesTables(s) ==> TablesInside(data, h, s, prefix)))
    && forall k | 0 <= k < |data| && !InInterp(data, h, k) && Outside(data, h, k) && !(WritesTables(s) && InTables(s, h, prefix, k)) ::
         last[k] == data[k]
  }

  lemma SecondPatchReaches(d: Bytes, data: Bytes, h: Elf, prefix: Bytes)
    requires TableInFile(data, h) && SameSections(d, data, h)
    ensures Reaches(ChangedDirs(d, h, prefix).data, data, h, AllSections(d, h, prefix), prefix)
  {
    RelocationReach(d, h, prefix);
    var s, last := AllSections(d, h, prefix), ChangedDirs(d, h, prefix).data;
    if !WritesTables(s) {
      LocalOutside(last, d, h);
    }
  }

  /** One executable through both patches, with or without an interpreter, whatever its tables: outside the
      PT_INTERP segment, the four kinds of sections and what the tables are written over, no byte changes; and
      the size stays if and only if no table ends past the file, which is all the test at the end can see. */
  lemma WholeReach(data: Bytes, h: Elf, path: Bytes, prefix: Bytes)
    requires Sane(data, h) && InterpClear(data, h)
    requires ChangedInterp(data, h, path, 0).status != BadHeader
    ensures var d := ChangedInterp(data, h, path, 0).data;
            && TableInFile(d, h)
            && Reaches(RelocatedExecutable(data, h, path, prefix).data, data, h, AllSections(d, h, prefix), prefix)
  {
    InterpKeepsSections(data, h, path);
    SecondPatchReaches(ChangedInterp(data, h, path, 0).data, data, h, prefix);
  }

  /** If the program headers cannot be read nothing changes at all. */
  lemma UnreadableIsKept(data: Bytes, h: Elf, path: Bytes, prefix: Bytes)
    requires ChangedInterp(data, h, path, 0).status == BadHeader
    ensures RelocatedExecutable(data, h, path, prefix) == Outcome(data, false, BadHeader)
  {
    BadHeaderKeeps(data, h, path, 0);
  }

  /** Where the tables do no harm, both patches keep the size and change nothing outside the PT_INTERP segment and
      the four kinds of sections. */
  lemma WholeIsLocal(data: Bytes, h: Elf, path: Bytes, prefix: Bytes)
    requires Sane(data, h) && InterpClear(data, h)
    requires var d := ChangedInterp(data, h, path, 0).data; TableInFile(d, h) ==> HarmlessIn(d, h, prefix)
    ensures var last := RelocatedExecutable(data, h, path, prefix).data;
            && |last| == |data|
            && forall k | 0 <= k < |data| && !InInterp(data, h, k) && Outside(data, h, k) :: last[k] == data[k]
  {
    InterpKeepsSections(data, h, path);
    var d := ChangedInterp(data, h, path, 0).data;
    LocalIff(d, h, prefix);
    if Local(ChangedDirs(d, h, prefix).data, d, h) {
      LocalOutside(ChangedDirs(d, h, prefix).data, d, h);
    }
  }

  /** No table is written, or the tables do no harm. */
  ghost predicate HarmlessIn(d: Bytes, h: Elf, prefix: Bytes)
    requires TableInFile(d, h)
  {
    var s := AllSections(d, h, prefix);
    WritesTables(s) ==> Harmless(d, h, s, prefix)
  }
}
