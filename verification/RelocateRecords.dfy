/** relocate_sdk.py reads its records as the ELF format writes them: each record is built field by field, in the
    order of the format, and decoded to what was put in. */
module RelocateRecords {
  import opened Wrappers
  import opened Relocate
  import opened RelocateResults
  import opened RelocateTables
  import opened RelocateWhole
  import opened RelocateHeader

  // ---- numbers in the byte order of the file ---------------------------------------------

  function Written(little: bool, n: nat, w: nat): (b: Bytes)
    ensures |b| == w
  {
    if little then Pack(n, w) else Backwards(Pack(n, w))
  }

  lemma BackwardsTwice(b: Bytes)
    ensures Backwards(Backwards(b)) == b
  {
    forall i | 0 <= i < |b|
      ensures Backwards(Backwards(b))[i] == b[i]
    {
      BackwardsAt(Backwards(b), i);
      BackwardsAt(b, |b| - 1 - i);
    }
  }

  lemma WrittenReads(h: Elf, n: nat, w: nat)
    requires n < Pow256(w)
    ensures Number(h, Written(h.little, n, w)) == n
  {
    PackIsLittle(n, w);
    BigIsBackwards(Backwards(Pack(n, w)));
    BackwardsTwice(Pack(n, w));
  }

  // ---- records ---------------------------------------------------------------------------

  /** A field: its value and its width in bytes. */
  datatype Item = Item(value: nat, width: nat)

  predicate Fit(items: seq<Item>) {
    forall i | 0 <= i < |items| :: items[i].value < Pow256(items[i].width)
  }

  function Offset(items: seq<Item>, k: nat): nat
    requires k <= |items|
  {
    if k == 0 then 0 else Offset(items, k - 1) + items[k - 1].width
  }

  /** The first `k` fields, one after the other. */
  function Packed(little: bool, items: seq<Item>, k: nat): (b: Bytes)
    requires k <= |items|
    ensures |b| == Offset(items, k)
  {
    if k == 0 then [] else Packed(little, items, k - 1) + Written(little, items[k - 1].value, items[k - 1].width)
  }

  function Record(little: bool, items: seq<Item>): (b: Bytes)
    ensures |b| == Offset(items, |items|)
  {
    Packed(little, items, |items|)
  }

  /** The piece `b` stands at `at`. */
  predicate Holds(data: Bytes, at: nat, b: Bytes) {
    at + |b| <= |data| && data[at..at + |b|] == b
  }

  lemma HoldsLast(a: Bytes, b: Bytes)
    ensures Holds(a + b, |a|, b)
  {
  }

  lemma HoldsMore(a: Bytes, at: nat, b: Bytes, more: Bytes)
    requires Holds(a, at, b)
    ensures Holds(a + more, at, b)
  {
    assert (a + more)[at..at + |b|] == a[at..at + |b|];
  }

  lemma HoldsInside(data: Bytes, at: nat, rec: Bytes, lo: nat, b: Bytes)
    requires Holds(data, at, rec) && Holds(rec, lo, b)
    ensures Holds(data, at + lo, b)
  {
    forall j | 0 <= j < |b|
      ensures data[at + lo + j] == b[j]
    {
      assert rec[lo..lo + |b|][j] == b[j] && data[at..at + |rec|][lo + j] == rec[lo + j];
    }
  }

  /** Field `k` in the first `m`. */
  lemma {:induction false} PieceOf(little: bool, items: seq<Item>, k: nat, m: nat)
    requires k < m <= |items|
    ensures Holds(Packed(little, items, m), Offset(items, k), Written(little, items[k].value, items[k].width))
    decreases m
  {
    var last := Written(little, items[m - 1].value, items[m - 1].width);
    if k == m - 1 {
      HoldsLast(Packed(little, items, k), last);
    } else {
      PieceOf(little, items, k, m - 1);
      HoldsMore(Packed(little, items, m - 1), Offset(items, k), Written(little, items[k].value, items[k].width), last);
    }
  }

  /** The number read at `at`, as wide as the field, is its value. */
  predicate Reads(h: Elf, data: Bytes, at: nat, item: Item) {
    at + item.width <= |data| && Field(h, data, at, item.width) == item.value
  }

  lemma HeldReads(h: Elf, data: Bytes, at: nat, item: Item)
    requires item.value < Pow256(item.width) && Holds(data, at, Written(h.little, item.value, item.width))
    ensures Reads(h, data, at, item)
  {
    WrittenReads(h, item.value, item.width);
  }

  lemma HeldInside(h: Elf, data: Bytes, at: nat, rec: Bytes, lo: nat, item: Item)
    requires item.value < Pow256(item.width) && Holds(data, at, rec) && Holds(rec, lo, Written(h.little, item.value, item.width))
    ensures Reads(h, data, at + lo, item)
  {
    HoldsInside(data, at, rec, lo, Written(h.little, item.value, item.width));
    HeldReads(h, data, at + lo, item);
  }

  lemma RecordHolds(little: bool, items: seq<Item>, k: nat, item: Item)
    requires k < |items| && item == items[k]
    ensures Holds(Record(little, items), Offset(items, k), Written(little, item.value, item.width))
  {
    PieceOf(little, items, k, |items|);
  }

  /** A field that starts `lo` bytes into a record, which stands at `at` in some data. */
  lemma FieldReads(h: Elf, items: seq<Item>, k: nat, item: Item, lo: nat, data: Bytes, rec: Bytes, at: nat)
    requires k < |items| && item == items[k] && item.value < Pow256(item.width) && lo == Offset(items, k)
    requires rec == Record(h.little, items) && Holds(data, at, rec)
    ensures Reads(h, data, at + lo, item)
  {
    RecordHolds(h.little, items, k, item);
    HeldInside(h, data, at, rec, lo, item);
  }

  /** One field of a record on its own. */
  lemma RecordField(h: Elf, items: seq<Item>, k: nat, lo: nat)
    requires Fit(items) && k < |items| && lo == Offset(items, k)
    ensures Reads(h, Record(h.little, items), lo, items[k])
  {
    InRecord(h, items, k, items[k], lo, Record(h.little, items));
  }

  lemma InRecord(h: Elf, items: seq<Item>, k: nat, item: Item, lo: nat, rec: Bytes)
    requires k < |items| && item == items[k] && item.value < Pow256(item.width) && lo == Offset(items, k)
    requires rec == Record(h.little, items)
    ensures Reads(h, rec, lo, item)
  {
    WholeHolds(rec);
    FieldReads(h, items, k, item, lo, rec, rec, 0);
  }

  lemma WholeHolds(rec: Bytes)
    ensures Holds(rec, 0, rec)
  {
    assert rec[0..|rec|] == rec;
  }

  // ---- program headers -------------------------------------------------------------------

  datatype ProgramEntry = ProgramEntry(kind: nat, flags: nat, off: nat, vaddr: nat, paddr: nat, filesz: nat, memsz: nat, align: nat)

  /** Elf32_Phdr and Elf64_Phdr. */
  function ProgramItems(is64: bool, p: ProgramEntry): seq<Item> {
    if is64 then
      [Item(p.kind, 4), Item(p.flags, 4), Item(p.off, 8), Item(p.vaddr, 8), Item(p.paddr, 8), Item(p.filesz, 8),
       Item(p.memsz, 8), Item(p.align, 8)]
    else
      [Item(p.kind, 4), Item(p.off, 4), Item(p.vaddr, 4), Item(p.paddr, 4), Item(p.filesz, 4), Item(p.memsz, 4),
       Item(p.flags, 4), Item(p.align, 4)]
  }

  lemma EightOffsets(items: seq<Item>)
    requires |items| >= 8
    ensures Offset(items, 1) == items[0].width && Offset(items, 2) == Offset(items, 1) + items[1].width
    ensures Offset(items, 3) == Offset(items, 2) + items[2].width && Offset(items, 4) == Offset(items, 3) + items[3].width
    ensures Offset(items, 5) == Offset(items, 4) + items[4].width && Offset(items, 6) == Offset(items, 5) + items[5].width
    ensures Offset(items, 7) == Offset(items, 6) + items[6].width && Offset(items, 8) == Offset(items, 7) + items[7].width
  {
    assert Offset(items, 0) == 0;
  }

  /** Type, offset and file size, of either class and byte order. */
  lemma SegmentDecoded(h: Elf, p: ProgramEntry)
    requires Fit(ProgramItems(h.is64, p))
    ensures var rec := Record(h.little, ProgramItems(h.is64, p));
            |rec| == PhSize(h) && SegmentOf(h, rec) == Segment(p.kind, p.off, p.filesz)
  {
    var items := ProgramItems(h.is64, p);
    EightOffsets(items);
    RecordField(h, items, 0, 0);
    RecordField(h, items, if h.is64 then 2 else 1, if h.is64 then 8 else 4);
    RecordField(h, items, if h.is64 then 5 else 4, if h.is64 then 32 else 16);
  }

  // ---- section headers -------------------------------------------------------------------

  datatype SectionEntry = SectionEntry(name: nat, kind: nat, flags: nat, addr: nat, off: nat, size: nat, link: nat, info: nat,
                                       align: nat, entsize: nat)

  /** Elf32_Shdr and Elf64_Shdr. */
  function SectionItems(is64: bool, s: SectionEntry): seq<Item> {
    var w := if is64 then 8 else 4;
    [Item(s.name, 4), Item(s.kind, 4), Item(s.flags, w), Item(s.addr, w), Item(s.off, w), Item(s.size, w), Item(s.link, 4),
     Item(s.info, 4), Item(s.align, w), Item(s.entsize, w)]
  }

  lemma SectionDecoded(h: Elf, s: SectionEntry)
    requires Fit(SectionItems(h.is64, s))
    ensures var rec := Record(h.little, SectionItems(h.is64, s));
            |rec| == ShSize(h) && SectionOf(h, rec) == Section(s.name, s.kind, s.off, s.size)
  {
    var items := SectionItems(h.is64, s);
    EightOffsets(items);
    assert Offset(items, 9) == Offset(items, 8) + items[8].width && Offset(items, 10) == Offset(items, 9) + items[9].width;
    RecordField(h, items, 0, 0);
    RecordField(h, items, 1, 4);
    RecordField(h, items, 4, if h.is64 then 24 else 16);
    RecordField(h, items, 5, if h.is64 then 32 else 20);
  }

  // ---- the file header -------------------------------------------------------------------

  datatype FileEntry = FileEntry(kind: nat, machine: nat, version: nat, entry: nat, phoff: nat, shoff: nat, flags: nat, ehsize: nat,
                                 phentsize: nat, phnum: nat, shentsize: nat, shnum: nat, shstrndx: nat)

  /** What follows the 16 bytes of e_ident in Elf32_Ehdr and Elf64_Ehdr. */
  function FileItems(is64: bool, e: FileEntry): seq<Item> {
    var w := if is64 then 8 else 4;
    [Item(e.kind, 2), Item(e.machine, 2), Item(e.version, 4), Item(e.entry, w), Item(e.phoff, w), Item(e.shoff, w), Item(e.flags, 4),
     Item(e.ehsize, 2), Item(e.phentsize, 2), Item(e.phnum, 2), Item(e.shentsize, 2), Item(e.shnum, 2), Item(e.shstrndx, 2)]
  }

  lemma FileOffsets(items: seq<Item>)
    requires |items| == 13
    ensures Offset(items, 9) == Offset(items, 8) + items[8].width && Offset(items, 10) == Offset(items, 9) + items[9].width
    ensures Offset(items, 11) == Offset(items, 10) + items[10].width && Offset(items, 12) == Offset(items, 11) + items[11].width
    ensures Offset(items, 13) == Offset(items, 12) + items[12].width
  {
  }

  /** One field of the header. */
  lemma HeaderField(h: Elf, data: Bytes, items: seq<Item>, k: nat, lo: nat)
    requires Fit(items) && k < |items| && lo == Offset(items, k) && Holds(data, 16, Record(h.little, items))
    ensures Reads(h, data, 16 + lo, items[k])
  {
    FieldReads(h, items, k, items[k], lo, data, Record(h.little, items), 16);
  }

  /** The header the script reads is the one written after e_ident; the byte order is that of e_ident[EI_DATA]. */
  lemma HeaderDecoded(data: Bytes, is64: bool, e: FileEntry)
    requires |data| >= 64 && Fit(FileItems(is64, e))
    requires Holds(data, 16, Record(data[5] == 1, FileItems(is64, e)))
    ensures HeaderOf(data, is64) == Elf(is64, data[5] == 1, e.phoff, e.phentsize, e.phnum, e.shoff, e.shentsize, e.shnum, e.shstrndx)
  {
    var items := FileItems(is64, e);
    var h := Elf(is64, data[5] == 1, 0, 0, 0, 0, 0, 0, 0);
    EightOffsets(items);
    FileOffsets(items);
    HeaderField(h, data, items, 4, if is64 then 16 else 12);
    HeaderField(h, data, items, 5, if is64 then 24 else 16);
    HeaderField(h, data, items, 8, if is64 then 38 else 26);
    HeaderField(h, data, items, 9, if is64 then 40 else 28);
    HeaderField(h, data, items, 10, if is64 then 42 else 30);
    HeaderField(h, data, items, 11, if is64 then 44 else 32);
    HeaderField(h, data, items, 12, if is64 then 46 else 34);
  }

  // ---- the interpreter in its place ------------------------------------------------------

  /** Program header `i` of the file is this entry. */
  ghost predicate EntryAt(data: Bytes, h: Elf, i: nat, p: ProgramEntry) {
    && Fit(ProgramItems(h.is64, p)) && h.phentsize == PhSize(h) && h.phoff + i * h.phentsize + h.phentsize <= |data|
    && data[h.phoff + i * h.phentsize..h.phoff + i * h.phentsize + h.phentsize] == Record(h.little, ProgramItems(h.is64, p))
  }

  lemma EntryDecoded(data: Bytes, h: Elf, i: nat, p: ProgramEntry)
    requires EntryAt(data, h, i, p)
    ensures HeaderReadable(data, h, i) && SegmentAt(data, h, i) == Segment(p.kind, p.off, p.filesz)
  {
    SegmentDecoded(h, p);
  }

  /** The first entry of type PT_INTERP says where, by its offset in the file, and how much may be written. */
  lemma InterpreterInPlace(data: Bytes, h: Elf, path: Bytes, entries: seq<ProgramEntry>, i: nat)
    requires i < |entries| == h.phnum && forall j | 0 <= j <= i :: EntryAt(data, h, j, entries[j])
    requires entries[i].kind == 3 && (forall j | 0 <= j < i :: entries[j].kind != 3)
    requires entries[i].off + entries[i].filesz <= |data|
    ensures var p, r := entries[i], ChangedInterp(data, h, path, 0);
            var keep := SystemPath(ReadAt(data, p.off, 11)) || p.filesz == 0;
            && |r.data| == |data|
            && (forall k | 0 <= k < |data| && !(p.off <= k < p.off + p.filesz) :: r.data[k] == data[k])
            && (keep ==> r == Patched(data, Done))
            && (!keep && |path| >= p.filesz ==> r == Patched(data, Refused))
            && (!keep && |path| < p.filesz ==> r.status == Done && r.data[p.off..p.off + p.filesz] == Padded(path, p.filesz))
  {
    forall j | 0 <= j <= i
      ensures HeaderReadable(data, h, j) && SegmentAt(data, h, j) == Segment(entries[j].kind, entries[j].off, entries[j].filesz)
    {
      EntryDecoded(data, h, j, entries[j]);
    }
    InterpreterPatch(data, h, path, i);
  }

  /** The script has nothing to do with a file that is shorter than 64 bytes, does not begin with 0x7f or has no known
      class. */
  lemma PassedOverIff(data: Bytes, path: Bytes, prefix: Bytes)
    ensures Passed(data) <==> |data| < 64 || Arch(data).None?
    ensures Passed(data) ==> Process(data, path, prefix) == Processed(data, false, Done, false)
    ensures !Passed(data) ==> Arch(data) == Some(data[4] == 2)
  {
  }

  predicate Passed(data: Bytes) {
    |data| < 64 || data[0] != 127 || (data[4] != 1 && data[4] != 2)
  }

  /** An ELF file of either class with its header and program headers as the gABI lays them out, and one that names
      the interpreter. */
  ghost predicate WellLaid(data: Bytes, is64: bool, e: FileEntry, entries: seq<ProgramEntry>, i: nat) {
    && |data| >= 64 && data[0] == 127 && data[4] == (if is64 then 2 else 1)
    && Fit(FileItems(is64, e)) && Holds(data, 16, Record(data[5] == 1, FileItems(is64, e)))
    && i < |entries| == e.phnum && (forall j | 0 <= j <= i :: EntryAt(data, ElfOf(is64, data[5] == 1, e), j, entries[j]))
    && entries[i].kind == 3 && (forall j | 0 <= j < i :: entries[j].kind != 3)
    && entries[i].off + entries[i].filesz <= |data|
  }

  function ElfOf(is64: bool, little: bool, e: FileEntry): Elf {
    Elf(is64, little, e.phoff, e.phentsize, e.phnum, e.shoff, e.shentsize, e.shnum, e.shstrndx)
  }

  /** The new path stands in the segment with NULs behind it, and nothing else has changed. */
  predicate Replaced(data: Bytes, d: Bytes, path: Bytes, p: ProgramEntry) {
    && |d| == |data| && p.off + p.filesz <= |d| && d[p.off..p.off + p.filesz] == Padded(path, p.filesz)
    && forall k | 0 <= k < |data| && !(p.off <= k < p.off + p.filesz) :: d[k] == data[k]
  }

  /** The bytes with the interpreter replaced, unless it is left alone or has no room. */
  predicate AfterInterpreter(data: Bytes, d: Bytes, path: Bytes, p: ProgramEntry) {
    if LeftAlone(data, p) || |path| >= p.filesz then d == data else Replaced(data, d, path, p)
  }

  predicate LeftAlone(data: Bytes, p: ProgramEntry) {
    SystemPath(ReadAt(data, p.off, 11)) || p.filesz == 0
  }

  /** Such a file from end to end: the interpreter is replaced, unless it is left alone or has no room, and only
      this last is an error; the install paths are changed in any case. */
  lemma FileFromEndToEnd(data: Bytes, is64: bool, e: FileEntry, entries: seq<ProgramEntry>, i: nat, path: Bytes, prefix: Bytes)
    requires WellLaid(data, is64, e, entries, i)
    ensures var p, out, h := entries[i], Process(data, path, prefix), ElfOf(is64, data[5] == 1, e);
            && (out.errors <==> !LeftAlone(data, p) && |path| >= p.filesz)
            && (out.grown <==> out.status == Done && |out.data| != |data|)
            && exists d: Bytes :: AfterInterpreter(data, d, path, p) && Patched(out.data, out.status) == ChangedDirs(d, h, prefix)
  {
    var h := ElfOf(is64, data[5] == 1, e);
    HeaderTaken(data, is64, e, path, prefix);
    InterpreterDone(data, h, path, entries, i);
    BothInTurn(data, h, path, prefix);
  }

  /** The file is taken with the header written in it. */
  lemma HeaderTaken(data: Bytes, is64: bool, e: FileEntry, path: Bytes, prefix: Bytes)
    requires |data| >= 64 && data[0] == 127 && data[4] == (if is64 then 2 else 1)
    requires Fit(FileItems(is64, e)) && Holds(data, 16, Record(data[5] == 1, FileItems(is64, e)))
    ensures var r := RelocatedExecutable(data, ElfOf(is64, data[5] == 1, e), path, prefix);
            Process(data, path, prefix) == Processed(r.data, r.errors, r.status, r.status == Done && |r.data| != |data|)
  {
    HeaderDecoded(data, is64, e);
    PassedOverIff(data, path, prefix);
  }

  lemma InterpreterDone(data: Bytes, h: Elf, path: Bytes, entries: seq<ProgramEntry>, i: nat)
    requires i < |entries| == h.phnum && forall j | 0 <= j <= i :: EntryAt(data, h, j, entries[j])
    requires entries[i].kind == 3 && (forall j | 0 <= j < i :: entries[j].kind != 3)
    requires entries[i].off + entries[i].filesz <= |data|
    ensures var p, r := entries[i], ChangedInterp(data, h, path, 0);
            && AfterInterpreter(data, r.data, path, p) && r.status != BadHeader
            && (r.status == Refused <==> !LeftAlone(data, p) && |path| >= p.filesz)
  {
    InterpreterInPlace(data, h, path, entries, i);
  }

  lemma BothInTurn(data: Bytes, h: Elf, path: Bytes, prefix: Bytes)
    requires ChangedInterp(data, h, path, 0).status != BadHeader
    ensures var p, q := ChangedInterp(data, h, path, 0), RelocatedExecutable(data, h, path, prefix);
            Patched(q.data, q.status) == ChangedDirs(p.data, h, prefix) && (q.errors <==> p.status == Refused)
  {
  }

  // ---- which interpreters are left alone -------------------------------------------------

  function LibDir(usr: bool, bits: string): Bytes {
    Ascii(if usr then "/usr/lib" else "/lib") + Ascii(bits) + Ascii("/")
  }

  /** Left alone is what starts with "/lib", alone or with 32 or 64 behind it, and below /usr only with one of
      these. */
  lemma SystemPathIff(fname: Bytes)
    ensures SystemPath(fname) <==>
            || LibDir(false, "") <= fname || LibDir(false, "32") <= fname || LibDir(false, "64") <= fname
            || LibDir(true, "32") <= fname || LibDir(true, "64") <= fname
  {
    assert LibDir(false, "") == Ascii("/lib/") && LibDir(false, "32") == Ascii("/lib32/") && LibDir(false, "64") == Ascii("/lib64/");
    assert LibDir(true, "32") == Ascii("/usr/lib32/") && LibDir(true, "64") == Ascii("/usr/lib64/");
  }

  lemma Letters()
    ensures |LibDir(true, "")| == 9 && LibDir(true, "")[1] == 117 && LibDir(true, "")[8] == 47
    ensures |Ascii("/lib/")| == 5 && |Ascii("/lib32/")| == |Ascii("/lib64/")| == 7
    ensures Ascii("/lib/")[1] == Ascii("/lib32/")[1] == Ascii("/lib64/")[1] == 108
    ensures |Ascii("/usr/lib32/")| == |Ascii("/usr/lib64/")| == 11
    ensures Ascii("/usr/lib32/")[8] == 51 && Ascii("/usr/lib64/")[8] == 54
  {
  }

  /** An interpreter in /usr/lib is not: the list has "/usr/lib32/" twice instead. */
  lemma UsrLibIsMissing(fname: Bytes)
    requires LibDir(true, "") <= fname
    ensures !SystemPath(fname)
  {
    Letters();
    assert fname[1] == LibDir(true, "")[1] && fname[8] == LibDir(true, "")[8];
  }
}
