/** Two files the script accepts: one that ends it on an unset variable, and one whose table is written over a
    section that is none of its business. */
module RelocateExamples {
  import opened Wrappers
  import opened Relocate
  import opened RelocateResults
  import opened RelocateContents
  import opened RelocateTables
  import opened RelocateUnbound
  import opened RelocateWhole
  import opened RelocateHeader

  // ---- a 32-bit little-endian file -------------------------------------------------------

  /** Byte `k` of the ELF header: `shnum` section headers at `shoff`, the first for the names, no program
      headers. */
  function HeaderByte(k: nat, shoff: Byte, shnum: Byte): Byte {
    match k
    case 0 => 0x7f
    case 1 => 69                  // "ELF"
    case 2 => 76
    case 3 => 70
    case 4 => 1                   // 32 bits
    case 5 => 1                   // little-endian
    case 6 => 1
    case 16 => 3                  // a shared object
    case 18 => 3
    case 20 => 1
    case 32 => shoff
    case 40 => 52
    case 42 => 32
    case 46 => 40
    case 48 => shnum
    case _ => 0
  }

  function ElfHeader(shoff: Byte, shnum: Byte): (b: Bytes)
    ensures |b| == 52
  {
    seq(52, k requires 0 <= k < 52 => HeaderByte(k, shoff, shnum))
  }

  lemma LittleTwo(a: Byte, b: Byte)
    ensures Little([a, b]) == a + 256 * b
  {
    assert [a, b][1..] == [b] && [b][1..] == [];
    assert Little([]) == 0 && Little([b]) == b;
  }

  lemma LittleFour(a: Byte)
    ensures Little([a, 0, 0, 0]) == a
  {
    assert [a, 0, 0, 0][1..] == [0, 0, 0] && [0, 0, 0][1..] == [0, 0];
    LittleTwo(0, 0);
    assert Little([0, 0, 0]) == 0;
  }

  lemma ReadTwo(h: Elf, data: Bytes, at: nat, a: Byte)
    requires h.little && at + 2 <= |data| && data[at] == a && data[at + 1] == 0
    ensures Field(h, data, at, 2) == a
  {
    assert data[at..at + 2] == [a, 0];
    LittleTwo(a, 0);
  }

  lemma ReadFour(h: Elf, data: Bytes, at: nat, a: Byte)
    requires h.little && at + 4 <= |data| && data[at] == a && data[at + 1] == data[at + 2] == data[at + 3] == 0
    ensures Field(h, data, at, 4) == a
  {
    assert data[at..at + 4] == [a, 0, 0, 0];
    LittleFour(a);
  }

  function HeaderFor(shoff: nat, shnum: nat): Elf {
    Elf(false, true, 0, 32, 0, shoff, 40, shnum, 0)
  }

  /** The bytes that `get_arch` and `parse_elf_header` look at. */
  ghost predicate Headed(data: Bytes, shoff: Byte, shnum: Byte) {
    && |data| >= 64 && data[0] == 0x7f && data[4] == 1 && data[5] == 1
    && data[28] == data[29] == data[30] == data[31] == 0
    && data[32] == shoff && data[33] == data[34] == data[35] == 0
    && data[42] == 32 && data[43] == 0 && data[44] == data[45] == 0 && data[46] == 40 && data[47] == 0
    && data[48] == shnum && data[49] == 0 && data[50] == data[51] == 0
  }

  lemma HeaderIsHead(data: Bytes, shoff: Byte, shnum: Byte)
    requires |data| >= 64 && ElfHeader(shoff, shnum) <= data
    ensures Headed(data, shoff, shnum)
  {
    var head := ElfHeader(shoff, shnum);
    assert data[..52] == head;
    assert forall k | 0 <= k < 52 :: data[k] == data[..52][k];
  }

  lemma FieldsRead(data: Bytes, shoff: Byte, shnum: Byte)
    requires Headed(data, shoff, shnum)
    ensures HeaderOf(data, false) == HeaderFor(shoff, shnum)
  {
    var h := Elf(false, true, 0, 0, 0, 0, 0, 0, 0);
    ReadFour(h, data, 28, 0);
    ReadTwo(h, data, 42, 32);
    ReadTwo(h, data, 44, 0);
    ReadFour(h, data, 32, shoff);
    ReadTwo(h, data, 46, 40);
    ReadTwo(h, data, 48, shnum);
    ReadTwo(h, data, 50, 0);
  }

  /** The script takes the file for a 32-bit one and reads these fields. */
  lemma HeaderReads(data: Bytes, shoff: Byte, shnum: Byte)
    requires |data| >= 64 && ElfHeader(shoff, shnum) <= data
    ensures Arch(data) == Some(false) && HeaderOf(data, false) == HeaderFor(shoff, shnum)
  {
    HeaderIsHead(data, shoff, shnum);
    FieldsRead(data, shoff, shnum);
  }

  /** A section header. */
  function Header32(sec: Section): (r: Bytes)
    ensures |r| == 40
  {
    Pack(sec.name, 4) + Pack(sec.kind, 4) + Zeros(8) + Pack(sec.off, 4) + Pack(sec.size, 4) + Zeros(16)
  }

  predicate Small(sec: Section) {
    sec.name < 256 && sec.kind < 256 && sec.off < 256 && sec.size < 256
  }

  lemma SixParts(a: Bytes, b: Bytes, c: Bytes, d: Bytes, e: Bytes, f: Bytes)
    requires |a| == |b| == |d| == |e| == 4 && |c| == 8
    ensures var r := a + b + c + d + e + f; r[0..4] == a && r[4..8] == b && r[16..20] == d && r[20..24] == e
  {
  }

  lemma PackedReads(h: Elf, rec: Bytes, at: nat, n: nat)
    requires h.little && n < 256 && at + 4 <= |rec| && rec[at..at + 4] == Pack(n, 4)
    ensures Field(h, rec, at, 4) == n
  {
    assert Pow256(4) >= 256;
    PackIsLittle(n, 4);
  }

  lemma Header32Reads(h: Elf, sec: Section)
    requires !h.is64 && h.little && Small(sec)
    ensures SectionOf(h, Header32(sec)) == sec
  {
    var r := Header32(sec);
    SixParts(Pack(sec.name, 4), Pack(sec.kind, 4), Zeros(8), Pack(sec.off, 4), Pack(sec.size, 4), Zeros(16));
    PackedReads(h, r, 0, sec.name);
    PackedReads(h, r, 4, sec.kind);
    PackedReads(h, r, 16, sec.off);
    PackedReads(h, r, 20, sec.size);
  }

  /** A section header in its place. */
  lemma SectionReads(data: Bytes, h: Elf, i: nat, sec: Section)
    requires TableInFile(data, h) && i < h.shnum && !h.is64 && h.little && Small(sec)
    requires h.shoff + i * 40 + 40 <= |data| && data[h.shoff + i * 40..h.shoff + i * 40 + 40] == Header32(sec)
    ensures SectionAt(data, h, i) == sec
  {
    RecordInTable(h, i);
    Header32Reads(h, sec);
  }

  /** What stands between two parts of a file. */
  lemma Between(data: Bytes, a: Bytes, b: Bytes, c: Bytes)
    requires data == a + b + c
    ensures data[|a|..|a| + |b|] == b && a <= data
  {
  }

  /** A name in a string table. */
  lemma NameReads(strtab: Bytes, at: nat, name: Bytes)
    requires at + |name| < |strtab| && strtab[at..at + |name|] == name && strtab[at + |name|] == 0 && 0 !in name
    ensures NameAt(strtab, at) == name
  {
    FindNulBounds(strtab, at);
    assert forall k | at <= k < at + |name| :: strtab[k] == name[k - at] && strtab[k] in name;
    assert FindNul(strtab, at) == at + |name|;
  }

  lemma StrtabReads(data: Bytes, h: Elf, off: nat, names: Bytes)
    requires TableInFile(data, h) && h.shstrndx == 0
    requires SectionAt(data, h, 0).off == off && SectionAt(data, h, 0).size == |names|
    requires off + |names| <= |data| && data[off..off + |names|] == names
    ensures Strtab(data, h) == names
  {
    StrtabIs(data, h);
  }

  lemma NoPrograms(data: Bytes, h: Elf, path: Bytes, prefix: Bytes)
    requires |data| >= 64 && Arch(data) == Some(h.is64) && HeaderOf(data, h.is64) == h && h.phnum == 0
    ensures var q := ChangedDirs(data, h, prefix);
            Process(data, path, prefix) == Processed(q.data, false, q.status, q.status == Done && |q.data| != |data|)
  {
  }

  // ---- .sysdirs without .sysdirslen ------------------------------------------------------

  const SMALL_NAMES: Bytes := [0] + Ascii(".sysdirs") + [0]

  /** The header, the names, the header of the names' section and that of an empty .sysdirs. */
  function SmallFile(): Bytes {
    ElfHeader(62, 2) + SMALL_NAMES + (Header32(Section(0, 3, 52, 10)) + Header32(Section(1, 1, 0, 0)))
  }

  lemma SmallFileParts()
    ensures |SMALL_NAMES| == 10 && |SmallFile()| == 142 && ElfHeader(62, 2) <= SmallFile()
    ensures SmallFile()[52..62] == SMALL_NAMES
    ensures SmallFile()[62..102] == Header32(Section(0, 3, 52, 10)) && SmallFile()[102..142] == Header32(Section(1, 1, 0, 0))
  {
    var a, b, c, d := ElfHeader(62, 2), SMALL_NAMES, Header32(Section(0, 3, 52, 10)), Header32(Section(1, 1, 0, 0));
    FourParts(a, b, c, d);
  }

  lemma FourParts(a: Bytes, b: Bytes, c: Bytes, d: Bytes)
    ensures var data := a + b + (c + d);
            var i, j := |a| + |b|, |a| + |b| + |c|;
            && |data| == j + |d| && a <= data
            && data[|a|..i] == b && data[i..j] == c && data[j..j + |d|] == d
  {
  }

  lemma SmallFileSections()
    ensures var data, h := SmallFile(), HeaderFor(62, 2);
            && TableInFile(data, h)
            && SectionAt(data, h, 0) == Section(0, 3, 52, 10) && SectionAt(data, h, 1) == Section(1, 1, 0, 0)
  {
    SmallFileParts();
    SectionReads(SmallFile(), HeaderFor(62, 2), 0, Section(0, 3, 52, 10));
    SectionReads(SmallFile(), HeaderFor(62, 2), 1, Section(1, 1, 0, 0));
  }

  lemma SmallName()
    ensures NameAt(SMALL_NAMES, 1) == Ascii(".sysdirs")
  {
    var name := Ascii(".sysdirs");
    assert SMALL_NAMES[1..9] == name;
    assert forall k | 0 <= k < 8 :: name[k] != 0;
    NameReads(SMALL_NAMES, 1, name);
  }

  lemma SmallFileIsOne()
    ensures OneSysdirs(SmallFile(), HeaderFor(62, 2))
  {
    SmallFileSections();
    SmallFileParts();
    StrtabReads(SmallFile(), HeaderFor(62, 2), 52, SMALL_NAMES);
    SmallName();
  }

  /** Any file with such a header ends the script there, whatever the new prefix and interpreter. */
  lemma OneEndsScript(data: Bytes, shoff: Byte, shnum: Byte, path: Bytes, prefix: Bytes)
    requires |data| >= 64 && ElfHeader(shoff, shnum) <= data && OneSysdirs(data, HeaderFor(shoff, shnum))
    ensures Process(data, path, prefix).status == Unbound
  {
    HeaderReads(data, shoff, shnum);
    OneIsUnbound(data, HeaderFor(shoff, shnum), prefix);
    NoPrograms(data, HeaderFor(shoff, shnum), path, prefix);
  }

  /** A file of 142 bytes that the script takes for a 32-bit one and ends on the unset variable. */
  lemma SmallFileIsUnbound(path: Bytes, prefix: Bytes)
    ensures |SmallFile()| == 142 && Arch(SmallFile()) == Some(false)
    ensures Process(SmallFile(), path, prefix).status == Unbound
  {
    SmallFileParts();
    HeaderReads(SmallFile(), 62, 2);
    SmallFileIsOne();
    OneEndsScript(SmallFile(), 62, 2, path, prefix);
  }

  // ---- a table that outgrows its section -------------------------------------------------

  /** Section 1 is .sysdirs with the one path `was`, 2 is .sysdirslen, and 3 none of the script's business. */
  ghost predicate DirsAndMore(data: Bytes, h: Elf, was: Bytes) {
    && TableInFile(data, h) && h.shnum == 4
    && SectionAt(data, h, 0).kind != 1
    && SectionAt(data, h, 1).kind == 1 && NameAt(Strtab(data, h), SectionAt(data, h, 1).name) == Ascii(".sysdirs")
    && SectionAt(data, h, 2).kind == 1 && NameAt(Strtab(data, h), SectionAt(data, h, 2).name) == Ascii(".sysdirslen")
    && SectionAt(data, h, 3).kind == 1 && NameAt(Strtab(data, h), SectionAt(data, h, 3).name) == Ascii(".text")
    && ReadAt(data, SectionAt(data, h, 1).off, SectionAt(data, h, 1).size) == was + [0] && SectionAt(data, h, 1).size == |was| + 1
  }

  lemma FourNamesDiffer()
    ensures |Ascii(".sysdirs")| == 8 && |Ascii(".sysdirslen")| == 11 && |Ascii(".text")| == 5
    ensures |Ascii(".ldsocache")| == 10 && |Ascii(".gccrelocprefix")| == 15
  {
  }

  /** One of the four names. */
  ghost predicate Special(name: Bytes) {
    name == Ascii(".sysdirs") || name == Ascii(".sysdirslen") || name == Ascii(".ldsocache") || name == Ascii(".gccrelocprefix")
  }

  lemma TouchedByName(data: Bytes, h: Elf, i: nat)
    requires TableInFile(data, h) && i < h.shnum
    ensures Touched(data, h, i) <==> SectionAt(data, h, i).kind == 1 && Special(NameAt(Strtab(data, h), SectionAt(data, h, i).name))
  {
  }

  lemma SpecialNames()
    ensures Special(Ascii(".sysdirs")) && Special(Ascii(".sysdirslen")) && !Special(Ascii(".text"))
  {
    FourNamesDiffer();
  }

  lemma NamedTouched(data: Bytes, h: Elf, i: nat, name: Bytes)
    requires TableInFile(data, h) && i < h.shnum && SectionAt(data, h, i).kind == 1
    requires NameAt(Strtab(data, h), SectionAt(data, h, i).name) == name
    ensures Touched(data, h, i) <==> Special(name)
  {
    TouchedByName(data, h, i);
  }

  lemma MoreTouched(data: Bytes, h: Elf, was: Bytes)
    requires DirsAndMore(data, h, was)
    ensures !Touched(data, h, 0) && Touched(data, h, 1) && Touched(data, h, 2) && !Touched(data, h, 3)
  {
    SpecialNames();
    TouchedByName(data, h, 0);
    NamedTouched(data, h, 1, Ascii(".sysdirs"));
    NamedTouched(data, h, 2, Ascii(".sysdirslen"));
    NamedTouched(data, h, 3, Ascii(".text"));
  }

  lemma HeaderInTable(data: Bytes, h: Elf, i: nat)
    requires TableInFile(data, h) && i < h.shnum
    ensures SectionHeader(data, h, i) == Record(data, h, i)
  {
    RecordInTable(h, i);
  }

  lemma PassesOver(s: Loop, h: Elf, strtab: Bytes, prefix: Bytes, i: nat)
    requires TableInFile(s.data, h) && i < h.shnum && SectionAt(s.data, h, i).kind != 1
    ensures ChangedHeader(s, h, strtab, prefix, i) == s
  {
    HeaderInTable(s.data, h, i);
  }

  lemma TakesName(s: Loop, h: Elf, strtab: Bytes, prefix: Bytes, i: nat)
    requires TableInFile(s.data, h) && i < h.shnum && SectionAt(s.data, h, i).kind == 1
    ensures var sec := SectionAt(s.data, h, i); ChangedHeader(s, h, strtab, prefix, i) == ChangedSection(s, NameAt(strtab, sec.name), sec, prefix)
  {
    HeaderInTable(s.data, h, i);
  }

  /** What the loop over the sections remembers. */
  ghost function BothChunks(data: Bytes, h: Elf): Loop
    requires TableInFile(data, h) && h.shnum == 4
  {
    var dirs, lens := SectionAt(data, h, 1), SectionAt(data, h, 2);
    Loop(data, Chunk(ReadAt(data, dirs.off, dirs.size), dirs.off, dirs.size),
         Chunk(ReadAt(data, lens.off, lens.size), lens.off, lens.size), Done)
  }

  lemma FourHeaders(s0: Loop, s1: Loop, s2: Loop, s3: Loop, s4: Loop, h: Elf, strtab: Bytes, prefix: Bytes)
    requires h.shnum == 4 && s0.status == s1.status == s2.status == s3.status == Done
    requires s1 == ChangedHeader(s0, h, strtab, prefix, 0) && s2 == ChangedHeader(s1, h, strtab, prefix, 1)
    requires s3 == ChangedHeader(s2, h, strtab, prefix, 2) && s4 == ChangedHeader(s3, h, strtab, prefix, 3)
    ensures ChangedSections(s0, h, strtab, prefix, 0) == s4
  {
    assert ChangedSections(s4, h, strtab, prefix, 4) == s4;
    assert ChangedSections(s3, h, strtab, prefix, 3) == s4;
    assert ChangedSections(s2, h, strtab, prefix, 2) == s4;
    assert ChangedSections(s1, h, strtab, prefix, 1) == s4;
  }

  lemma MoreSections(data: Bytes, h: Elf, was: Bytes, prefix: Bytes)
    requires DirsAndMore(data, h, was)
    ensures AllSections(data, h, prefix) == BothChunks(data, h)
  {
    FourNamesDiffer();
    var s0, s3, strtab := Loop(data, Missing, Missing, Done), BothChunks(data, h), Strtab(data, h);
    var s2 := s3.(lens := Missing);
    PassesOver(s0, h, strtab, prefix, 0);
    TakesName(s0, h, strtab, prefix, 1);
    TakesName(s2, h, strtab, prefix, 2);
    TakesName(s3, h, strtab, prefix, 3);
    FourHeaders(s0, s0, s2, s3, s3, h, strtab, prefix);
  }

  // ---- the tables of one path ------------------------------------------------------------

  lemma OnePath(p: Bytes)
    requires p != [] && 0 !in p
    ensures Paths(p + [0]) == [p]
  {
    var s := p + [0];
    FindNulBounds(s, 0);
    assert forall k | 0 <= k < |p| :: s[k] == p[k] && p[k] in p;
    assert s[|p|] == 0;
    assert FindNul(s, 0) == |p|;
    assert s[..|p|] == p && s[|p| + 1..] == [] && Paths([]) == [];
  }

  lemma OldPrefixSubbed(prefix: Bytes)
    ensures Sub(OldPrefix(), prefix) == prefix
  {
    var was := OldPrefix();
    assert |was| == 23 && was <= was && was[|was|..] == [];
    assert Sub([], prefix) == [] && prefix + [] == prefix;
  }

  lemma OneTable(p: Bytes, prefix: Bytes, width: nat)
    ensures Subbed([p], prefix) == [Sub(p, prefix)]
    ensures Terminated([p]) == p + [0] && |Lengths([p], width)| == width
  {
    assert [p][..0] == [] && Subbed([], prefix) == [] && Terminated([]) == [] && Lengths([], width) == [];
    assert [] + [Sub(p, prefix)] == [Sub(p, prefix)] && [] + p + [0] == p + [0];
  }

  lemma PlaceholderTables(s: Loop, h: Elf, prefix: Bytes)
    requires WritesTables(s) && s.sysdirs.content == OldPrefix() + [0] && s.sysdirs.size == 24 && |prefix| >= 24
    ensures DirTable(s, prefix) == prefix + [0] && |LenTable(s, h, prefix)| == Width(h)
  {
    var was := OldPrefix();
    assert |was| == 23 && 0 !in was;
    OnePath(was);
    OneTable(was, prefix, Width(h));
    OldPrefixSubbed(prefix);
    OneTable(prefix, prefix, Width(h));
    assert prefix + [0] + Zeros(24 - |prefix + [0]|) == prefix + [0];
  }

  /** A byte beyond .sysdirs, in no section to rewrite and not under the length table. */
  ghost predicate Beyond(data: Bytes, h: Elf, k: nat)
    requires TableInFile(data, h) && h.shnum == 4
  {
    var dirs, lens := SectionAt(data, h, 1), SectionAt(data, h, 2);
    && k == dirs.off + dirs.size < |data| && !(lens.off <= k < lens.off + Width(h))
    && !(lens.off <= k < lens.off + lens.size)
  }

  /** The first byte past the section, under a table that is one byte longer or more. */
  lemma PastSection(s: Loop, h: Elf, prefix: Bytes, k: nat)
    requires WritesTables(s) && DirTable(s, prefix) == prefix + [0] && |LenTable(s, h, prefix)| == Width(h)
    requires s.sysdirs.size == 24 && |prefix| >= 24 && k == s.sysdirs.off + 24 && !(s.lens.off <= k < s.lens.off + Width(h))
    ensures InTables(s, h, prefix, k) && TableByte(s, h, prefix, k) == (prefix + [0])[24]
  {
  }

  lemma MoreDone(data: Bytes, h: Elf, was: Bytes, prefix: Bytes)
    requires DirsAndMore(data, h, was)
    ensures ChangedDirs(data, h, prefix).status == Done
  {
    MoreSections(data, h, was, prefix);
    DirsFromSections(data, h, prefix);
  }

  lemma MiddleTwo(touched: nat -> bool, within: nat -> bool)
    requires !touched(0) && !touched(3) && !within(1) && !within(2)
    ensures forall i: nat | i < 4 && touched(i) :: !within(i)
  {
  }

  lemma OutsideFour(data: Bytes, h: Elf, k: nat)
    requires TableInFile(data, h) && h.shnum == 4 && !Touched(data, h, 0) && !Touched(data, h, 3)
    requires !Within(data, h, 1, k) && !Within(data, h, 2, k)
    ensures Outside(data, h, k)
  {
    var touched := (i: nat) => Touched(data, h, i);
    var within := (i: nat) => i < 4 && Within(data, h, i, k);
    MiddleTwo(touched, within);
    forall i: nat | i < h.shnum && Touched(data, h, i)
      ensures !Within(data, h, i, k)
    {
      assert touched(i) && !within(i);
    }
  }

  lemma BeyondMisses(data: Bytes, h: Elf, k: nat)
    requires TableInFile(data, h) && h.shnum == 4 && Beyond(data, h, k)
    ensures !Within(data, h, 1, k) && !Within(data, h, 2, k)
  {
  }

  lemma BeyondOutside(data: Bytes, h: Elf, was: Bytes, k: nat)
    requires DirsAndMore(data, h, was) && Beyond(data, h, k)
    ensures Outside(data, h, k)
  {
    MoreTouched(data, h, was);
    BeyondMisses(data, h, k);
    OutsideFour(data, h, k);
  }

  /** The byte is overwritten by the end of the table. */
  lemma ByteOverrun(data: Bytes, h: Elf, prefix: Bytes, k: nat)
    requires Sane(data, h) && DirsAndMore(data, h, OldPrefix()) && |prefix| >= 24 && Beyond(data, h, k)
    ensures var q := ChangedDirs(data, h, prefix); k < |q.data| && q.data[k] == (prefix + [0])[24]
  {
    MoreSections(data, h, OldPrefix(), prefix);
    var s := BothChunks(data, h);
    OldPrefixLength();
    PlaceholderTables(s, h, prefix);
    PastSection(s, h, prefix, k);
    TablesLand(data, h, prefix);
  }

  lemma OldPrefixLength()
    ensures |OldPrefix()| == 23
  {
  }

  // ---- such a file -----------------------------------------------------------------------

  const NAMES: Bytes := [0] + Ascii(".sysdirs") + [0] + (Ascii(".sysdirslen") + [0] + (Ascii(".text") + [0]))

  /** .sysdirslen, .sysdirs with the placeholder and a NUL, four bytes of .text. */
  const BODY: Bytes := Zeros(4) + (OldPrefix() + [0]) + [255, 255, 255, 255]

  const HEADERS: Bytes := Header32(Section(0, 3, 52, 28)) + Header32(Section(1, 1, 84, 24)) + (Header32(Section(10, 1, 80, 4)) + Header32(Section(22, 1, 108, 4)))

  function OverrunFile(): Bytes {
    ElfHeader(112, 4) + NAMES + (BODY + HEADERS)
  }

  lemma NamesRead()
    ensures |NAMES| == 28
    ensures NameAt(NAMES, 1) == Ascii(".sysdirs") && NameAt(NAMES, 10) == Ascii(".sysdirslen") && NameAt(NAMES, 22) == Ascii(".text")
  {
    var a, b, c := Ascii(".sysdirs"), Ascii(".sysdirslen"), Ascii(".text");
    FourNamesDiffer();
    NoNuls();
    assert NAMES[1..9] == a && NAMES[9] == 0;
    assert NAMES[10..21] == b && NAMES[21] == 0;
    assert NAMES[22..27] == c && NAMES[27] == 0;
    NameReads(NAMES, 1, a);
    NameReads(NAMES, 10, b);
    NameReads(NAMES, 22, c);
  }

  lemma NoNuls()
    ensures 0 !in Ascii(".sysdirs") && 0 !in Ascii(".sysdirslen") && 0 !in Ascii(".text")
  {
  }

  lemma BodyParts()
    ensures |BODY| == 32 && BODY[4..28] == OldPrefix() + [0] && BODY[28] == 255
  {
    OldPrefixLength();
    Between(BODY, Zeros(4), OldPrefix() + [0], [255, 255, 255, 255]);
  }

  lemma HeadersParts()
    ensures |HEADERS| == 160
    ensures HEADERS[0..40] == Header32(Section(0, 3, 52, 28)) && HEADERS[40..80] == Header32(Section(1, 1, 84, 24))
    ensures HEADERS[80..120] == Header32(Section(10, 1, 80, 4)) && HEADERS[120..160] == Header32(Section(22, 1, 108, 4))
  {
    FourParts(Header32(Section(0, 3, 52, 28)), Header32(Section(1, 1, 84, 24)), Header32(Section(10, 1, 80, 4)), Header32(Section(22, 1, 108, 4)));
  }

  lemma SliceOfPart(data: Bytes, part: Bytes, at: nat, lo: nat, hi: nat)
    requires at + |part| <= |data| && data[at..at + |part|] == part && lo <= hi <= |part|
    ensures data[at + lo..at + hi] == part[lo..hi]
  {
    forall j | 0 <= j < hi - lo
      ensures data[at + lo..at + hi][j] == part[lo..hi][j]
    {
      assert part[lo + j] == data[at..at + |part|][lo + j];
    }
  }

  /** A file laid out like that, part by part. */
  ghost predicate Laid(data: Bytes, names: Bytes, body: Bytes, headers: Bytes, was: Bytes) {
    && |data| == 272 && ElfHeader(112, 4) <= data
    && |names| == 28 && data[52..80] == names
    && NameAt(names, 1) == Ascii(".sysdirs") && NameAt(names, 10) == Ascii(".sysdirslen") && NameAt(names, 22) == Ascii(".text")
    && |body| == 32 && data[80..112] == body
    && |was| == 23 && body[4..28] == was + [0] && body[28] == 255
    && |headers| == 160 && data[112..272] == headers
    && headers[0..40] == Header32(Section(0, 3, 52, 28)) && headers[40..80] == Header32(Section(1, 1, 84, 24))
    && headers[80..120] == Header32(Section(10, 1, 80, 4)) && headers[120..160] == Header32(Section(22, 1, 108, 4))
  }

  lemma OverrunIsLaid()
    ensures Laid(OverrunFile(), NAMES, BODY, HEADERS, OldPrefix())
  {
    NamesRead();
    BodyParts();
    HeadersParts();
    OldPrefixLength();
    FourParts(ElfHeader(112, 4), NAMES, BODY, HEADERS);
  }

  lemma FourSections(data: Bytes, headers: Bytes, h: Elf, s0: Section, s1: Section, s2: Section, s3: Section)
    requires h == HeaderFor(112, 4) && |data| == 272 && |headers| == 160 && data[112..272] == headers
    requires headers[0..40] == Header32(s0) && headers[40..80] == Header32(s1)
    requires headers[80..120] == Header32(s2) && headers[120..160] == Header32(s3)
    requires Small(s0) && Small(s1) && Small(s2) && Small(s3)
    ensures TableInFile(data, h)
    ensures SectionAt(data, h, 0) == s0 && SectionAt(data, h, 1) == s1 && SectionAt(data, h, 2) == s2 && SectionAt(data, h, 3) == s3
  {
    SliceOfPart(data, headers, 112, 0, 40);
    SliceOfPart(data, headers, 112, 40, 80);
    SliceOfPart(data, headers, 112, 80, 120);
    SliceOfPart(data, headers, 112, 120, 160);
    SectionReads(data, h, 0, s0);
    SectionReads(data, h, 1, s1);
    SectionReads(data, h, 2, s2);
    SectionReads(data, h, 3, s3);
  }

  /** A file with such sections and names. */
  lemma IsSuch(data: Bytes, h: Elf, names: Bytes, was: Bytes)
    requires TableInFile(data, h) && h.shnum == 4 && !h.is64 && |data| == 272
    requires SectionAt(data, h, 0) == Section(0, 3, 52, 28) && SectionAt(data, h, 1) == Section(1, 1, 84, 24)
    requires SectionAt(data, h, 2) == Section(10, 1, 80, 4) && SectionAt(data, h, 3) == Section(22, 1, 108, 4)
    requires Strtab(data, h) == names
    requires NameAt(names, 1) == Ascii(".sysdirs") && NameAt(names, 10) == Ascii(".sysdirslen") && NameAt(names, 22) == Ascii(".text")
    requires |was| == 23 && data[84..108] == was + [0]
    ensures DirsAndMore(data, h, was) && Beyond(data, h, 108)
  {
  }

  lemma LaidIsSuch(data: Bytes, h: Elf, names: Bytes, body: Bytes, headers: Bytes, was: Bytes)
    requires Laid(data, names, body, headers, was) && h == HeaderFor(112, 4)
    ensures DirsAndMore(data, h, was) && Beyond(data, h, 108) && Sane(data, h) && data[108] == 255
    ensures SectionAt(data, h, 1).off == 84 && SectionAt(data, h, 2).off == 80 && SectionAt(data, h, 3) == Section(22, 1, 108, 4)
  {
    FourSections(data, headers, h, Section(0, 3, 52, 28), Section(1, 1, 84, 24), Section(10, 1, 80, 4), Section(22, 1, 108, 4));
    StrtabReads(data, h, 52, names);
    SliceOfPart(data, body, 80, 4, 28);
    IsSuch(data, h, names, was);
    MoreIsSane(data, h, was);
    ByteOfPart(data, body, 80, 28);
  }

  lemma ByteOfPart(data: Bytes, part: Bytes, at: nat, k: nat)
    requires at + |part| <= |data| && data[at..at + |part|] == part && k < |part|
    ensures data[at + k] == part[k]
  {
    assert data[at..at + |part|][k] == part[k];
  }

  lemma MoreIsSane(data: Bytes, h: Elf, was: Bytes)
    requires DirsAndMore(data, h, was)
    requires var sec := SectionAt(data, h, 1); sec.off + sec.size <= |data| && sec.off + sec.size <= h.shoff
    requires var sec := SectionAt(data, h, 2); sec.off + sec.size <= |data| && sec.off + sec.size <= h.shoff
    ensures Sane(data, h)
  {
    MoreTouched(data, h, was);
    SaneFour(data, h);
  }

  lemma SaneFour(data: Bytes, h: Elf)
    requires TableInFile(data, h) && h.shnum == 4 && !Touched(data, h, 0) && !Touched(data, h, 3)
    requires var sec := SectionAt(data, h, 1); sec.off + sec.size <= |data| && sec.off + sec.size <= h.shoff
    requires var sec := SectionAt(data, h, 2); sec.off + sec.size <= |data| && sec.off + sec.size <= h.shoff
    ensures Sane(data, h)
  {
    var touched := (i: nat) => Touched(data, h, i);
    var misplaced := (i: nat) => i < 4 && !(SectionAt(data, h, i).off + SectionAt(data, h, i).size <= |data|
                                            && SectionAt(data, h, i).off + SectionAt(data, h, i).size <= h.shoff);
    MiddleTwo(touched, misplaced);
    forall i: nat | i < h.shnum && Touched(data, h, i)
      ensures var s := SectionAt(data, h, i); s.off + s.size <= |data| && s.off + s.size <= h.shoff
    {
      assert touched(i) && !misplaced(i);
    }
  }

  /** The file ends with the byte changed. */
  lemma OverrunEnds(data: Bytes, h: Elf, prefix: Bytes)
    requires Sane(data, h) && DirsAndMore(data, h, OldPrefix()) && Beyond(data, h, 108) && data[108] == 255
    requires |prefix| >= 24 && forall i | 0 <= i < |prefix| :: prefix[i] < 128
    ensures var q := ChangedDirs(data, h, prefix);
            q.status == Done && 108 < |q.data| && q.data[108] != data[108] && !Local(q.data, data, h)
  {
    MoreDone(data, h, OldPrefix(), prefix);
    ByteOverrun(data, h, prefix, 108);
    BeyondOutside(data, h, OldPrefix(), 108);
    var q := ChangedDirs(data, h, prefix);
    if Local(q.data, data, h) {
      LocalOutside(q.data, data, h);
    }
  }

  /** If the table ends inside the file, with its old size. */
  lemma OverrunSize(data: Bytes, h: Elf, prefix: Bytes)
    requires Sane(data, h) && DirsAndMore(data, h, OldPrefix()) && |prefix| >= 24
    requires SectionAt(data, h, 1).off + |prefix| + 1 <= |data| && SectionAt(data, h, 2).off + Width(h) <= |data|
    ensures |ChangedDirs(data, h, prefix).data| == |data|
  {
    MoreSections(data, h, OldPrefix(), prefix);
    OldPrefixLength();
    PlaceholderTables(BothChunks(data, h), h, prefix);
    RelocationReach(data, h, prefix);
  }

  /** The script ends well and has changed byte 108, where .text begins, which is none of its business; with
      prefixes up to 187 bytes the test of the size at the end sees nothing. */
  ghost predicate OverrunSeen(data: Bytes, h: Elf, prefix: Bytes, r: Processed) {
    && Sane(data, h) && h.shnum == 4 && SectionAt(data, h, 3) == Section(22, 1, 108, 4)
    && NameAt(Strtab(data, h), 22) == Ascii(".text") && Outside(data, h, 108)
    && r.status == Done && !r.errors && 108 < |r.data| && 108 < |data| && r.data[108] != data[108] && !Local(r.data, data, h)
    && (|prefix| <= 187 ==> !r.grown)
  }

  /** The script takes the file, and so it ends. */
  ghost predicate Overruns(data: Bytes, path: Bytes, prefix: Bytes) {
    && |data| >= 64 && Arch(data) == Some(false)
    && OverrunSeen(data, HeaderOf(data, false), prefix, Process(data, path, prefix))
  }

  lemma LaidOverruns(data: Bytes, names: Bytes, body: Bytes, headers: Bytes, path: Bytes, prefix: Bytes)
    requires Laid(data, names, body, headers, OldPrefix())
    requires |prefix| >= 24 && forall i | 0 <= i < |prefix| :: prefix[i] < 128
    ensures Overruns(data, path, prefix)
  {
    var h := HeaderFor(112, 4);
    HeaderReads(data, 112, 4);
    LaidIsSuch(data, h, names, body, headers, OldPrefix());
    BeyondOutside(data, h, OldPrefix(), 108);
    NoPrograms(data, h, path, prefix);
    OverrunEnds(data, h, prefix);
    if |prefix| <= 187 {
      OverrunSize(data, h, prefix);
    }
  }

  /** A file of 272 bytes, and every ASCII prefix longer than the placeholder. */
  lemma OverrunFileOverruns(path: Bytes, prefix: Bytes)
    requires |prefix| >= 24 && forall i | 0 <= i < |prefix| :: prefix[i] < 128
    ensures |OverrunFile()| == 272 && Overruns(OverrunFile(), path, prefix)
  {
    OverrunIsLaid();
    LaidOverruns(OverrunFile(), NAMES, BODY, HEADERS, path, prefix);
  }
}
