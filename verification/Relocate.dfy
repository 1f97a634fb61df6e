/** relocate_sdk.py: patching the interpreter path and the install prefix of an ELF file in place. */
module Relocate {

  type Byte = x: int | 0 <= x < 256

  type Bytes = seq<Byte>

  // ---- what the script computes --------------------------------------------------------

  function Ascii(s: string): Bytes {
    seq(|s|, i requires 0 <= i < |s| => s[i] as int % 256)
  }

  function Zeros(n: int): Bytes {
    if n <= 0 then [] else seq(n, _ => 0)
  }

  /** `f.seek(off); f.read(n)`, which is short at the end of the file. */
  function ReadAt(data: Bytes, off: nat, n: nat): (r: Bytes)
    ensures off + n <= |data| ==> r == data[off..off + n]
  {
    if off >= |data| then [] else if off + n <= |data| then data[off..off + n] else data[off..]
  }

  /** `f.seek(off); f.write(b)`, which lengthens the file if it has to. */
  function WriteAt(data: Bytes, off: nat, b: Bytes): Bytes {
    if b == [] then data
    else
      var head := if off <= |data| then data[..off] else data + Zeros(off - |data|);
      head + b + (if off + |b| <= |data| then data[off + |b|..] else [])
  }

  function Little(b: Bytes): nat {
    if b == [] then 0 else b[0] + 256 * Little(b[1..])
  }

  function Big(b: Bytes): nat {
    if b == [] then 0 else 256 * Big(b[..|b| - 1]) + b[|b| - 1]
  }

  /** The fields of the ELF header the script goes on to use. */
  datatype Elf = Elf(is64: bool, little: bool, phoff: nat, phentsize: nat, phnum: nat,
                     shoff: nat, shentsize: nat, shnum: nat, shstrndx: nat)

  function Number(h: Elf, b: Bytes): nat {
    if h.little then Little(b) else Big(b)
  }

  function Field(h: Elf, rec: Bytes, at: nat, width: nat): nat
    requires at + width <= |rec|
  {
    Number(h, rec[at..at + width])
  }

  /** The record sizes `struct.unpack` insists on. */
  function PhSize(h: Elf): nat { if h.is64 then 56 else 32 }

  function ShSize(h: Elf): nat { if h.is64 then 64 else 40 }

  datatype Segment = Segment(kind: nat, off: nat, size: nat)

  function SegmentOf(h: Elf, rec: Bytes): Segment
    requires |rec| == PhSize(h)
  {
    if h.is64 then Segment(Field(h, rec, 0, 4), Field(h, rec, 8, 8), Field(h, rec, 32, 8))
    else Segment(Field(h, rec, 0, 4), Field(h, rec, 4, 4), Field(h, rec, 16, 4))
  }

  datatype Section = Section(name: nat, kind: nat, off: nat, size: nat)

  function SectionOf(h: Elf, rec: Bytes): Section
    requires |rec| == ShSize(h)
  {
    if h.is64 then Section(Field(h, rec, 0, 4), Field(h, rec, 4, 4), Field(h, rec, 24, 8), Field(h, rec, 32, 8))
    else Section(Field(h, rec, 0, 4), Field(h, rec, 4, 4), Field(h, rec, 16, 4), Field(h, rec, 20, 4))
  }

  datatype Status = Done | Refused | TooLong | BadHeader | Unbound

  /** Whether an interpreter path is some variant of /lib, which is left alone. */
  predicate SystemPath(fname: Bytes) {
    || Ascii("/lib/") <= fname || Ascii("/lib64/") <= fname || Ascii("/lib32/") <= fname
    || Ascii("/usr/lib32/") <= fname || Ascii("/usr/lib64/") <= fname
  }

  datatype Patched = Patched(data: Bytes, status: Status)

  /** Writing the interpreter into a PT_INTERP segment, unless it is left alone or has no room. */
  function ChangedSegment(data: Bytes, p: Segment, path: Bytes): Patched {
    if SystemPath(ReadAt(data, p.off, 11)) || p.size == 0 then Patched(data, Done)
    else if |path| >= p.size then Patched(data, Refused)
    else Patched(WriteAt(data, p.off, path + Zeros(p.size - |path|)), Done)
  }

  function ProgramHeader(data: Bytes, h: Elf, i: nat): Bytes {
    ReadAt(data, h.phoff + i * h.phentsize, h.phentsize)
  }

  /** `change_interpreter`, from program header `i` on. */
  function ChangedInterp(data: Bytes, h: Elf, path: Bytes, i: nat): Patched
    decreases h.phnum - i
  {
    if i >= h.phnum then Patched(data, Done)
    else
      var rec := ProgramHeader(data, h, i);
      if |rec| != PhSize(h) then Patched(data, BadHeader)
      else if SegmentOf(h, rec).kind != 3 then ChangedInterp(data, h, path, i + 1)
      else ChangedSegment(data, SegmentOf(h, rec), path)
  }

  function OldPrefix(): Bytes { Ascii("##DEFAULT_INSTALL_DIR##") }

  /** `old_prefix.sub(new_prefix, s)`. */
  function Sub(s: Bytes, prefix: Bytes): Bytes
    decreases |s|
  {
    if s == [] then []
    else if OldPrefix() <= s then prefix + Sub(s[|OldPrefix()|..], prefix)
    else [s[0]] + Sub(s[1..], prefix)
  }

  /** `rstrip(b"\0")`. */
  function Strip(s: Bytes): Bytes {
    if s != [] && s[|s| - 1] == 0 then Strip(s[..|s| - 1]) else s
  }

  function Relocated(s: Bytes, prefix: Bytes): Bytes {
    Strip(Sub(s, prefix))
  }

  /** `s` followed by as many NULs as fill `size` bytes. */
  function Padded(s: Bytes, size: nat): Bytes {
    s + Zeros(size - |s|)
  }

  const SLOT: nat := 4096

  /** What happens to the text of one slot. */
  function Relocation(prefix: Bytes): Bytes -> Bytes {
    s => Relocated(s, prefix)
  }

  /** One slot of .gccrelocprefix. */
  function ChangedSlot(data: Bytes, at: nat, change: Bytes -> Bytes): Patched {
    var path := change(ReadAt(data, at, SLOT));
    if |path| >= SLOT then Patched(data, TooLong) else Patched(WriteAt(data, at, Padded(path, SLOT)), Done)
  }

  /** The loop over the slots, from `done` bytes into the section; it stops at the first failure. */
  function ChangedSlots(data: Bytes, off: nat, size: nat, change: Bytes -> Bytes, done: nat): Patched
    decreases size - done
  {
    if done + SLOT > size then Patched(data, Done)
    else
      var p := ChangedSlot(data, off + done, change);
      if p.status != Done then p else ChangedSlots(p.data, off, size, change, done + SLOT)
  }

  function FindNul(s: Bytes, from: nat): int
    decreases |s| - from
  {
    if from >= |s| then -1 else if s[from] == 0 then from else FindNul(s, from + 1)
  }

  /** `strtab[name:strtab.find(b"\0", name)]`; a missing NUL makes the slice end before the last byte. */
  function NameAt(strtab: Bytes, name: nat): Bytes {
    var end := FindNul(strtab, name);
    var stop := if end >= 0 then end else if strtab == [] then 0 else |strtab| - 1;
    if name <= stop <= |strtab| then strtab[name..stop] else []
  }

  /** The bytes of a section the loop remembers for later. */
  datatype Chunk = Missing | Chunk(content: Bytes, off: nat, size: nat)

  datatype Loop = Loop(data: Bytes, sysdirs: Chunk, lens: Chunk, status: Status)

  /** The path in .ldsocache. */
  function ChangedCache(data: Bytes, off: nat, size: nat, change: Bytes -> Bytes): Patched {
    var path := change(ReadAt(data, off, size));
    if |path| >= size then Patched(data, TooLong) else Patched(WriteAt(data, off, Padded(path, size)), Done)
  }

  /** One section of type SHT_PROGBITS. */
  function ChangedSection(s: Loop, name: Bytes, sec: Section, prefix: Bytes): Loop {
    if name == Ascii(".sysdirs") then s.(sysdirs := Chunk(ReadAt(s.data, sec.off, sec.size), sec.off, sec.size))
    else if name == Ascii(".sysdirslen") then s.(lens := Chunk(ReadAt(s.data, sec.off, sec.size), sec.off, sec.size))
    else if name == Ascii(".ldsocache") then
      var p := ChangedCache(s.data, sec.off, sec.size, Relocation(prefix));
      s.(data := p.data, status := p.status)
    else if name == Ascii(".gccrelocprefix") then
      var p := ChangedSlots(s.data, sec.off, sec.size, Relocation(prefix), 0);
      s.(data := p.data, status := p.status)
    else s
  }

  function SectionHeader(data: Bytes, h: Elf, i: nat): Bytes {
    ReadAt(data, h.shoff + i * h.shentsize, h.shentsize)
  }

  /** One section header. */
  function ChangedHeader(s: Loop, h: Elf, strtab: Bytes, prefix: Bytes, i: nat): Loop {
    var rec := SectionHeader(s.data, h, i);
    if |rec| != ShSize(h) then s.(status := BadHeader)
    else
      var sec := SectionOf(h, rec);
      if sec.kind == 1 then ChangedSection(s, NameAt(strtab, sec.name), sec, prefix) else s
  }

  /** The loop over the section headers, from header `i` on; it stops at the first failure. */
  function ChangedSections(s: Loop, h: Elf, strtab: Bytes, prefix: Bytes, i: nat): Loop
    decreases h.shnum - i
  {
    if i >= h.shnum || s.status != Done then s
    else ChangedSections(ChangedHeader(s, h, strtab, prefix, i), h, strtab, prefix, i + 1)
  }

  /** The pieces of `s.split(b"\0")` before the first empty one. */
  function Paths(s: Bytes): seq<Bytes>
    decreases |s|
  {
    var end := FindNul(s, 0);
    FindNulBounds(s, 0);
    if end == 0 || s == [] then []
    else if end < 0 then [s]
    else [s[..end]] + Paths(s[end + 1..])
  }

  lemma {:induction false} FindNulBounds(s: Bytes, from: nat)
    ensures var end := FindNul(s, from);
            && -1 <= end < |s| && (end >= 0 ==> from <= end && s[end] == 0)
            && (forall k | from <= k < (if end < 0 then |s| else end) :: s[k] != 0)
    decreases |s| - from
  {
    if from < |s| && s[from] != 0 {
      FindNulBounds(s, from + 1);
    }
  }

  function Subbed(paths: seq<Bytes>, prefix: Bytes): seq<Bytes> {
    if paths == [] then [] else Subbed(paths[..|paths| - 1], prefix) + [Sub(paths[|paths| - 1], prefix)]
  }

  /** The paths written one after the other, each with its NUL. */
  function Terminated(paths: seq<Bytes>): Bytes {
    if paths == [] then [] else Terminated(paths[..|paths| - 1]) + paths[|paths| - 1] + [0]
  }

  /** `struct.pack("<L", n)` or `"<Q"`: little-endian whatever the file is. */
  function Pack(n: nat, width: nat): (b: Bytes)
    ensures |b| == width
  {
    if width == 0 then [] else [n % 256] + Pack(n / 256, width - 1)
  }

  function Width(h: Elf): nat { if h.is64 then 8 else 4 }

  function Lengths(paths: seq<Bytes>, width: nat): Bytes {
    if paths == [] then [] else Lengths(paths[..|paths| - 1], width) + Pack(|paths[|paths| - 1]|, width)
  }

  function StringTable(data: Bytes, h: Elf): Bytes
    requires |ReadAt(data, h.shoff + h.shstrndx * h.shentsize, h.shentsize)| == ShSize(h)
  {
    var sec := SectionOf(h, ReadAt(data, h.shoff + h.shstrndx * h.shentsize, h.shentsize));
    ReadAt(data, sec.off, sec.size)
  }

  /** The last part of `change_dl_sysdirs`: both tables are rewritten from the remembered paths. */
  function ChangedSysdirs(s: Loop, h: Elf, prefix: Bytes): Loop {
    if s.sysdirs == Missing then s
    else if s.lens == Missing then s.(status := Unbound)
    else
      var paths := Subbed(Paths(s.sysdirs.content), prefix);
      var d1 := WriteAt(s.data, s.sysdirs.off, Padded(Terminated(paths), s.sysdirs.size));
      s.(data := WriteAt(d1, s.lens.off, Lengths(paths, Width(h))))
  }

  /** `change_dl_sysdirs`. */
  function ChangedDirs(data: Bytes, h: Elf, prefix: Bytes): Patched {
    var rec := ReadAt(data, h.shoff + h.shstrndx * h.shentsize, h.shentsize);
    if |rec| != ShSize(h) then Patched(data, BadHeader)
    else
      var s := ChangedSections(Loop(data, Missing, Missing, Done), h, StringTable(data, h), prefix, 0);
      if s.status != Done then Patched(s.data, s.status)
      else
        var t := ChangedSysdirs(s, h, prefix);
        Patched(t.data, t.status)
  }

  // ---- how it does so ------------------------------------------------------------------

  class BinaryFile {
    var data: Bytes
    var pos: nat

    constructor (data: Bytes)
      ensures this.data == data && pos == 0
    {
      this.data, pos := data, 0;
    }

    method Seek(off: nat)
      modifies this`pos
      ensures pos == off
    {
      pos := off;
    }

    method Read(n: nat) returns (b: Bytes)
      modifies this`pos
      ensures b == ReadAt(data, old(pos), n) && pos == old(pos) + |b|
    {
      b := ReadAt(data, pos, n);
      pos := pos + |b|;
    }

    method Write(b: Bytes)
      modifies this
      ensures data == WriteAt(old(data), old(pos), b) && pos == old(pos) + |b|
    {
      data := WriteAt(data, pos, b);
      pos := pos + |b|;
    }
  }

  method ChangeInterpreter(f: BinaryFile, h: Elf, newDlPath: Bytes) returns (status: Status)
    modifies f
    ensures Patched(f.data, status) == ChangedInterp(old(f.data), h, newDlPath, 0)
  {
    var i := 0;
    while i < h.phnum
      invariant i <= h.phnum && f.data == old(f.data)
      invariant ChangedInterp(old(f.data), h, newDlPath, i) == ChangedInterp(old(f.data), h, newDlPath, 0)
    {
      var phHdr := ReadProgramHeader(f, h, i);
      if |phHdr| != PhSize(h) {
        return BadHeader;
      }
      var p := SegmentOf(h, phHdr);
      if p.kind == 3 {
        status := ChangeSegment(f, p, newDlPath);
        return;
      }
      i := i + 1;
    }
    return Done;
  }

  method ReadRecord(f: BinaryFile, off: nat, n: nat) returns (b: Bytes)
    modifies f`pos
    ensures b == ReadAt(f.data, off, n)
  {
    f.Seek(off);
    b := f.Read(n);
  }

  method ReadProgramHeader(f: BinaryFile, h: Elf, i: nat) returns (rec: Bytes)
    modifies f`pos
    ensures rec == ProgramHeader(f.data, h, i)
  {
    rec := ReadRecord(f, h.phoff + i * h.phentsize, h.phentsize);
  }

  method ReadSectionHeader(f: BinaryFile, h: Elf, i: nat) returns (rec: Bytes)
    modifies f`pos
    ensures rec == SectionHeader(f.data, h, i)
  {
    rec := ReadRecord(f, h.shoff + i * h.shentsize, h.shentsize);
  }

  /** "change interpreter". */
  method ChangeSegment(f: BinaryFile, p: Segment, newDlPath: Bytes) returns (status: Status)
    modifies f
    ensures Patched(f.data, status) == ChangedSegment(old(f.data), p, newDlPath)
  {
    var fname := ReadRecord(f, p.off, 11);
    if SystemPath(fname) || p.size == 0 {
      return Done;
    }
    if |newDlPath| >= p.size {
      return Refused;
    }
    var dlPath := newDlPath + Zeros(p.size - |newDlPath|);
    f.Seek(p.off);
    f.Write(dlPath);
    return Done;
  }

  lemma PaddedSize(s: Bytes, size: nat)
    requires |s| <= size
    ensures |Padded(s, size)| == size
    ensures |s| < size ==> Padded(s, size)[size - 1] == 0
  {
  }

  /** One round of the slot loop; the file stands at the slot before and at the next one after. */
  method ChangeSlot(f: BinaryFile, at: nat, prefix: Bytes) returns (status: Status)
    requires f.pos == at
    modifies f
    ensures Patched(f.data, status) == ChangedSlot(old(f.data), at, Relocation(prefix))
    ensures status == Done ==> f.pos == at + SLOT
  {
    var path := f.Read(SLOT);
    var newPath := Relocated(path, prefix);
    if |newPath| >= SLOT {
      return TooLong;
    }
    PaddedSize(newPath, SLOT);
    newPath := newPath + Zeros(SLOT - |newPath|);
    f.Seek(at);
    f.Write(newPath);
    return Done;
  }

  lemma NextSlot(data: Bytes, off: nat, size: nat, change: Bytes -> Bytes, done: nat)
    requires done + SLOT <= size
    ensures var p := ChangedSlot(data, off + done, change);
            ChangedSlots(data, off, size, change, done) ==
            if p.status != Done then p else ChangedSlots(p.data, off, size, change, done + SLOT)
  {
  }

  method ChangeSlots(f: BinaryFile, off: nat, size: nat, prefix: Bytes) returns (status: Status)
    requires f.pos == off
    modifies f
    ensures Patched(f.data, status) == ChangedSlots(old(f.data), off, size, Relocation(prefix), 0)
  {
    var offset := 0;
    ghost var change, d0 := Relocation(prefix), f.data;
    while offset + SLOT <= size
      invariant f.pos == off + offset
      invariant ChangedSlots(f.data, off, size, change, offset) == ChangedSlots(d0, off, size, change, 0)
    {
      NextSlot(f.data, off, size, change, offset);
      status := ChangeSlot(f, off + offset, prefix);
      if status != Done {
        return;
      }
      offset := offset + SLOT;
    }
    return Done;
  }

  method ChangeSysdirs(f: BinaryFile, h: Elf, prefix: Bytes, sysdirs: Chunk, lens: Chunk) returns (status: Status)
    modifies f
    ensures var t := ChangedSysdirs(Loop(old(f.data), sysdirs, lens, Done), h, prefix);
            f.data == t.data && status == t.status
  {
    if sysdirs == Missing {
      return Done;
    }
    if lens == Missing {
      return Unbound;
    }
    var newDirs, newLens := NewTables(Paths(sysdirs.content), prefix, Width(h));
    WriteTables(f, sysdirs, lens, newDirs, newLens);
    return Done;
  }

  /** `for path in paths`. */
  method NewTables(paths: seq<Bytes>, prefix: Bytes, width: nat) returns (newDirs: Bytes, newLens: Bytes)
    ensures newDirs == Terminated(Subbed(paths, prefix)) && newLens == Lengths(Subbed(paths, prefix), width)
  {
    newDirs, newLens := [], [];
    ghost var all := Subbed(paths, prefix);
    SubbedCounts(paths, prefix);
    for k := 0 to |paths|
      invariant newDirs == Terminated(all[..k]) && newLens == Lengths(all[..k], width)
    {
      var newPath := Sub(paths[k], prefix);
      newDirs := newDirs + newPath + [0];
      newLens := newLens + Pack(|newPath|, width);
      assert all[..k + 1][..k] == all[..k];
    }
    assert all[..|paths|] == all;
  }

  method WriteTables(f: BinaryFile, sysdirs: Chunk, lens: Chunk, newDirs: Bytes, newLens: Bytes)
    requires sysdirs != Missing && lens != Missing
    modifies f
    ensures f.data == WriteAt(WriteAt(old(f.data), sysdirs.off, Padded(newDirs, sysdirs.size)), lens.off, newLens)
  {
    var padded := newDirs + Zeros(sysdirs.size - |newDirs|);
    f.Seek(sysdirs.off);
    f.Write(padded);
    f.Seek(lens.off);
    f.Write(newLens);
  }

  lemma {:induction false} SubbedCounts(paths: seq<Bytes>, prefix: Bytes)
    ensures |Subbed(paths, prefix)| == |paths|
    ensures forall k | 0 <= k < |paths| :: Subbed(paths, prefix)[k] == Sub(paths[k], prefix)
  {
    if paths != [] {
      SubbedCounts(paths[..|paths| - 1], prefix);
    }
  }

  method ChangeDlSysdirs(f: BinaryFile, h: Elf, prefix: Bytes) returns (status: Status)
    modifies f
    ensures Patched(f.data, status) == ChangedDirs(old(f.data), h, prefix)
  {
    var rec := ReadRecord(f, h.shoff + h.shstrndx * h.shentsize, h.shentsize);
    if |rec| != ShSize(h) {
      return BadHeader;
    }
    var strsec := SectionOf(h, rec);
    var strtab := ReadRecord(f, strsec.off, strsec.size);
    var sysdirs, lens: Chunk;
    sysdirs, lens, status := ChangeSections(f, h, strtab, prefix);
    if status == Done {
      status := ChangeSysdirs(f, h, prefix, sysdirs, lens);
    }
  }

  /** The loop over the section headers. */
  method ChangeSections(f: BinaryFile, h: Elf, strtab: Bytes, prefix: Bytes)
    returns (sysdirs: Chunk, lens: Chunk, status: Status)
    modifies f
    ensures Loop(f.data, sysdirs, lens, status)
         == ChangedSections(Loop(old(f.data), Missing, Missing, Done), h, strtab, prefix, 0)
  {
    sysdirs, lens, status := Missing, Missing, Done;
    ghost var s0 := Loop(f.data, Missing, Missing, Done);
    var i := 0;
    while i < h.shnum
      invariant i <= h.shnum && status == Done
      invariant ChangedSections(Loop(f.data, sysdirs, lens, Done), h, strtab, prefix, i)
             == ChangedSections(s0, h, strtab, prefix, 0)
    {
      sysdirs, lens, status := ChangeHeader(f, h, strtab, prefix, i, sysdirs, lens);
      if status != Done {
        return;
      }
      i := i + 1;
    }
  }

  /** One round of the loop over the section headers. */
  method ChangeHeader(f: BinaryFile, h: Elf, strtab: Bytes, prefix: Bytes, i: nat, sysdirs0: Chunk, lens0: Chunk)
    returns (sysdirs: Chunk, lens: Chunk, status: Status)
    modifies f
    ensures Loop(f.data, sysdirs, lens, status)
         == ChangedHeader(Loop(old(f.data), sysdirs0, lens0, Done), h, strtab, prefix, i)
  {
    sysdirs, lens, status := sysdirs0, lens0, Done;
    var shHdr := ReadSectionHeader(f, h, i);
    if |shHdr| != ShSize(h) {
      status := BadHeader;
      return;
    }
    var sec := SectionOf(h, shHdr);
    if sec.kind == 1 {
      sysdirs, lens, status := ChangeSection(f, NameAt(strtab, sec.name), sec, prefix, sysdirs, lens);
    }
  }

  method ChangeCache(f: BinaryFile, off: nat, size: nat, prefix: Bytes) returns (status: Status)
    requires f.pos == off
    modifies f
    ensures Patched(f.data, status) == ChangedCache(old(f.data), off, size, Relocation(prefix))
  {
    var ldsocachePath := f.Read(size);
    var newPath := Relocated(ldsocachePath, prefix);
    if |newPath| >= size {
      return TooLong;
    }
    newPath := newPath + Zeros(size - |newPath|);
    f.Seek(off);
    f.Write(newPath);
    return Done;
  }

  method ChangeSection(f: BinaryFile, name: Bytes, sec: Section, prefix: Bytes, sysdirs0: Chunk, lens0: Chunk)
    returns (sysdirs: Chunk, lens: Chunk, status: Status)
    modifies f
    ensures Loop(f.data, sysdirs, lens, status) == ChangedSection(Loop(old(f.data), sysdirs0, lens0, Done), name, sec, prefix)
  {
    sysdirs, lens, status := sysdirs0, lens0, Done;
    f.Seek(sec.off);
    if name == Ascii(".sysdirs") {
      var content := f.Read(sec.size);
      sysdirs := Chunk(content, sec.off, sec.size);
    } else if name == Ascii(".sysdirslen") {
      var content := f.Read(sec.size);
      lens := Chunk(content, sec.off, sec.size);
    } else if name == Ascii(".ldsocache") {
      status := ChangeCache(f, sec.off, sec.size, prefix);
    } else if name == Ascii(".gccrelocprefix") {
      status := ChangeSlots(f, sec.off, sec.size, prefix);
    }
  }
}
