/** relocate_sdk.py: what the script reads from the head of a file, and one file of its list. */
module RelocateHeader {
  import opened Wrappers
  import opened Relocate
  import opened RelocateWhole

  /** `get_arch`, true for 64 bits. The text after the first magic byte is compared with a string and so never
      tells a file apart: bytes and strings are never equal. */
  function Arch(data: Bytes): Option<bool>
    requires |data| >= 64
  {
    if data[0] != 0x7f || data[4] == 0 then None
    else if data[4] == 1 then Some(false)
    else if data[4] == 2 then Some(true)
    else None
  }

  /** `parse_elf_header`: the fields the patches use. */
  function HeaderOf(data: Bytes, is64: bool): Elf
    requires |data| >= 64
  {
    var h := Elf(is64, data[5] == 1, 0, 0, 0, 0, 0, 0, 0);
    if is64 then
      Elf(true, h.little, Field(h, data, 32, 8), Field(h, data, 54, 2), Field(h, data, 56, 2),
          Field(h, data, 40, 8), Field(h, data, 58, 2), Field(h, data, 60, 2), Field(h, data, 62, 2))
    else
      Elf(false, h.little, Field(h, data, 28, 4), Field(h, data, 42, 2), Field(h, data, 44, 2),
          Field(h, data, 32, 4), Field(h, data, 46, 2), Field(h, data, 48, 2), Field(h, data, 50, 2))
  }

  /** What becomes of one file; `grown` is the size test at the end, made of a file that got there. */
  datatype Processed = Processed(data: Bytes, errors: bool, status: Status, grown: bool)

  /** One round of the loop over the executables. */
  function Process(data: Bytes, path: Bytes, prefix: Bytes): Processed {
    if |data| < 64 || Arch(data).None? then Processed(data, false, Done, false)
    else
      var r := RelocatedExecutable(data, HeaderOf(data, Arch(data).value), path, prefix);
      Processed(r.data, r.errors, r.status, r.status == Done && |r.data| != |data|)
  }

  method GetArch(f: BinaryFile) returns (arch: Option<bool>)
    requires |f.data| >= 64
    modifies f`pos
    ensures arch == Arch(f.data)
  {
    f.Seek(0);
    var ident := f.Read(16);
    if ident[0] != 0x7f || ident[4] == 0 {
      return None;
    }
    if ident[4] == 1 {
      return Some(false);
    } else if ident[4] == 2 {
      return Some(true);
    }
    return None;
  }

  method ParseElfHeader(f: BinaryFile, is64: bool) returns (h: Elf)
    requires |f.data| >= 64
    modifies f`pos
    ensures h == HeaderOf(f.data, is64)
  {
    f.Seek(0);
    var head := f.Read(64);
    HeadIsEnough(f.data, head, is64);
    return HeaderOf(head, is64);
  }

  /** The fields lie in the first 64 bytes. */
  lemma HeadIsEnough(data: Bytes, head: Bytes, is64: bool)
    requires |data| >= 64 && head == data[0..64]
    ensures HeaderOf(head, is64) == HeaderOf(data, is64)
  {
    assert forall lo, hi | 0 <= lo <= hi <= 64 :: head[lo..hi] == data[lo..hi];
  }

  method ProcessFile(f: BinaryFile, newDlPath: Bytes, newPrefix: Bytes) returns (errors: bool, status: Status, grown: bool)
    modifies f
    ensures Processed(f.data, errors, status, grown) == Process(old(f.data), newDlPath, newPrefix)
  {
    var oldSize := |f.data|;
    errors, status, grown := false, Done, false;
    if oldSize >= 64 {
      var arch := GetArch(f);
      if arch.Some? {
        var h := ParseElfHeader(f, arch.value);
        errors, status := RelocateExecutable(f, h, newDlPath, newPrefix);
        grown := status == Done && |f.data| != oldSize;
      }
    }
  }
}
