/** The ELF structures as the System V gABI lays them out, field after field, against the offsets the reader uses. */
module ElfLayout {
  import opened Bytes
  import opened ElfNotes

  /** A field of so many bytes. */
  datatype Word = Word(size: nat, value: nat)

  predicate Holds(w: Word) {
    w.value < Power(256, w.size)
  }

  /** The first n fields, little-endian and without gaps. */
  function Pack(words: seq<Word>, n: nat): (data: seq<byte>)
    requires n <= |words|
    ensures |data| == Offset(words, n)
  {
    if n == 0 then [] else Pack(words, n - 1) + LittleBytes(words[n - 1].value, words[n - 1].size)
  }

  /** Where field n starts. */
  function Offset(words: seq<Word>, n: nat): nat
    requires n <= |words|
  {
    if n == 0 then 0 else Offset(words, n - 1) + words[n - 1].size
  }

  /** Every field is found at its offset in any data that begins with the packed fields. */
  lemma {:induction false} PackedField(data: seq<byte>, start: nat, words: seq<Word>, n: nat, i: nat)
    requires i < n <= |words| && Holds(words[i])
    requires start + Offset(words, n) <= |data| && data[start..start + Offset(words, n)] == Pack(words, n)
    ensures start + Offset(words, i) + words[i].size <= |data|
    ensures LittleEndian(data[start + Offset(words, i)..start + Offset(words, i) + words[i].size]) == words[i].value
  {
    hide LittleEndian, LittleBytes, Power;
    var at, size := Offset(words, n - 1), words[n - 1].size;
    var packed := data[start..start + Offset(words, n)];
    if i == n - 1 {
      assert data[start + at..start + at + size] == packed[at..];
      LittleEndianInverts(words[i].value, size);
    } else {
      assert data[start..start + at] == packed[..at];
      PackedField(data, start, words, n - 1, i);
    }
  }

  function Address(elf64: bool, value: nat): Word {
    Word(if elf64 then 8 else 4, value)
  }

  /** The members of the ELF header after e_ident ("ELF Header", chapter 4). */
  datatype FileHeader = FileHeader(
    fileType: nat, machine: nat, version: nat, entry: nat, phoff: nat, shoff: nat, flags: nat,
    ehsize: nat, phentsize: nat, phnum: nat, shentsize: nat, shnum: nat, shstrndx: nat)

  function FileHeaderFields(elf64: bool, h: FileHeader): seq<Word> {
    [Word(2, h.fileType), Word(2, h.machine), Word(4, h.version), Address(elf64, h.entry), Address(elf64, h.phoff),
     Address(elf64, h.shoff), Word(4, h.flags), Word(2, h.ehsize), Word(2, h.phentsize), Word(2, h.phnum),
     Word(2, h.shentsize), Word(2, h.shnum), Word(2, h.shstrndx)]
  }

  /** Both classes of header are read at the right offsets. */
  lemma HeaderIsParsed(data: seq<byte>, elf64: bool, h: FileHeader)
    requires var fields := FileHeaderFields(elf64, h);
      && (forall i :: 0 <= i < 13 ==> Holds(fields[i]))
      && 16 + Offset(fields, 13) <= |data| && data[16..16 + Offset(fields, 13)] == Pack(fields, 13)
    ensures HeaderSize(elf64) == 16 + Offset(FileHeaderFields(elf64, h), 13)
    ensures ParseHeader(data, elf64) == Header(elf64, h.phoff, h.shoff, h.phentsize, h.phnum)
  {
    hide Pack, LittleEndian, Holds;
    var fields := FileHeaderFields(elf64, h);
    PackedField(data, 16, fields, 13, 4);
    PackedField(data, 16, fields, 13, 5);
    PackedField(data, 16, fields, 13, 8);
    PackedField(data, 16, fields, 13, 9);
    HeaderOffsets(elf64, h);
  }

  lemma HeaderOffsets(elf64: bool, h: FileHeader)
    ensures var f, w := FileHeaderFields(elf64, h), if elf64 then 8 else 4;
      && Offset(f, 4) == 8 + w && Offset(f, 5) == 8 + 2 * w && Offset(f, 8) == 14 + 3 * w && Offset(f, 9) == 16 + 3 * w
      && Offset(f, 13) == 24 + 3 * w
  {
    var f, w := FileHeaderFields(elf64, h), if elf64 then 8 else 4;
    assert Offset(f, 1) == 2 && Offset(f, 2) == 4 && Offset(f, 3) == 8;
    assert Offset(f, 4) == 8 + w;
    assert Offset(f, 6) == 8 + 3 * w;
    assert Offset(f, 8) == 14 + 3 * w;
    assert Offset(f, 10) == 18 + 3 * w;
    assert Offset(f, 12) == 22 + 3 * w;
  }

  /** The members of a program header ("Program Header", chapter 5); the flags moved between the classes. */
  datatype Segment = Segment(
    kind: nat, flags: nat, offset: nat, vaddr: nat, paddr: nat, filesz: nat, memsz: nat, alignment: nat)

  function SegmentFields(elf64: bool, s: Segment): seq<Word> {
    if elf64 then
      [Word(4, s.kind), Word(4, s.flags), Word(8, s.offset), Word(8, s.vaddr), Word(8, s.paddr), Word(8, s.filesz),
       Word(8, s.memsz), Word(8, s.alignment)]
    else
      [Word(4, s.kind), Word(4, s.offset), Word(4, s.vaddr), Word(4, s.paddr), Word(4, s.filesz), Word(4, s.memsz),
       Word(4, s.flags), Word(4, s.alignment)]
  }

  /** Both classes of program header are read at the right offsets: the segment is its bytes in the file. */
  lemma SegmentIsParsed(data: seq<byte>, elf64: bool, start: nat, s: Segment)
    requires var fields := SegmentFields(elf64, s);
      && (forall i :: 0 <= i < 8 ==> Holds(fields[i]))
      && start + Offset(fields, 8) <= |data| && data[start..start + Offset(fields, 8)] == Pack(fields, 8)
    ensures EntrySize(elf64) == Offset(SegmentFields(elf64, s), 8)
    ensures ParseEntry(data, elf64, start) == ProgramHeader(s.kind, s.offset, s.filesz, s.alignment == 8)
  {
    hide Pack, LittleEndian, Holds;
    var fields := SegmentFields(elf64, s);
    PackedField(data, start, fields, 8, 0);
    PackedField(data, start, fields, 8, if elf64 then 2 else 1);
    PackedField(data, start, fields, 8, if elf64 then 5 else 4);
    PackedField(data, start, fields, 8, 7);
    assert Offset(fields, 1) == 4 && Offset(fields, 2) == 8;
    assert Offset(fields, 4) == if elf64 then 24 else 16;
    assert Offset(fields, 6) == if elf64 then 40 else 24;
  }

  /** The members of a section header ("Sections", chapter 4). */
  datatype Section = Section(
    name: nat, kind: nat, flags: nat, addr: nat, offset: nat, size: nat, link: nat, info: nat, align: nat, entsize: nat)

  function SectionFields(elf64: bool, s: Section): seq<Word> {
    [Word(4, s.name), Word(4, s.kind), Address(elf64, s.flags), Address(elf64, s.addr), Address(elf64, s.offset),
     Address(elf64, s.size), Word(4, s.link), Word(4, s.info), Address(elf64, s.align), Address(elf64, s.entsize)]
  }

  /** With PN_XNUM in the header, the number of program headers is sh_info of the first section header. */
  lemma ExtendedCountIsParsed(data: seq<byte>, h: Header, s: Section)
    requires h.phnum == PN_XNUM
    requires var fields := SectionFields(h.elf64, s);
      && (forall i :: 0 <= i < 10 ==> Holds(fields[i]))
      && h.shoff + Offset(fields, 10) <= |data| && data[h.shoff..h.shoff + Offset(fields, 10)] == Pack(fields, 10)
    ensures CountEntries(data, h).Ok? && CountEntries(data, h).value == s.info
  {
    hide Pack, LittleEndian, Holds;
    var fields := SectionFields(h.elf64, s);
    PackedField(data, h.shoff, fields, 10, 7);
    assert Offset(fields, 1) == 4 && Offset(fields, 2) == 8;
    assert Offset(fields, 4) == if h.elf64 then 24 else 16;
    assert Offset(fields, 6) == if h.elf64 then 40 else 24;
  }
}
