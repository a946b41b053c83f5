/** The reader of the AOT metadata note of a Qore module: ELF header, program headers and note segments
    (System V gABI, chapter 4 "ELF Header", chapter 5 "Program Header" and "Note Section"). */
module ElfNotes {
  import opened Wrappers
  import opened Bytes

  /** The ways read_module_info raises ValueError. */
  datatype ElfError = TruncatedHeader | TruncatedSectionHeader | BadProgramHeaders | TruncatedSegment | TooManyRecords

  const NOTE_NAME: seq<byte> := [0x51, 0x6F, 0x72, 0x65, 0]
  const NOTE_TYPE := 0x494D4151
  const PT_NOTE := 4
  const PN_XNUM := 0xFFFF

  function U16(data: seq<byte>, p: nat): nat
    requires p + 2 <= |data|
  {
    LittleEndian(data[p..p + 2])
  }

  function U32(data: seq<byte>, p: nat): nat
    requires p + 4 <= |data|
  {
    LittleEndian(data[p..p + 4])
  }

  function U64(data: seq<byte>, p: nat): nat
    requires p + 8 <= |data|
  {
    LittleEndian(data[p..p + 8])
  }

  /** _align with an alignment of 4 or 8. */
  function Align(value: nat, wide: bool): nat {
    AlignUp(value, if wide then 3 else 2)
  }

  predicate IsElf(data: seq<byte>) {
    && |data| >= 16
    && data[..4] == [0x7F, 0x45, 0x4C, 0x46]
    && data[5] == 1
    && (data[4] == 1 || data[4] == 2)
  }

  /** The fields of the two classes of ELF header that the reader uses. */
  datatype Header = Header(elf64: bool, phoff: nat, shoff: nat, phentsize: nat, phnum: nat)

  function HeaderSize(elf64: bool): nat {
    if elf64 then 64 else 52
  }

  function ParseHeader(data: seq<byte>, elf64: bool): Header
    requires HeaderSize(elf64) <= |data|
  {
    if elf64 then Header(elf64, U64(data, 32), U64(data, 40), U16(data, 54), U16(data, 56))
    else Header(elf64, U32(data, 28), U32(data, 32), U16(data, 42), U16(data, 44))
  }

  function EntrySize(elf64: bool): nat {
    if elf64 then 56 else 32
  }

  /** One program header: its type, the place of its segment, and whether that is aligned to 8 bytes. */
  datatype ProgramHeader = ProgramHeader(kind: nat, offset: nat, size: nat, wide: bool)

  function ParseEntry(data: seq<byte>, elf64: bool, p: nat): ProgramHeader
    requires p + EntrySize(elf64) <= |data|
  {
    if elf64 then ProgramHeader(U32(data, p), U64(data, p + 8), U64(data, p + 32), U64(data, p + 48) == 8)
    else ProgramHeader(U32(data, p), U32(data, p + 4), U32(data, p + 16), U32(data, p + 28) == 8)
  }

  // The walk over the notes of one segment

  /** Where the description of a note starts and ends. */
  function DescStart(segment: seq<byte>, wide: bool, position: nat): (start: nat)
    requires position + 12 <= |segment|
    ensures start >= position + 12 + U32(segment, position)
  {
    AlignAbove(position + 12 + U32(segment, position), wide);
    Align(position + 12 + U32(segment, position), wide)
  }

  function DescEnd(segment: seq<byte>, wide: bool, position: nat): (end: nat)
    requires position + 12 <= |segment|
    ensures end >= position + 12
  {
    DescStart(segment, wide, position) + U32(segment, position + 4)
  }

  /** The description of a note, when the note is a metadata record. */
  function RecordAt(segment: seq<byte>, wide: bool, position: nat): seq<seq<byte>>
    requires position + 12 <= |segment| && DescEnd(segment, wide, position) <= |segment|
  {
    var name := position + 12;
    if U32(segment, position + 8) == NOTE_TYPE && segment[name..name + U32(segment, position)] == NOTE_NAME
    then [segment[DescStart(segment, wide, position)..DescEnd(segment, wide, position)]]
    else []
  }

  function NextNote(segment: seq<byte>, wide: bool, position: nat): (next: nat)
    requires position + 12 <= |segment|
    ensures next >= position + 12 && next <= |segment|
  {
    AlignAbove(DescEnd(segment, wide, position), wide);
    var next := Align(DescEnd(segment, wide, position), wide);
    if next < |segment| then next else |segment|
  }

  /** The records from a position on. A note that does not fit ends the walk. */
  function NotesFrom(segment: seq<byte>, wide: bool, position: nat): seq<seq<byte>>
    requires position <= |segment|
    decreases |segment| - position
  {
    if |segment| - position < 12 then []
    else
      if DescEnd(segment, wide, position) > |segment| then []
      else RecordAt(segment, wide, position) + NotesFrom(segment, wide, NextNote(segment, wide, position))
  }

  lemma AlignAbove(value: nat, wide: bool)
    ensures value <= Align(value, wide) < value + (if wide then 8 else 4)
    ensures if wide then Align(value, wide) % 8 == 0 else Align(value, wide) % 4 == 0
  {
    AlignUpIsLeastMultiple(value, if wide then 3 else 2);
    assert Power(2, 2) == 4 && Power(2, 3) == 8;
  }

  // The whole file

  /** The number of program headers; PN_XNUM sends the reader to the first section header. */
  function CountEntries(data: seq<byte>, h: Header): Result<nat, ElfError> {
    if h.phnum != PN_XNUM then Ok(h.phnum)
    else
      var info := h.shoff + (if h.elf64 then 44 else 28);
      if info + 4 > |data| then Err(TruncatedSectionHeader) else Ok(U32(data, info))
  }

  /** The records of the note segments among the first k program headers. */
  function RecordsUpTo(data: seq<byte>, h: Header, k: nat): Result<seq<seq<byte>>, ElfError>
    requires EntrySize(h.elf64) <= h.phentsize && h.phoff + k * h.phentsize <= |data|
  {
    if k == 0 then Ok([])
    else
      EntryInTable(h, k - 1, k, |data|);
      var records :- RecordsUpTo(data, h, k - 1);
      var more :- SegmentRecords(data, ParseEntry(data, h.elf64, h.phoff + (k - 1) * h.phentsize));
      Ok(records + more)
  }

  function SegmentRecords(data: seq<byte>, e: ProgramHeader): Result<seq<seq<byte>>, ElfError> {
    if e.kind != PT_NOTE then Ok([])
    else if e.offset + e.size > |data| then Err(TruncatedSegment)
    else Ok(NotesFrom(data[e.offset..e.offset + e.size], e.wide, 0))
  }

  lemma EntryInTable(h: Header, index: nat, count: nat, size: nat)
    requires index < count && EntrySize(h.elf64) <= h.phentsize && h.phoff + count * h.phentsize <= size
    ensures h.phoff + index * h.phentsize + EntrySize(h.elf64) <= size
    ensures h.phoff + index * h.phentsize <= size
  {
    assert (index + 1) * h.phentsize <= count * h.phentsize;
    assert (index + 1) * h.phentsize == index * h.phentsize + h.phentsize;
  }

  /** read_module_info: the one metadata record, or empty bytes when there is none. */
  function ModuleInfo(data: seq<byte>): Result<seq<byte>, ElfError> {
    if !IsElf(data) then Ok([])
    else if |data| < HeaderSize(data[4] == 2) then Err(TruncatedHeader)
    else
      var h := ParseHeader(data, data[4] == 2);
      if h.phnum == 0 then Ok([])
      else
        var count :- CountEntries(data, h);
        if h.phentsize < EntrySize(h.elf64) || h.phoff + count * h.phentsize > |data| then Err(BadProgramHeaders)
        else
          var records :- RecordsUpTo(data, h, count);
          if |records| > 1 then Err(TooManyRecords) else Ok(if records == [] then [] else records[0])
  }

  lemma TableInFile(h: Header, index: nat, count: nat, size: nat)
    requires index <= count && h.phoff + count * h.phentsize <= size
    ensures h.phoff + index * h.phentsize <= size
  {
    assert index * h.phentsize <= count * h.phentsize;
  }

  lemma {:induction false} RecordsErrorStays(data: seq<byte>, h: Header, m: nat, n: nat)
    requires EntrySize(h.elf64) <= h.phentsize && m <= n && h.phoff + n * h.phentsize <= |data|
    ensures h.phoff + m * h.phentsize <= |data|
    ensures RecordsUpTo(data, h, m).Err? ==> RecordsUpTo(data, h, n) == RecordsUpTo(data, h, m)
  {
    hide SegmentRecords, ParseEntry;
    TableInFile(h, m, n, |data|);
    if m < n {
      TableInFile(h, n - 1, n, |data|);
      RecordsErrorStays(data, h, m, n - 1);
    }
  }

  lemma UnrollOnce(segment: seq<byte>, wide: bool, position: nat)
    requires position + 12 <= |segment| && DescEnd(segment, wide, position) <= |segment|
    ensures NotesFrom(segment, wide, position)
         == RecordAt(segment, wide, position) + NotesFrom(segment, wide, NextNote(segment, wide, position))
  {
    hide DescEnd, RecordAt, NextNote;
  }

  lemma UnrollNotes(segment: seq<byte>, wide: bool, position: nat, records: seq<seq<byte>>)
    requires position + 12 <= |segment|
    ensures DescEnd(segment, wide, position) > |segment| ==> NotesFrom(segment, wide, position) == []
    ensures DescEnd(segment, wide, position) <= |segment| ==>
              records + NotesFrom(segment, wide, position)
              == (records + RecordAt(segment, wide, position))
                 + NotesFrom(segment, wide, NextNote(segment, wide, position))
  {
    hide DescEnd, RecordAt, NextNote;
  }

  lemma NoNotes(segment: seq<byte>, wide: bool, position: nat)
    requires position <= |segment| < position + 12
    ensures NotesFrom(segment, wide, position) == []
  {
  }

  /** The loop over the notes of one segment. */
  method WalkNotes(segment: seq<byte>, wide: bool) returns (records: seq<seq<byte>>)
    ensures records == NotesFrom(segment, wide, 0)
  {
    hide U32, Align, NotesFrom;
    records := [];
    var position := 0;
    while |segment| - position >= 12
      invariant 0 <= position <= |segment|
      invariant records + NotesFrom(segment, wide, position) == NotesFrom(segment, wide, 0)
      decreases |segment| - position
    {
      var nameSize, descSize := U32(segment, position), U32(segment, position + 4);
      var noteType := U32(segment, position + 8);
      var name := position + 12;
      var desc := Align(name + nameSize, wide);
      UnrollNotes(segment, wide, position, records);
      assert desc == DescStart(segment, wide, position) && desc + descSize == DescEnd(segment, wide, position);
      if desc + descSize > |segment| {
        return;
      }
      ghost var before := records;
      if noteType == NOTE_TYPE && segment[name..name + nameSize] == NOTE_NAME {
        records := records + [segment[desc..desc + descSize]];
      }
      assert records == before + RecordAt(segment, wide, position);
      var next := Align(desc + descSize, wide);
      position := if next < |segment| then next else |segment|;
    }
    NoNotes(segment, wide, position);
  }

  /** The loop over the program headers. */
  method ReadSegments(data: seq<byte>, h: Header, phnum: nat) returns (r: Result<seq<seq<byte>>, ElfError>)
    requires EntrySize(h.elf64) <= h.phentsize && h.phoff + phnum * h.phentsize <= |data|
    ensures r == RecordsUpTo(data, h, phnum)
  {
    hide NotesFrom, ParseEntry;
    var records: seq<seq<byte>> := [];
    TableInFile(h, 0, phnum, |data|);
    for index := 0 to phnum
      invariant h.phoff + index * h.phentsize <= |data|
      invariant RecordsUpTo(data, h, index) == Ok(records)
    {
      TableInFile(h, index + 1, phnum, |data|);
      EntryInTable(h, index, phnum, |data|);
      var entry := ParseEntry(data, h.elf64, h.phoff + index * h.phentsize);
      if entry.kind != PT_NOTE {
        assert records + [] == records;
        continue;
      }
      if entry.offset + entry.size > |data| {
        RecordsErrorStays(data, h, index + 1, phnum);
        return Err(TruncatedSegment);
      }
      var more := WalkNotes(data[entry.offset..entry.offset + entry.size], entry.wide);
      records := records + more;
    }
    r := Ok(records);
  }

  /** read_module_info: it terminates on every byte string and reads no byte outside it. */
  method ReadModuleInfo(data: seq<byte>) returns (r: Result<seq<byte>, ElfError>)
    ensures r == ModuleInfo(data)
  {
    hide RecordsUpTo, LittleEndian;
    if !IsElf(data) {
      return Ok([]);
    }
    var elf64 := data[4] == 2;
    if |data| < HeaderSize(elf64) {
      return Err(TruncatedHeader);
    }
    var h := ParseHeader(data, elf64);
    if h.phnum == 0 {
      return Ok([]);
    }
    var phnum := h.phnum;
    if phnum == PN_XNUM {
      var info := h.shoff + (if elf64 then 44 else 28);
      if info + 4 > |data| {
        return Err(TruncatedSectionHeader);
      }
      phnum := U32(data, info);
    }
    if h.phentsize < EntrySize(elf64) || h.phoff + phnum * h.phentsize > |data| {
      return Err(BadProgramHeaders);
    }
    var records :- ReadSegments(data, h, phnum);
    if |records| > 1 {
      return Err(TooManyRecords);
    }
    r := Ok(if records == [] then [] else records[0]);
  }
}
