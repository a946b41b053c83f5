/** The note layout that the reader of ElfNotes undoes: a note segment as a compiler or linker writes it. */
module ElfNoteEncoding {
  import opened Wrappers
  import opened Bytes
  import opened ElfNotes

  datatype Note = Note(name: seq<byte>, desc: seq<byte>, kind: nat)

  predicate Encodable(n: Note) {
    |n.name| < 0x1_0000_0000 && |n.desc| < 0x1_0000_0000 && n.kind < 0x1_0000_0000
  }

  function Zeros(n: nat): (z: seq<byte>)
    ensures |z| == n
  {
    seq(n, i => 0)
  }

  /** The zero bytes that bring a length to the alignment. */
  function Padding(length: nat, wide: bool): seq<byte> {
    AlignAbove(length, wide);
    Zeros(Align(length, wide) - length)
  }

  function NoteHeader(n: Note): (b: seq<byte>)
    ensures |b| == 12
  {
    LittleBytes(|n.name|, 4) + LittleBytes(|n.desc|, 4) + LittleBytes(n.kind, 4)
  }

  /** A note up to the end of its description. */
  function NoteBody(n: Note, wide: bool): seq<byte> {
    NoteHeader(n) + n.name + Padding(12 + |n.name|, wide) + n.desc
  }

  function EncodeNote(n: Note, wide: bool): seq<byte> {
    NoteBody(n, wide) + Padding(|NoteBody(n, wide)|, wide)
  }

  /** A segment of notes; the last one may lack its final padding. */
  function EncodeNotes(notes: seq<Note>, wide: bool, lastPadded: bool): seq<byte> {
    if notes == [] then []
    else if |notes| == 1 && !lastPadded then NoteBody(notes[0], wide)
    else EncodeNote(notes[0], wide) + EncodeNotes(notes[1..], wide, lastPadded)
  }

  /** The descriptions of the notes that are metadata records, in order. */
  function MetadataRecords(notes: seq<Note>): seq<seq<byte>> {
    if notes == [] then []
    else
      (if notes[0].kind == NOTE_TYPE && notes[0].name == NOTE_NAME then [notes[0].desc] else [])
      + MetadataRecords(notes[1..])
  }

  predicate Aligned(p: nat, wide: bool) {
    if wide then p % 8 == 0 else p % 4 == 0
  }

  /** Aligning from a multiple of the alignment on. */
  lemma AlignShift(p: nat, length: nat, wide: bool)
    requires Aligned(p, wide)
    ensures Align(p + length, wide) == p + Align(length, wide)
  {
    hide Align;
    AlignAbove(p + length, wide);
    AlignAbove(length, wide);
    SameMultiple(Align(p + length, wide), p, Align(length, wide), wide);
  }

  lemma SameMultiple(a: nat, p: nat, b: nat, wide: bool)
    requires Aligned(a, wide) && Aligned(p, wide) && Aligned(b, wide)
    requires -(if wide then 8 else 4) < a - (p + b) < if wide then 8 else 4
    ensures a == p + b
  {
    var m := if wide then 8 else 4;
    var k := a / m - p / m - b / m;
    assert a == m * (a / m) && p == m * (p / m) && b == m * (b / m);
    hide Aligned;
    assert a - (p + b) == m * k;
  }

  lemma Middle(a: seq<byte>, b: seq<byte>, c: seq<byte>)
    ensures (a + b + c)[|a|..|a| + |b|] == b
  {
  }

  lemma HeaderWords(prefix: seq<byte>, n: Note, rest: seq<byte>)
    requires Encodable(n)
    ensures var s := prefix + NoteHeader(n) + rest; var p := |prefix|;
      U32(s, p) == |n.name| && U32(s, p + 4) == |n.desc| && U32(s, p + 8) == n.kind
  {
    assert Power(256, 4) == 0x1_0000_0000;
    LittleEndianInverts(|n.name|, 4);
    LittleEndianInverts(|n.desc|, 4);
    LittleEndianInverts(n.kind, 4);
    var n1, n2, n3 := LittleBytes(|n.name|, 4), LittleBytes(|n.desc|, 4), LittleBytes(n.kind, 4);
    hide LittleBytes, LittleEndian;
    ThreeWords(prefix, n1, n2, n3, rest);
  }

  lemma ThreeWords(prefix: seq<byte>, a: seq<byte>, b: seq<byte>, c: seq<byte>, rest: seq<byte>)
    requires |a| == |b| == |c| == 4
    ensures var s := prefix + (a + b + c) + rest; var p := |prefix|;
      s[p..p + 4] == a && s[p + 4..p + 8] == b && s[p + 8..p + 12] == c
  {
    var s := prefix + (a + b + c) + rest;
    assert s == prefix + a + (b + c + rest);
    Middle(prefix, a, b + c + rest);
    assert s == (prefix + a) + b + (c + rest);
    Middle(prefix + a, b, c + rest);
    assert s == (prefix + a + b) + c + rest;
    Middle(prefix + a + b, c, rest);
  }

  /** What the reader finds at a note that was written at an aligned position. */
  lemma ReadNote(prefix: seq<byte>, n: Note, rest: seq<byte>, wide: bool)
    requires Encodable(n) && Aligned(|prefix|, wide)
    ensures var s := prefix + NoteBody(n, wide) + rest; var p := |prefix|;
      && p + 12 <= |s|
      && DescEnd(s, wide, p) == p + |NoteBody(n, wide)| <= |s|
      && RecordAt(s, wide, p) == MetadataRecords([n])
  {
    hide U32, Align, NoteHeader, LittleEndian;
    var s := prefix + NoteBody(n, wide) + rest;
    var p := |prefix|;
    var pad := Padding(12 + |n.name|, wide);
    var tail := n.name + pad + n.desc + rest;
    assert s == prefix + NoteHeader(n) + tail;
    HeaderWords(prefix, n, tail);
    AlignShift(p, 12 + |n.name|, wide);
    assert |pad| == Align(12 + |n.name|, wide) - (12 + |n.name|);
    hide Padding;
    assert DescStart(s, wide, p) == p + 12 + |n.name| + |pad|;
    assert DescEnd(s, wide, p) == p + |NoteBody(n, wide)|;
    hide DescStart, DescEnd;
    NoteSlices(prefix, n, rest, wide);
    hide NoteBody;
    OneRecord(n);
  }

  lemma NoteSlices(prefix: seq<byte>, n: Note, rest: seq<byte>, wide: bool)
    ensures var s := prefix + NoteBody(n, wide) + rest;
      var name := |prefix| + 12;
      var desc := name + |n.name| + |Padding(12 + |n.name|, wide)|;
      && |s| >= |prefix| + |NoteBody(n, wide)| == desc + |n.desc|
      && s[name..name + |n.name|] == n.name && s[desc..desc + |n.desc|] == n.desc
  {
    var s, head, pad := prefix + NoteBody(n, wide) + rest, prefix + NoteHeader(n), Padding(12 + |n.name|, wide);
    hide Padding, NoteHeader;
    assert s == head + n.name + (pad + n.desc + rest);
    Middle(head, n.name, pad + n.desc + rest);
    assert s == (head + n.name + pad) + n.desc + rest;
    Middle(head + n.name + pad, n.desc, rest);
  }

  lemma OneRecord(n: Note)
    ensures MetadataRecords([n]) == if n.kind == NOTE_TYPE && n.name == NOTE_NAME then [n.desc] else []
  {
    assert [n][1..] == [];
  }

  lemma RecordsOfHead(notes: seq<Note>)
    requires notes != []
    ensures MetadataRecords(notes) == MetadataRecords([notes[0]]) + MetadataRecords(notes[1..])
    ensures |notes| == 1 ==> MetadataRecords(notes[1..]) == []
  {
    OneRecord(notes[0]);
  }

  /** Where the walk goes after a note that was written at an aligned position. */
  lemma AfterNote(s: seq<byte>, p: nat, body: nat, wide: bool)
    requires Aligned(p, wide) && p + 12 <= |s| && DescEnd(s, wide, p) == p + body
    ensures |Padding(body, wide)| == Align(body, wide) - body
    ensures p + body + |Padding(body, wide)| <= |s| ==> NextNote(s, wide, p) == p + body + |Padding(body, wide)|
    ensures |s| == p + body ==> NextNote(s, wide, p) == |s|
    ensures Aligned(p + body + |Padding(body, wide)|, wide)
  {
    AlignShift(p, body, wide);
    AlignAbove(body, wide);
    AlignAbove(p + body, wide);
    hide Align, DescEnd;
  }

  /** The reader inverts the encoder: for notes of any owners, either alignment, and a last note with or without its
      final padding, the walk finds exactly the descriptions of the metadata records, in order. */
  lemma {:induction false} WalkInvertsEncoding(prefix: seq<byte>, notes: seq<Note>, wide: bool, lastPadded: bool)
    requires Aligned(|prefix|, wide)
    requires forall i :: 0 <= i < |notes| ==> Encodable(notes[i])
    ensures NotesFrom(prefix + EncodeNotes(notes, wide, lastPadded), wide, |prefix|) == MetadataRecords(notes)
    decreases |notes|
  {
    hide MetadataRecords, NotesFrom, EncodeNotes, EncodeNote, Aligned;
    if notes == [] {
      WalkNoNotes(prefix, wide, lastPadded);
    } else {
      WalkFirstNote(prefix, notes, wide, lastPadded);
      RecordsOfHead(notes);
      if !(|notes| == 1 && !lastPadded) {
        WalkInvertsEncoding(prefix + EncodeNote(notes[0], wide), notes[1..], wide, lastPadded);
      }
    }
  }

  lemma WalkNoNotes(prefix: seq<byte>, wide: bool, lastPadded: bool)
    ensures NotesFrom(prefix + EncodeNotes([], wide, lastPadded), wide, |prefix|) == MetadataRecords([])
  {
  }

  lemma WalkFirstNote(prefix: seq<byte>, notes: seq<Note>, wide: bool, lastPadded: bool)
    requires notes != [] && Aligned(|prefix|, wide) && Encodable(notes[0])
    ensures var s := prefix + EncodeNotes(notes, wide, lastPadded);
      var after := prefix + EncodeNote(notes[0], wide);
      if |notes| == 1 && !lastPadded then NotesFrom(s, wide, |prefix|) == MetadataRecords([notes[0]])
      else
        && Aligned(|after|, wide)
        && NotesFrom(s, wide, |prefix|)
           == MetadataRecords([notes[0]]) + NotesFrom(after + EncodeNotes(notes[1..], wide, lastPadded), wide, |after|)
  {
    hide MetadataRecords, NoteBody, NotesFrom, RecordAt, DescEnd, NextNote, EncodeNotes, Padding, Aligned;
    var body := NoteBody(notes[0], wide);
    var rest := AfterFirst(notes, wide, lastPadded);
    FirstNote(prefix, notes, wide, lastPadded);
    var s := prefix + body + rest;
    ReadNote(prefix, notes[0], rest, wide);
    UnrollOnce(s, wide, |prefix|);
    AfterNote(s, |prefix|, |body|, wide);
    if |notes| == 1 && !lastPadded {
      assert |s| == |prefix| + |body|;
      NoNotes(s, wide, |s|);
    } else {
      assert |prefix + EncodeNote(notes[0], wide)| == |prefix| + |body| + |Padding(|body|, wide)|;
    }
  }

  /** The bytes after the description of the first note. */
  function AfterFirst(notes: seq<Note>, wide: bool, lastPadded: bool): seq<byte>
    requires notes != []
  {
    if |notes| == 1 && !lastPadded then []
    else Padding(|NoteBody(notes[0], wide)|, wide) + EncodeNotes(notes[1..], wide, lastPadded)
  }

  lemma FirstNote(prefix: seq<byte>, notes: seq<Note>, wide: bool, lastPadded: bool)
    requires notes != []
    ensures var body := NoteBody(notes[0], wide);
      && prefix + EncodeNotes(notes, wide, lastPadded) == prefix + body + AfterFirst(notes, wide, lastPadded)
      && (|notes| == 1 && !lastPadded ==> AfterFirst(notes, wide, lastPadded) == [])
      && (!(|notes| == 1 && !lastPadded) ==>
           prefix + EncodeNotes(notes, wide, lastPadded)
           == prefix + EncodeNote(notes[0], wide) + EncodeNotes(notes[1..], wide, lastPadded))
  {
    var body := NoteBody(notes[0], wide);
    Regroup(prefix, body, Padding(|body|, wide), EncodeNotes(notes[1..], wide, lastPadded));
    assert prefix + body == prefix + body + [];
    hide NoteBody, Padding;
  }

  lemma Regroup(a: seq<byte>, b: seq<byte>, c: seq<byte>, d: seq<byte>)
    ensures a + (b + c + d) == a + b + (c + d)
    ensures a + (b + c + d) == a + (b + c) + d
  {
  }

  /** A program header of a file whose note segments hold encoded notes. */
  ghost predicate HoldsNotes(data: seq<byte>, e: ProgramHeader, notes: seq<Note>, lastPadded: bool) {
    if e.kind != PT_NOTE then notes == []
    else
      && (forall i :: 0 <= i < |notes| ==> Encodable(notes[i]))
      && e.offset + e.size <= |data|
      && data[e.offset..e.offset + e.size] == EncodeNotes(notes, e.wide, lastPadded)
  }

  function Flatten(notes: seq<seq<Note>>): seq<Note> {
    if notes == [] then [] else Flatten(notes[..|notes| - 1]) + notes[|notes| - 1]
  }

  lemma {:induction false} RecordsOfConcat(a: seq<Note>, b: seq<Note>)
    ensures MetadataRecords(a + b) == MetadataRecords(a) + MetadataRecords(b)
  {
    if a == [] {
      assert a + b == b;
    } else {
      assert (a + b)[1..] == a[1..] + b;
      RecordsOfConcat(a[1..], b);
    }
  }

  lemma {:induction false} RecordsOfFile(data: seq<byte>, h: Header, notes: seq<seq<Note>>, padded: seq<bool>, k: nat)
    requires EntrySize(h.elf64) <= h.phentsize && |padded| == |notes| && k <= |notes|
    requires h.phoff + |notes| * h.phentsize <= |data|
    requires forall i :: 0 <= i < |notes| ==> HoldsNotesAt(data, h, i, |notes|, notes[i], padded[i])
    ensures h.phoff + k * h.phentsize <= |data|
    ensures RecordsUpTo(data, h, k) == Ok(MetadataRecords(Flatten(notes[..k])))
  {
    hide NotesFrom, ParseEntry, EncodeNotes, MetadataRecords;
    TableInFile(h, k, |notes|, |data|);
    if k == 0 {
      assert MetadataRecords([]) == [] by { NoRecords(); }
    } else {
      RecordsOfFile(data, h, notes, padded, k - 1);
      assert HoldsNotesAt(data, h, k - 1, |notes|, notes[k - 1], padded[k - 1]);
      EntryInTable(h, k - 1, k, |data|);
      SegmentOfNotes(data, ParseEntry(data, h.elf64, h.phoff + (k - 1) * h.phentsize), notes[k - 1], padded[k - 1]);
      assert notes[..k][..k - 1] == notes[..k - 1];
      RecordsOfConcat(Flatten(notes[..k - 1]), notes[k - 1]);
    }
  }

  lemma NoRecords()
    ensures MetadataRecords([]) == []
  {
  }

  lemma SegmentOfNotes(data: seq<byte>, e: ProgramHeader, notes: seq<Note>, lastPadded: bool)
    requires HoldsNotes(data, e, notes, lastPadded)
    ensures SegmentRecords(data, e) == Ok(MetadataRecords(notes))
  {
    hide NotesFrom, EncodeNotes, MetadataRecords;
    if e.kind == PT_NOTE {
      WalkInvertsEncoding([], notes, e.wide, lastPadded);
      assert [] + EncodeNotes(notes, e.wide, lastPadded) == EncodeNotes(notes, e.wide, lastPadded);
    } else {
      NoRecords();
    }
  }

  ghost predicate HoldsNotesAt(data: seq<byte>, h: Header, i: nat, count: nat, notes: seq<Note>, lastPadded: bool)
    requires EntrySize(h.elf64) <= h.phentsize && i < count && h.phoff + count * h.phentsize <= |data|
  {
    EntryInTable(h, i, count, |data|);
    HoldsNotes(data, ParseEntry(data, h.elf64, h.phoff + i * h.phentsize), notes, lastPadded)
  }

  /** A whole module file, of either class and with any number of program headers (also past PN_XNUM): when its note
      segments hold encoded notes, the reader returns the one metadata record among all of them, nothing when there is
      none, and an error when there are several. */
  lemma ModuleInfoOfFile(data: seq<byte>, notes: seq<seq<Note>>, padded: seq<bool>)
    requires IsElf(data) && HeaderSize(data[4] == 2) <= |data| && |padded| == |notes|
    requires var h := ParseHeader(data, data[4] == 2);
      && h.phnum != 0 && CountEntries(data, h) == Ok(|notes|)
      && EntrySize(h.elf64) <= h.phentsize && h.phoff + |notes| * h.phentsize <= |data|
      && forall i :: 0 <= i < |notes| ==> HoldsNotesAt(data, h, i, |notes|, notes[i], padded[i])
    ensures var records := MetadataRecords(Flatten(notes));
      ModuleInfo(data) == (if |records| > 1 then Err(TooManyRecords) else Ok(if records == [] then [] else records[0]))
  {
    var h := ParseHeader(data, data[4] == 2);
    RecordsOfFile(data, h, notes, padded, |notes|);
    assert notes[..|notes|] == notes;
  }
}
