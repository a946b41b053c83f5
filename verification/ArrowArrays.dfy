/** Finished Arrow arrays and their conversion to Qore values.
    The layouts are those of the Apache Arrow Columnar Format: "Validity bitmaps", "Variable-size List Layout",
    "Fixed-Size List Layout", "Struct Layout", "Union Layout" and "Dictionary-encoded Layout". */
module ArrowArrays {
  import opened Wrappers
  import opened ArrowTypes
  import opened QoreValues
  import opened Scalars

  /** The buffers and children of an array. `cells` holds the values of a type without children, the indices of a
      dictionary array, and the type codes of a union array. `offsets` holds the list offsets, and for a dense union
      the positions in its children. The children of a map are its key and its item column. */
  datatype Buffers = Buffers(
    typ: DataType,
    valid: Option<seq<bool>>,
    cells: seq<Cell>,
    offsets: seq<nat>,
    kids: seq<Array>)

  /** An array, or a slice of one: slot i is found at position offset + i of the buffers. */
  datatype Array = Array(data: Buffers, offset: nat, length: nat)

  /** Array::Slice shares the buffers. */
  function Slice(a: Array, start: nat, length: nat): Array {
    Array(a.data, a.offset + start, length)
  }

  function FieldTypes(fields: seq<Field>): (ts: seq<DataType>)
    ensures |ts| == |fields|
    ensures forall k :: 0 <= k < |fields| ==> ts[k] == fields[k].typ
  {
    seq(|fields|, k requires 0 <= k < |fields| => fields[k].typ)
  }

  /** The types of the child columns. */
  function ChildTypes(t: DataType): (ts: seq<DataType>)
    ensures forall k :: 0 <= k < |ts| ==> ts[k] < t
  {
    match t
    case List(child) => [child.typ]
    case LargeList(child) => [child.typ]
    case FixedSizeList(child, _) => [child.typ]
    case Struct(fields) => FieldTypes(fields)
    case Map(key, item) => [key.typ, item.typ]
    case Dictionary(_, dictionary) => [dictionary]
    case Union(_, fields, _, _) => FieldTypes(fields)
    case _ => []
  }

  predicate IsList(t: DataType) {
    t.List? || t.LargeList? || t.FixedSizeList?
  }

  /** The types whose children are read through the window of the parent. */
  predicate Windowed(t: DataType) {
    t.Struct? || (t.Union? && t.sparse)
  }

  /** The first position of a type code among the codes of a union, that is, the child it selects. */
  function ChildId(codes: seq<int>, code: int): nat {
    if codes == [] || codes[0] == code then 0 else 1 + ChildId(codes[1..], code)
  }

  predicate IsNull(d: Buffers, p: nat)
    requires d.valid.Some? ==> p < |d.valid.value|
  {
    d.typ.NullType? || (d.valid.Some? && !d.valid.value[p])
  }

  predicate HasOffsets(d: Buffers, p: nat) {
    d.typ.FixedSizeList? || p + 1 < |d.offsets|
  }

  /** value_offset and value_length: the slots of the children that belong to list or map position p. */
  function WindowStart(d: Buffers, p: nat): int
    requires HasOffsets(d, p)
  {
    if d.typ.FixedSizeList? then p * d.typ.listSize else d.offsets[p]
  }

  function WindowLength(d: Buffers, p: nat): int
    requires HasOffsets(d, p)
  {
    if d.typ.FixedSizeList? then d.typ.listSize else d.offsets[p + 1] as int - d.offsets[p] as int
  }

  predicate WindowOk(d: Buffers, p: nat) {
    && HasOffsets(d, p)
    && 0 <= WindowStart(d, p) && 0 <= WindowLength(d, p)
    && forall k :: 0 <= k < |d.kids| ==> WindowStart(d, p) + WindowLength(d, p) <= d.kids[k].length
  }

  predicate UnionSlotOk(d: Buffers, p: nat)
    requires d.typ.Union?
  {
    && p < |d.cells| && d.cells[p].Number?
    && ChildId(d.typ.codes, d.cells[p].n) < |d.kids|
    && (!d.typ.sparse ==> p < |d.offsets| && d.offsets[p] < d.kids[ChildId(d.typ.codes, d.cells[p].n)].length)
  }

  /** What a position that is not null needs: the layout rules of its type. */
  predicate SlotOk(d: Buffers, p: nat) {
    if IsList(d.typ) || d.typ.Map? then WindowOk(d, p)
    else if d.typ.Struct? then true
    else if d.typ.Dictionary? then d.typ.index.Integer? && p < |d.cells| && CellOk(d.typ.index, d.cells[p])
    else if d.typ.Union? then UnionSlotOk(d, p)
    else p < |d.cells| && CellOk(d.typ, d.cells[p])
  }

  ghost predicate KidsOk(d: Buffers) {
    && |d.kids| == |ChildTypes(d.typ)|
    && forall k :: 0 <= k < |d.kids| ==> d.kids[k].data.typ == ChildTypes(d.typ)[k] && WellFormed(d.kids[k])
  }

  ghost predicate WellFormed(a: Array) {
    && KidsOk(a.data)
    && (a.data.valid.Some? ==> a.offset + a.length <= |a.data.valid.value|)
    && (Windowed(a.data.typ) ==>
          forall k :: 0 <= k < |a.data.kids| ==> a.offset + a.length <= a.data.kids[k].length)
    && (forall p :: a.offset <= p < a.offset + a.length && !IsNull(a.data, p) ==> SlotOk(a.data, p))
  }

  lemma SliceWellFormed(a: Array, start: nat, length: nat)
    requires WellFormed(a) && start + length <= a.length
    ensures WellFormed(Slice(a, start, length))
  {
    hide KidsOk, SlotOk;
  }

  /** A child that is read through the window of its parent. */
  lemma WindowedKid(a: Array, k: nat)
    requires WellFormed(a) && Windowed(a.data.typ) && k < |a.data.kids|
    ensures KidsOk(a.data) && WellFormed(a.data.kids[k]) && a.offset + a.length <= a.data.kids[k].length
    ensures k < |ChildTypes(a.data.typ)| && a.data.kids[k].data.typ == ChildTypes(a.data.typ)[k]
    ensures WellFormed(Slice(a.data.kids[k], a.offset, a.length))
  {
    assert KidsOk(a.data);
    SliceWellFormed(a.data.kids[k], a.offset, a.length);
  }

  lemma StructKids(a: Array)
    requires WellFormed(a) && a.data.typ.Struct?
    ensures KidsOk(a.data) && |a.data.kids| == |a.data.typ.fields|
  {
  }

  lemma MapKids(d: Buffers)
    requires KidsOk(d) && d.typ.Map?
    ensures |d.kids| == 2 && WellFormed(d.kids[0]) && WellFormed(d.kids[1])
    ensures d.kids[0].data.typ == d.typ.key.typ && d.kids[1].data.typ == d.typ.item.typ
  {
  }

  // One round of the reading loops: the first error ends the loop.

  type Reading = Result<Value, ConvertError>

  function AddValue(vs: Result<seq<Value>, ConvertError>, v: Reading): Result<seq<Value>, ConvertError> {
    if vs.Err? then vs else if v.Err? then Err(v.error) else Ok(vs.value + [v.value])
  }

  function AddField(h: Result<seq<Entry>, ConvertError>, name: string, v: Reading)
    : Result<seq<Entry>, ConvertError>
  {
    if h.Err? then h else if v.Err? then Err(v.error) else Ok(SetKey(h.value, name, v.value))
  }

  function AddEntry(rt: Runtime, h: Result<seq<Entry>, ConvertError>, key: Reading, item: Reading)
    : Result<seq<Entry>, ConvertError>
  {
    if h.Err? then h else if key.Err? then Err(key.error) else AddField(h, CStr(AsText(rt, key.value)), item)
  }

  function ListValue(vs: Result<seq<Value>, ConvertError>): Reading {
    if vs.Err? then Err(vs.error) else Ok(QList(vs.value))
  }

  function HashValue(h: Result<seq<Entry>, ConvertError>): Reading {
    if h.Err? then Err(h.error) else Ok(QHash(h.value))
  }

  /** scalarToQore. */
  ghost function Read(rt: Runtime, a: Array, i: nat): Reading
    requires WellFormed(a) && i < a.length
    decreases a.data.typ, 1, 0
  {
    var d, p := a.data, a.offset + i;
    assert KidsOk(d);
    if IsNull(d, p) then Ok(QNothing)
    else if IsList(d.typ) then ListValue(ReadRange(rt, d.kids[0], WindowStart(d, p), WindowLength(d, p)))
    else if d.typ.Map? then HashValue(ReadEntries(rt, d, WindowStart(d, p), WindowLength(d, p)))
    else if d.typ.Struct? then HashValue(ReadFields(rt, a, i, |d.typ.fields|))
    else if d.typ.Dictionary? then
      var found := Decode(rt, d.typ.index, d.cells[p]);
      if found.Err? then found
      else
        var k := AsBigInt(rt, found.value);
        if 0 <= k < d.kids[0].length then Read(rt, d.kids[0], k) else Err(DictionaryIndex(k))
    else if d.typ.Union? then
      var id := ChildId(d.typ.codes, d.cells[p].n);
      if d.typ.sparse then ReadKid(rt, a, id, i) else Read(rt, d.kids[id], d.offsets[p])
    else Decode(rt, d.typ, d.cells[p])
  }

  /** Slot i of child k of a struct or sparse union: the child is sliced to the window of its parent
      (StructArray::field, UnionArray::field) and read at the same index. */
  ghost function ReadKid(rt: Runtime, a: Array, k: nat, i: nat): Reading
    requires WellFormed(a) && i < a.length
    requires Windowed(a.data.typ) && k < |a.data.kids|
    decreases a.data.typ, 0, 0
  {
    assert KidsOk(a.data);
    SliceWellFormed(a.data.kids[k], a.offset, a.length);
    Read(rt, Slice(a.data.kids[k], a.offset, a.length), i)
  }

  /** The hash built from the first k children of struct slot i. */
  ghost function ReadFields(rt: Runtime, a: Array, i: nat, k: nat): Result<seq<Entry>, ConvertError>
    requires WellFormed(a) && i < a.length
    requires a.data.typ.Struct? && k <= |a.data.typ.fields|
    decreases a.data.typ, 0, k
  {
    assert KidsOk(a.data);
    if k == 0 then Ok([])
    else AddField(ReadFields(rt, a, i, k - 1), a.data.typ.fields[k - 1].name, ReadKid(rt, a, k - 1, i))
  }

  /** The values of n slots in order. */
  ghost function ReadRange(rt: Runtime, a: Array, start: nat, n: nat): (r: Result<seq<Value>, ConvertError>)
    requires WellFormed(a) && start + n <= a.length
    ensures r.Ok? ==> |r.value| == n
    decreases a.data.typ, 2, n
  {
    if n == 0 then Ok([]) else AddValue(ReadRange(rt, a, start, n - 1), Read(rt, a, start + n - 1))
  }

  /** The hash built from n keys and items of a map column. */
  ghost function ReadEntries(rt: Runtime, d: Buffers, start: nat, n: nat): Result<seq<Entry>, ConvertError>
    requires KidsOk(d) && d.typ.Map?
    requires start + n <= d.kids[0].length && start + n <= d.kids[1].length
    decreases d.typ, 0, n
  {
    if n == 0 then Ok([])
    else
      AddEntry(rt, ReadEntries(rt, d, start, n - 1),
               Read(rt, d.kids[0], start + n - 1), Read(rt, d.kids[1], start + n - 1))
  }

  /** arrayToList. */
  ghost function Values(rt: Runtime, a: Array): Result<seq<Value>, ConvertError>
    requires WellFormed(a)
  {
    ReadRange(rt, a, 0, a.length)
  }

  // Conversion and slicing

  /** Reading a slot of a slice reads the slot of the whole array it stands for, for every type and nesting. */
  lemma {:induction false} ReadSlice(rt: Runtime, a: Array, start: nat, length: nat, i: nat)
    requires WellFormed(a) && start + length <= a.length && i < length
    ensures WellFormed(Slice(a, start, length))
    ensures Read(rt, Slice(a, start, length), i) == Read(rt, a, start + i)
    decreases a.data.typ, 1, 0
  {
    SliceWellFormed(a, start, length);
    var d, p := a.data, a.offset + start + i;
    if d.typ.Struct? {
      ReadFieldsOfSlice(rt, a, start, length, i, |d.typ.fields|);
    } else if d.typ.Union? && d.typ.sparse && !IsNull(d, p) {
      ReadKidOfSlice(rt, a, ChildId(d.typ.codes, d.cells[p].n), start, length, i);
    }
  }

  /** A child reached through the window of a slice is the child reached through the window of the whole. */
  lemma {:induction false} ReadKidOfSlice(rt: Runtime, a: Array, k: nat, start: nat, length: nat, i: nat)
    requires WellFormed(a) && start + length <= a.length && i < length
    requires Windowed(a.data.typ) && k < |a.data.kids|
    ensures WellFormed(Slice(a, start, length))
    ensures ReadKid(rt, Slice(a, start, length), k, i) == ReadKid(rt, a, k, start + i)
    decreases a.data.typ, 0, 0
  {
    hide WellFormed, Read, KidsOk;
    SliceWellFormed(a, start, length);
    WindowedKid(a, k);
    var kid := a.data.kids[k];
    ReadSlice(rt, kid, a.offset + start, length, i);
    ReadSlice(rt, kid, a.offset, a.length, start + i);
  }

  lemma {:induction false} ReadFieldsOfSlice(rt: Runtime, a: Array, start: nat, length: nat, i: nat, k: nat)
    requires WellFormed(a) && start + length <= a.length && i < length
    requires a.data.typ.Struct? && k <= |a.data.typ.fields|
    ensures WellFormed(Slice(a, start, length))
    ensures ReadFields(rt, Slice(a, start, length), i, k) == ReadFields(rt, a, start + i, k)
    decreases a.data.typ, 0, k
  {
    hide WellFormed, ReadKid, KidsOk;
    SliceWellFormed(a, start, length);
    StructKids(a);
    if k > 0 {
      ReadFieldsOfSlice(rt, a, start, length, i, k - 1);
      ReadKidOfSlice(rt, a, k - 1, start, length, i);
    }
  }

  lemma {:induction false} ReadRangeOfSlice(rt: Runtime, a: Array, start: nat, length: nat, n: nat)
    requires WellFormed(a) && start + length <= a.length && n <= length
    ensures WellFormed(Slice(a, start, length))
    ensures ReadRange(rt, Slice(a, start, length), 0, n) == ReadRange(rt, a, start, n)
  {
    hide WellFormed, Read, ReadRange;
    SliceWellFormed(a, start, length);
    if n == 0 {
      EmptyRange(rt, Slice(a, start, length), 0);
      EmptyRange(rt, a, start);
    } else {
      ReadRangeOfSlice(rt, a, start, length, n - 1);
      ReadSlice(rt, a, start, length, n - 1);
      RangeStep(rt, Slice(a, start, length), 0, n);
      RangeStep(rt, a, start, n);
    }
  }

  lemma EmptyRange(rt: Runtime, a: Array, start: nat)
    requires WellFormed(a) && start <= a.length
    ensures ReadRange(rt, a, start, 0) == Ok([])
  {
    hide WellFormed;
  }

  lemma RangeStep(rt: Runtime, a: Array, start: nat, n: nat)
    requires WellFormed(a) && 0 < n && start + n <= a.length
    ensures ReadRange(rt, a, start, n) == AddValue(ReadRange(rt, a, start, n - 1), Read(rt, a, start + n - 1))
  {
    hide WellFormed, Read;
  }

  lemma {:induction false} SubRange(rt: Runtime, a: Array, start: nat, n: nat, from: nat, m: nat)
    requires WellFormed(a) && start + n <= a.length && from + m <= n
    requires ReadRange(rt, a, start, n).Ok?
    ensures ReadRange(rt, a, start + from, m) == Ok(ReadRange(rt, a, start, n).value[from..from + m])
    decreases n
  {
    hide WellFormed, Read;
    if m > 0 {
      var front, last := ReadRange(rt, a, start, n - 1), Read(rt, a, start + n - 1);
      assert ReadRange(rt, a, start, n) == AddValue(front, last);
      if from + m < n {
        SubRange(rt, a, start, n - 1, from, m);
        assert (front.value + [last.value])[from..from + m] == front.value[from..from + m];
      } else {
        SubRange(rt, a, start, n - 1, from, m - 1);
        assert ReadRange(rt, a, start + from, m) == AddValue(ReadRange(rt, a, start + from, m - 1), last);
        assert (front.value + [last.value])[from..n] == front.value[from..n - 1] + [last.value];
      }
    } else {
      assert ReadRange(rt, a, start, n).value[from..from] == [];
    }
  }

  /** Conversion commutes with slicing, for every array and every window of it: when the whole converts, a slice
      converts to that slice of the result, and in any case a slice converts to what its own slots hold. */
  lemma ConversionCommutesWithSlicing(rt: Runtime, a: Array, start: nat, length: nat)
    requires WellFormed(a) && start + length <= a.length
    ensures WellFormed(Slice(a, start, length))
    ensures Values(rt, Slice(a, start, length)) == ReadRange(rt, a, start, length)
    ensures Values(rt, a).Ok? ==>
              Values(rt, Slice(a, start, length)) == Ok(Values(rt, a).value[start..start + length])
  {
    ReadRangeOfSlice(rt, a, start, length, length);
    hide WellFormed, ReadRange;
    if Values(rt, a).Ok? {
      SubRange(rt, a, 0, a.length, start, length);
    }
  }
}
