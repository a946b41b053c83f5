/** What the slots of a builder mean, which values a column accepts, and the normal form of a value:
    the vocabulary in which building and reading a column are compared. */
module ColumnMeaning {
  import opened Wrappers
  import opened ArrowTypes
  import opened Bytes
  import opened QoreValues
  import opened Scalars
  import opened ArrowArrays
  import opened BuilderColumns

  // The value a reader gets back, said without any column

  /** The normal form of a value in a column of type t: a null or NOTHING is NOTHING, a struct has one entry per field
      in schema order, NOTHING where the hash has no such key, a map keeps its keys in order,
      and a value of a type without children is what its stored cell decodes to. */
  function NormalForm(rt: Runtime, t: DataType, v: Value): Reading
    decreases t, 2, 0
  {
    if IsNothing(v) then Ok(QNothing)
    else if t.Struct? then
      if v.QHash? then HashValue(NormalFields(rt, t, v.entries, |t.fields|)) else Ok(QNothing)
    else if IsList(t) then
      if v.QList? then ListValue(NormalItems(rt, t.child.typ, v.items)) else Ok(QNothing)
    else if t.Map? then
      if v.QHash? then HashValue(NormalEntries(rt, t, v.entries)) else Ok(QNothing)
    else
      var stored := Encode(rt, t, v);
      if stored.Ok? && stored.value.Some? then Decode(rt, t, stored.value.value) else Ok(QNothing)
  }

  function NormalItems(rt: Runtime, t: DataType, vs: seq<Value>): Result<seq<Value>, ConvertError>
    decreases t, 3, |vs|
  {
    if vs == [] then Ok([])
    else AddValue(NormalItems(rt, t, vs[..|vs| - 1]), NormalForm(rt, t, vs[|vs| - 1]))
  }

  function NormalFields(rt: Runtime, t: DataType, h: seq<Entry>, k: nat): Result<seq<Entry>, ConvertError>
    requires t.Struct? && k <= |t.fields|
    decreases t, 1, k
  {
    if k == 0 then Ok([])
    else
      AddField(NormalFields(rt, t, h, k - 1), t.fields[k - 1].name,
               NormalForm(rt, t.fields[k - 1].typ, FieldValue(t, h, k - 1)))
  }

  function NormalEntries(rt: Runtime, t: DataType, h: seq<Entry>): Result<seq<Entry>, ConvertError>
    requires t.Map?
    decreases t, 1, |h|
  {
    if h == [] then Ok([])
    else
      var e := h[|h| - 1];
      AddEntry(rt, NormalEntries(rt, t, h[..|h| - 1]),
               NormalForm(rt, t.key.typ, QString(CStr(e.key))), NormalForm(rt, t.item.typ, e.value))
  }

  /** The values a column of type t accepts. */
  predicate Accepts(rt: Runtime, t: DataType, v: Value)
    decreases t, 1, 0
  {
    if IsNothing(v) then true
    else if t.Struct? then
      v.QHash? && forall k :: 0 <= k < |t.fields| ==> Accepts(rt, t.fields[k].typ, FieldValue(t, v.entries, k))
    else if IsList(t) then
      && v.QList?
      && (t.FixedSizeList? ==> Narrow(W32, true, |v.items|) == t.listSize)
      && forall i :: 0 <= i < |v.items| ==> Accepts(rt, t.child.typ, v.items[i])
    else if t.Map? then
      v.QHash? && forall i :: 0 <= i < |v.entries| ==> AcceptsEntry(rt, t, v.entries[i])
    else Encode(rt, t, v).Ok?
  }

  predicate AcceptsEntry(rt: Runtime, t: DataType, e: Entry)
    requires t.Map?
    decreases t, 0, 0
  {
    Accepts(rt, t.key.typ, QString(CStr(e.key))) && Accepts(rt, t.item.typ, e.value)
  }

  /** Every list for a fixed-size list slot that passes the length check, which casts the length to 32 bits, has the
      declared size. */
  predicate TrueSizes(t: DataType, v: Value)
    decreases t
  {
    if t.Struct? then
      v.QHash? ==> forall k :: 0 <= k < |t.fields| ==> TrueSizes(t.fields[k].typ, FieldValue(t, v.entries, k))
    else if IsList(t) then
      v.QList? ==>
        && (t.FixedSizeList? && Narrow(W32, true, |v.items|) == t.listSize ==> |v.items| == t.listSize)
        && forall i :: 0 <= i < |v.items| ==> TrueSizes(t.child.typ, v.items[i])
    else if t.Map? then
      v.QHash? ==> forall i :: 0 <= i < |v.entries| ==> TrueSizes(t.item.typ, v.entries[i].value)
    else true
  }

  /** No fixed-size list type has a negative size. */
  predicate Buildable(t: DataType) {
    && (t.FixedSizeList? ==> t.listSize >= 0)
    && forall k :: 0 <= k < |BuilderTypes(t)| ==> Buildable(BuilderTypes(t)[k])
  }

  /** A column of a buildable type all of whose values have true sizes. */
  predicate TrueColumn(t: DataType, vs: seq<Value>) {
    Buildable(t) && forall i :: 0 <= i < |vs| ==> TrueSizes(t, vs[i])
  }

  // The representation invariant of a builder tree

  ghost predicate Balanced(c: Column) {
    KidsBalanced(c.kids) && NodeBalanced(c)
  }

  ghost predicate KidsBalanced(kids: seq<Column>) {
    forall k :: 0 <= k < |kids| ==> Balanced(kids[k])
  }

  /** One builder and the lengths of its children: a struct child is as long as the struct, the child of a
      fixed-size list N times as long; starts never decrease and stay within the child; the key and item columns of a
      map are equally long; every cell fits the type. */
  predicate NodeBalanced(c: Column) {
    && |c.kids| == |BuilderTypes(c.typ)|
    && (forall k :: 0 <= k < |c.kids| ==> c.kids[k].typ == BuilderTypes(c.typ)[k])
    && (c.typ.Struct? ==> forall k :: 0 <= k < |c.kids| ==> Len(c.kids[k]) == Len(c))
    && (c.typ.FixedSizeList? ==> c.typ.listSize >= 0 && Len(c.kids[0]) == Len(c) * c.typ.listSize)
    && (Growing(c.typ) ==> StartsOk(c.starts, Len(c), Len(c.kids[0])))
    && (c.typ.Map? ==> Len(c.kids[1]) == Len(c.kids[0]))
    && (!Nested(c.typ) ==> |c.cells| == Len(c) && forall i :: 0 <= i < Len(c) && c.valid[i] ==> CellOk(c.typ, c.cells[i]))
    && (!CanHold(c.typ) ==> forall i :: 0 <= i < Len(c) ==> !c.valid[i])
  }

  predicate StartsOk(starts: seq<nat>, n: nat, childLen: nat) {
    && |starts| == n
    && (forall i, j :: 0 <= i < j < n ==> starts[i] <= starts[j])
    && (forall i :: 0 <= i < n ==> starts[i] <= childLen)
  }

  lemma {:induction false} BalancedIsShaped(c: Column)
    requires Balanced(c)
    ensures Shaped(c)
  {
    forall k | 0 <= k < |c.kids|
      ensures Shaped(c.kids[k])
    {
      BalancedIsShaped(c.kids[k]);
    }
  }

  lemma BalancedNode(c: Column)
    requires Balanced(c)
    ensures NodeBalanced(c) && KidsBalanced(c.kids)
  {
  }

  // What a slot means

  function From(c: Column, i: nat): int
    requires Growing(c.typ) ==> i < |c.starts|
  {
    if c.typ.FixedSizeList? then i * c.typ.listSize else if Growing(c.typ) then c.starts[i] else 0
  }

  /** The end of a list slot: the start of the next one, and for the last, still open slot, all of the child. */
  function To(c: Column, i: nat): int
    requires c.kids != []
  {
    if c.typ.FixedSizeList? then i * c.typ.listSize + c.typ.listSize
    else if i + 1 < |c.starts| then c.starts[i + 1]
    else Len(c.kids[0])
  }

  lemma WindowInChild(c: Column, i: nat)
    requires NodeBalanced(c) && i < Len(c)
    requires Growing(c.typ) || c.typ.FixedSizeList?
    ensures 0 <= From(c, i) <= To(c, i) <= Len(c.kids[0])
  {
    if c.typ.FixedSizeList? {
      MulMonotone(i + 1, Len(c), c.typ.listSize);
      MulMonotone(0, i, c.typ.listSize);
    }
  }

  ghost function Slot(rt: Runtime, c: Column, i: nat): Reading
    requires Balanced(c) && i < Len(c)
    decreases c, 1, 0
  {
    assert KidsBalanced(c.kids);
    if !c.valid[i] then Ok(QNothing)
    else if c.typ.Struct? then HashValue(SlotFields(rt, c, i, |c.kids|))
    else if IsList(c.typ) then
      WindowInChild(c, i);
      ListValue(SlotRange(rt, c.kids[0], From(c, i), To(c, i) - From(c, i)))
    else if c.typ.Map? then
      WindowInChild(c, i);
      HashValue(SlotEntries(rt, c, From(c, i), To(c, i) - From(c, i)))
    else Decode(rt, c.typ, c.cells[i])
  }

  ghost function SlotFields(rt: Runtime, c: Column, i: nat, k: nat): Result<seq<Entry>, ConvertError>
    requires Balanced(c) && c.typ.Struct? && i < Len(c) && k <= |c.kids|
    decreases c, 0, k
  {
    assert KidsBalanced(c.kids);
    if k == 0 then Ok([])
    else AddField(SlotFields(rt, c, i, k - 1), c.typ.fields[k - 1].name, Slot(rt, c.kids[k - 1], i))
  }

  ghost function SlotRange(rt: Runtime, c: Column, start: nat, n: nat): Result<seq<Value>, ConvertError>
    requires Balanced(c) && start + n <= Len(c)
    decreases c, 2, n
  {
    if n == 0 then Ok([]) else AddValue(SlotRange(rt, c, start, n - 1), Slot(rt, c, start + n - 1))
  }

  ghost function SlotEntries(rt: Runtime, c: Column, start: nat, n: nat): Result<seq<Entry>, ConvertError>
    requires Balanced(c) && c.typ.Map? && start + n <= Len(c.kids[0])
    decreases c, 0, n
  {
    assert KidsBalanced(c.kids);
    if n == 0 then Ok([])
    else
      AddEntry(rt, SlotEntries(rt, c, start, n - 1),
               Slot(rt, c.kids[0], start + n - 1), Slot(rt, c.kids[1], start + n - 1))
  }
}
