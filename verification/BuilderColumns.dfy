/** What a tree of Arrow builders holds, and what appendToBuilder does to it, as values.
    The builder classes in ArrowBuilders.dfy are proved against these functions. */
module BuilderColumns {
  import opened Wrappers
  import opened ArrowTypes
  import opened QoreValues
  import opened Scalars
  import opened ArrowArrays

  /** One builder: the validity bit of every slot, and by type either its cells, or the children with
      (for lists of variable size and for maps) the start of every slot in them.
      The end of the last list is not recorded: it stays open until the next slot or the end of building. */
  datatype Column = Column(
    typ: DataType,
    valid: seq<bool>,
    cells: seq<Cell>,
    starts: seq<nat>,
    kids: seq<Column>)

  function Len(c: Column): nat {
    |c.valid|
  }

  /** The types arrow::MakeBuilder makes child builders for. A dictionary or union builder is filled with nulls
      only (any other value is refused), so its children play no part. */
  function BuilderTypes(t: DataType): (ts: seq<DataType>)
    ensures forall k :: 0 <= k < |ts| ==> ts[k] < t
  {
    if CanHold(t) then ChildTypes(t) else []
  }

  /** The types whose slots can hold something other than a null. */
  predicate CanHold(t: DataType) {
    !t.NullType? && !t.Dictionary? && !t.Union?
  }

  predicate Growing(t: DataType) {
    t.List? || t.LargeList? || t.Map?
  }

  predicate Nested(t: DataType) {
    Growing(t) || t.FixedSizeList? || t.Struct?
  }

  /** The builder tree matches its type. */
  ghost predicate Shaped(c: Column) {
    KidsShaped(c.typ, c.kids)
  }

  ghost predicate KidsShaped(t: DataType, kids: seq<Column>)
    decreases kids
  {
    && |kids| == |BuilderTypes(t)|
    && forall k :: 0 <= k < |kids| ==> kids[k].typ == BuilderTypes(t)[k] && Shaped(kids[k])
  }

  lemma ReplaceKid(t: DataType, kids: seq<Column>, k: nat, c: Column)
    requires KidsShaped(t, kids) && k < |kids| && c.typ == kids[k].typ && Shaped(c)
    ensures KidsShaped(t, kids[k := c])
  {
    hide Shaped;
  }

  /** What Arrow stores in a slot that has no value. */
  function ZeroCell(t: DataType): (c: Cell)
    ensures CellOk(t, c)
  {
    match t
    case Boolean => Bit(false)
    case HalfFloat => Real(0.0)
    case Float => Real(0.0)
    case Double => Real(0.0)
    case Utf8 => Text("")
    case LargeUtf8 => Text("")
    case Binary => Raw([])
    case LargeBinary => Raw([])
    case FixedSizeBinary(_) => Raw([])
    case _ => Number(0)
  }

  /** AppendNull (ok is false) and AppendEmptyValue (ok is true). Every child of a struct gets one empty value,
      the child of a fixed-size list as many as the list is long; a list or map slot is left empty. */
  ghost function Blank(c: Column, ok: bool): (r: Column)
    requires Shaped(c)
    ensures r.typ == c.typ && Shaped(r)
    decreases c.typ, 0, 0
  {
    assert KidsShaped(c.typ, c.kids);
    var valid := c.valid + [ok && CanHold(c.typ)];
    if c.typ.Struct? then
      c.(valid := valid, kids := seq(|c.kids|, k requires 0 <= k < |c.kids| => Blank(c.kids[k], true)))
    else if c.typ.FixedSizeList? then
      c.(valid := valid, kids := [Blanks(c.kids[0], if c.typ.listSize < 0 then 0 else c.typ.listSize)])
    else if Growing(c.typ) then
      c.(valid := valid, starts := c.starts + [Len(c.kids[0])])
    else
      c.(valid := valid, cells := c.cells + [ZeroCell(c.typ)])
  }

  /** AppendEmptyValues. */
  ghost function Blanks(c: Column, n: nat): (r: Column)
    requires Shaped(c)
    ensures r.typ == c.typ && Shaped(r)
    decreases c.typ, 1, n
  {
    if n == 0 then c else Blank(Blanks(c, n - 1), true)
  }

  /** The builder after a call, and the error the call raised. */
  datatype Step = Step(col: Column, error: Option<ConvertError>)
  datatype KidsStep = KidsStep(kids: seq<Column>, error: Option<ConvertError>)

  predicate IsNothing(v: Value) {
    v.QNothing? || v.QNull?
  }

  /** A new slot of a list or map whose values are still to come. */
  function Open(c: Column): Column
    requires Growing(c.typ) ==> |c.kids| > 0
  {
    c.(valid := c.valid + [true], starts := if Growing(c.typ) then c.starts + [Len(c.kids[0])] else c.starts)
  }

  /** appendToBuilder: the state it leaves, also when it fails half way. */
  ghost function Append(rt: Runtime, c: Column, v: Value): (r: Step)
    requires Shaped(c)
    ensures r.col.typ == c.typ && Shaped(r.col)
    decreases c.typ, 2, 0
  {
    assert KidsShaped(c.typ, c.kids);
    if IsNothing(v) then Step(Blank(c, false), None)
    else if c.typ.Struct? then
      if !v.QHash? then Step(c, Some(ExpectedHash))
      else
        var s := AppendFields(rt, c.typ, c.kids, v.entries, |c.kids|);
        Step(Open(c).(kids := s.kids), s.error)
    else if IsList(c.typ) then
      if !v.QList? then Step(c, Some(ExpectedList))
      else if c.typ.FixedSizeList? && Narrow(W32, true, |v.items|) != c.typ.listSize then
        Step(c, Some(WrongListSize))
      else
        var s := AppendAll(rt, c.kids[0], v.items);
        Step(Open(c).(kids := [s.col]), s.error)
    else if c.typ.Map? then
      if !v.QHash? then Step(c, Some(ExpectedHash))
      else
        var s := AppendEntries(rt, c.typ, c.kids, v.entries);
        Step(Open(c).(kids := s.kids), s.error)
    else
      match Encode(rt, c.typ, v)
      case Err(e) => Step(c, Some(e))
      case Ok(None) => Step(Blank(c, false), None)
      case Ok(Some(cell)) =>
        Step(c.(valid := c.valid + [CanHold(c.typ)], cells := c.cells + [cell]), None)
  }

  /** The loop over list elements, and over the values of a whole column: it stops at the first error. */
  ghost function AppendAll(rt: Runtime, c: Column, vs: seq<Value>): (r: Step)
    requires Shaped(c)
    ensures r.col.typ == c.typ && Shaped(r.col)
    decreases c.typ, 3, |vs|
  {
    if vs == [] then Step(c, None)
    else
      var s := AppendAll(rt, c, vs[..|vs| - 1]);
      if s.error.Some? then s else Append(rt, s.col, vs[|vs| - 1])
  }

  /** The loop over the first k fields of a struct value. */
  ghost function AppendFields(rt: Runtime, t: DataType, kids: seq<Column>, h: seq<Entry>, k: nat): (r: KidsStep)
    requires t.Struct? && KidsShaped(t, kids) && k <= |kids|
    ensures KidsShaped(t, r.kids)
    decreases t, 1, k
  {
    if k == 0 then KidsStep(kids, None)
    else
      var s := AppendFields(rt, t, kids, h, k - 1);
      if s.error.Some? then s else AppendField(rt, t, s.kids, h, k - 1)
  }

  /** One field of a struct value. */
  ghost function AppendField(rt: Runtime, t: DataType, kids: seq<Column>, h: seq<Entry>, k: nat): (r: KidsStep)
    requires t.Struct? && KidsShaped(t, kids) && k < |kids|
    ensures KidsShaped(t, r.kids)
    decreases t, 0, 0
  {
    var one := Append(rt, kids[k], FieldValue(t, h, k));
    ReplaceKid(t, kids, k, one.col);
    KidsStep(kids[k := one.col], one.error)
  }

  /** The value a hash gives for field k of a struct. */
  function FieldValue(t: DataType, h: seq<Entry>, k: nat): Value
    requires t.Struct? && k < |t.fields|
  {
    GetKey(h, CStr(t.fields[k].name))
  }

  /** The loop over the entries of a map value. */
  ghost function AppendEntries(rt: Runtime, t: DataType, kids: seq<Column>, h: seq<Entry>): (r: KidsStep)
    requires t.Map? && KidsShaped(t, kids)
    ensures KidsShaped(t, r.kids)
    decreases t, 1, |h|
  {
    if h == [] then KidsStep(kids, None)
    else
      var s := AppendEntries(rt, t, kids, h[..|h| - 1]);
      if s.error.Some? then s else AppendEntry(rt, t, s.kids, h[|h| - 1])
  }

  /** One entry of a map value: the key first, then the item. */
  ghost function AppendEntry(rt: Runtime, t: DataType, kids: seq<Column>, e: Entry): (r: KidsStep)
    requires t.Map? && KidsShaped(t, kids)
    ensures KidsShaped(t, r.kids)
    decreases t, 0, 0
  {
    var key := Append(rt, kids[0], QString(CStr(e.key)));
    ReplaceKid(t, kids, 0, key.col);
    var keyed := kids[0 := key.col];
    if key.error.Some? then KidsStep(keyed, key.error)
    else
      var item := Append(rt, keyed[1], e.value);
      ReplaceKid(t, keyed, 1, item.col);
      KidsStep(keyed[1 := item.col], item.error)
  }

  /** A new builder tree (arrow::MakeBuilder). */
  function Empty(t: DataType): Column {
    var ts := BuilderTypes(t);
    Column(t, [], [], [], seq(|ts|, k requires 0 <= k < |ts| => Empty(ts[k])))
  }

  /** ArrayBuilder::Finish closes the last list and hands the buffers over. */
  function Finish(c: Column): Array {
    var kids := if CanHold(c.typ) then seq(|c.kids|, k requires 0 <= k < |c.kids| => Finish(c.kids[k]))
                else NullArray(c.typ, if Windowed(c.typ) then Len(c) else 0).data.kids;
    var offsets := if Growing(c.typ) && c.kids != [] then c.starts + [Len(c.kids[0])] else [];
    Array(Buffers(c.typ, Some(c.valid), c.cells, offsets, kids), 0, Len(c))
  }

  /** An array of n nulls. */
  function NullArray(t: DataType, n: nat): Array {
    var ts := ChildTypes(t);
    Array(Buffers(t, Some(seq(n, i => false)), [], [],
                  seq(|ts|, k requires 0 <= k < |ts| => NullArray(ts[k], n))), 0, n)
  }

  /** listToArray: an array, or an error and no array. */
  ghost function Build(rt: Runtime, t: DataType, vs: seq<Value>): Result<Array, ConvertError> {
    EmptyShaped(t);
    var s := AppendAll(rt, Empty(t), vs);
    if s.error.Some? then Err(s.error.value) else Ok(Finish(s.col))
  }

  lemma {:induction false} EmptyShaped(t: DataType)
    ensures Shaped(Empty(t))
  {
    forall k | 0 <= k < |BuilderTypes(t)|
      ensures Shaped(Empty(BuilderTypes(t)[k]))
    {
      EmptyShaped(BuilderTypes(t)[k]);
    }
  }
}
