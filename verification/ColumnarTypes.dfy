/** Arrow types as ColumnarResult type descriptors, and back: the canonicaliser, and what the Arrow C Data Interface takes. */
module ColumnarTypes {
  import opened Wrappers
  import opened ArrowTypes
  import opened TypeNames

  /** QoreBufferElementType. */
  datatype Element =
    | Invalid | Int8 | Int16 | Int32 | Int64 | Float32 | Float64 | BoolBits | Text | WideDecimal | OtherElement

  /** QoreColumnarTypeKind. */
  datatype Kind =
    | AutoKind | BoolKind | IntKind | FloatKind | NumberKind | StringKind | DecimalKind | BinaryKind | DateKind
    | TimestampKind | DurationKind | ListKind | LargeListKind | FixedSizeListKind | StructKind | MapKind | DictionaryKind

  /** QoreColumnarColumnType. */
  datatype ColumnType =
    | AutoColumn | BoolColumn | IntColumn | FloatColumn | NumberColumn | StringColumn | DateColumn | BinaryColumn

  /** QoreColumnarTypeDescriptor. */
  datatype Descriptor = Descriptor(
    name: string,
    nullable: bool,
    nativeType: string,
    buffer: Element,
    kind: Kind,
    column: ColumnType,
    timeUnit: string,
    timezone: string,
    fixedSize: int32,
    precision: int32,
    scale: int32,
    indexType: string,
    children: seq<Descriptor>)

  function UnitFromName(unit: string): TimeUnit {
    if unit == "s" || unit == "second" then Second
    else if unit == "ms" || unit == "milli" then Milli
    else if unit == "ns" || unit == "nano" then Nano
    else Micro
  }

  predicate MicrosecondTemporal(t: DataType) {
    (t.Timestamp? || t.Duration?) && t.unit == Micro
  }

  /** arrowTypeToBufferElementType. */
  function ElementOf(t: DataType): Element {
    match t
    case Integer(width, signed) =>
      if !signed then Invalid
      else (match width
            case W8 => Int8
            case W16 => Int16
            case W32 => Int32
            case W64 => Int64)
    case Float => Float32
    case Double => Float64
    case Boolean => BoolBits
    case _ => if MicrosecondTemporal(t) then Int64 else Invalid
  }

  /** bufferElementTypeToArrowType. */
  function ElementType(e: Element): Option<DataType> {
    match e
    case Int8 => Some(Integer(W8, true))
    case Int16 => Some(Integer(W16, true))
    case Int32 => Some(Integer(W32, true))
    case Int64 => Some(Integer(W64, true))
    case Float32 => Some(Float)
    case Float64 => Some(Double)
    case BoolBits => Some(Boolean)
    case Text => Some(Utf8)
    case _ => None
  }

  // From Arrow

  /** The descriptor of a type before its children are added. */
  function Described(name: string, t: DataType, nullable: bool): Descriptor {
    var d := Descriptor(name, nullable, TypeName(t), ElementOf(t), AutoKind, AutoColumn, "", "", 0, 0, 0, "", []);
    match t
    case Boolean => d.(kind := BoolKind, column := BoolColumn)
    case Integer(_, _) => d.(kind := IntKind, column := IntColumn)
    case HalfFloat => d.(kind := FloatKind, column := FloatColumn)
    case Float => d.(kind := FloatKind, column := FloatColumn)
    case Double => d.(kind := FloatKind, column := FloatColumn)
    case Utf8 => d.(kind := StringKind, column := StringColumn)
    case LargeUtf8 => d.(kind := StringKind, column := StringColumn)
    case Binary => d.(kind := BinaryKind, column := BinaryColumn)
    case LargeBinary => d.(kind := BinaryKind, column := BinaryColumn)
    case FixedSizeBinary(n) => d.(kind := BinaryKind, column := BinaryColumn, fixedSize := n)
    case Date32 => d.(kind := DateKind, column := DateColumn)
    case Date64 => d.(kind := DateKind, column := DateColumn)
    case Timestamp(unit, timezone) =>
      d.(kind := TimestampKind, column := DateColumn, timeUnit := UnitName(unit), timezone := timezone)
    case Time32(millis) =>
      d.(kind := DateKind, column := DateColumn, timeUnit := UnitName(if millis then Milli else Second))
    case Time64(nanos) =>
      d.(kind := DateKind, column := DateColumn, timeUnit := UnitName(if nanos then Nano else Micro))
    case Duration(unit) => d.(kind := DurationKind, column := DateColumn, timeUnit := UnitName(unit))
    case Decimal128(precision, scale) =>
      d.(kind := DecimalKind, column := NumberColumn, precision := precision, scale := scale)
    case Decimal256(precision, scale) =>
      d.(kind := NumberKind, column := NumberColumn, precision := precision, scale := scale)
    case List(_) => d.(kind := ListKind)
    case LargeList(_) => d.(kind := LargeListKind)
    case FixedSizeList(_, n) => d.(kind := FixedSizeListKind, fixedSize := n)
    case Struct(_) => d.(kind := StructKind)
    case Map(_, _) => d.(kind := MapKind)
    case Dictionary(index, _) => d.(kind := DictionaryKind, indexType := TypeName(index))
    case _ => d
  }

  /** arrowTypeToColumnarDescriptor. */
  function Describe(name: string, t: DataType, nullable: bool): Descriptor
    decreases t
  {
    Described(name, t, nullable).(children := DescribeChildren(t))
  }

  function DescribeChildren(t: DataType): (ds: seq<Descriptor>)
    decreases t, 0
  {
    if t.Map? then [Describe("key", t.key.typ, false), Describe("item", t.item.typ, true)]
    else if t.Dictionary? then [Describe("dictionary", t.dictionary, true)]
    else
      var fs := ChildFields(t);
      seq(|fs|, k requires 0 <= k < |fs| => Describe(fs[k].name, fs[k].typ, fs[k].nullable))
  }

  /** arrowTypeToColumnarDescriptor. */
  method ArrowToDescriptor(name: string, t: DataType, nullable: bool) returns (d: Descriptor)
    ensures d == Describe(name, t, nullable)
    decreases t
  {
    hide Described;
    d := Described(name, t, nullable);
    var children: seq<Descriptor> := [];
    if t.Map? {
      var key := ArrowToDescriptor("key", t.key.typ, false);
      var item := ArrowToDescriptor("item", t.item.typ, true);
      return d.(children := [key, item]);
    }
    if t.Dictionary? {
      var dictionary := ArrowToDescriptor("dictionary", t.dictionary, true);
      return d.(children := [dictionary]);
    }
    var fs := ChildFields(t);
    for i := 0 to |fs|
      invariant children == DescribeChildren(t)[..i]
    {
      var child := ArrowToDescriptor(fs[i].name, fs[i].typ, fs[i].nullable);
      children := children + [child];
    }
    d := d.(children := children);
  }

  // To Arrow

  /** The error names the fixed-size list without a positive size. */
  type Conversion = Result<DataType, string>

  /** columnarDescriptorToArrowType. */
  function ToArrow(d: Descriptor): Conversion
    decreases d, 1
  {
    if d.kind == DateKind || d.kind == TimestampKind then Ok(Timestamp(UnitFromName(d.timeUnit), d.timezone))
    else if d.kind == DurationKind then Ok(Duration(UnitFromName(d.timeUnit)))
    else if ElementType(d.buffer).Some? then Ok(ElementType(d.buffer).value)
    else ByKind(d)
  }

  /** The second switch, for descriptors that are neither temporal nor backed by a typed buffer. */
  function ByKind(d: Descriptor): Conversion
    decreases d, 0
  {
    match d.kind
    case BoolKind => Ok(Boolean)
    case IntKind => Ok(Integer(W64, true))
    case FloatKind => Ok(Double)
    case NumberKind => Ok(NumberType(d))
    case StringKind => Ok(Utf8)
    case DecimalKind => Ok(Decimal128(if d.precision > 0 then d.precision else 38, d.scale))
    case BinaryKind => Ok(if d.fixedSize > 0 then FixedSizeBinary(d.fixedSize) else Binary)
    case ListKind =>
      var child :- FirstChild(d);
      Ok(List(child))
    case LargeListKind =>
      var child :- FirstChild(d);
      Ok(LargeList(child))
    case FixedSizeListKind =>
      if d.fixedSize <= 0 then Err(d.name)
      else
        var child :- FirstChild(d);
        Ok(FixedSizeList(child, d.fixedSize))
    case StructKind =>
      var fields :- ChildrenToFields(d.children, |d.children|);
      Ok(Struct(fields))
    case MapKind =>
      var key :- if |d.children| >= 1 then ToArrow(d.children[0]) else Ok(Utf8);
      var item :- if |d.children| >= 2 then ToArrow(d.children[1]) else Ok(Utf8);
      Ok(MapOf(key, item))
    case DictionaryKind => if d.children == [] then Ok(Utf8) else ToArrow(d.children[0])
    case _ => Ok(ByColumn(d))
  }

  function NumberType(d: Descriptor): DataType {
    Decimal128(if d.precision > 0 then d.precision else 38, if d.precision > 0 then d.scale else 10)
  }

  function ByColumn(d: Descriptor): DataType {
    match d.column
    case BoolColumn => Boolean
    case IntColumn => Integer(W64, true)
    case FloatColumn => Double
    case NumberColumn => NumberType(d)
    case DateColumn => Timestamp(Micro, "")
    case BinaryColumn => Binary
    case _ => Utf8
  }

  /** The element field of a list. */
  function FirstChild(d: Descriptor): Result<Field, string>
    decreases d.children, 1
  {
    if d.children == [] then Ok(PlainField("item", Utf8)) else ToField(d.children[0], "item")
  }

  /** columnarDescriptorToArrowField. */
  function ToField(d: Descriptor, fallback: string): Result<Field, string>
    decreases d, 2
  {
    var typ :- ToArrow(d);
    Ok(Field(if d.name == "" then fallback else d.name, typ, d.nullable, None))
  }

  /** columnarChildrenToArrowFields, up to child k. */
  function ChildrenToFields(ds: seq<Descriptor>, k: nat): Result<seq<Field>, string>
    requires k <= |ds|
    decreases ds, 0, k
  {
    if k == 0 then Ok([])
    else
      var fields :- ChildrenToFields(ds, k - 1);
      var field :- ToField(ds[k - 1], "item");
      Ok(fields + [field])
  }
}
