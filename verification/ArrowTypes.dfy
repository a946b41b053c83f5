/** Arrow logical types and fields, as the Arrow library hands them to the converter. */
module ArrowTypes {
  import opened Wrappers

  type int32 = x: int | -0x8000_0000 <= x < 0x8000_0000
  type int64 = x: int | -0x8000_0000_0000_0000 <= x < 0x8000_0000_0000_0000

  datatype TimeUnit = Second | Milli | Micro | Nano

  datatype Width = W8 | W16 | W32 | W64

  /** One key and value of a KeyValueMetadata object; keys may repeat there. */
  datatype Pair = Pair(key: string, text: string)

  datatype Field = Field(name: string, typ: DataType, nullable: bool, metadata: Option<seq<Pair>>)

  /** `Time32` and `Time64` carry the only two units Arrow admits for them.
      `Map` holds the two members of its entries struct.
      `detail` is what Arrow prints after the opening `<` of a union type. */
  datatype DataType =
    | NullType
    | Boolean
    | Integer(width: Width, signed: bool)
    | HalfFloat
    | Float
    | Double
    | Utf8
    | LargeUtf8
    | Binary
    | LargeBinary
    | FixedSizeBinary(byteWidth: int32)
    | Date32
    | Date64
    | Timestamp(unit: TimeUnit, timezone: string)
    | Time32(millis: bool)
    | Time64(nanos: bool)
    | Duration(unit: TimeUnit)
    | Decimal128(precision: int32, scale: int32)
    | Decimal256(precision: int32, scale: int32)
    | List(child: Field)
    | LargeList(child: Field)
    | FixedSizeList(child: Field, listSize: int32)
    | Struct(fields: seq<Field>)
    | Map(key: Field, item: Field)
    | Dictionary(index: DataType, dictionary: DataType)
    | Union(sparse: bool, fields: seq<Field>, codes: seq<int>, detail: string)

  /** arrow::field(name, type) and the element field of arrow::list(type). */
  function PlainField(name: string, typ: DataType): Field {
    Field(name, typ, true, None)
  }

  /** arrow::map(key_type, item_type). */
  function MapOf(key: DataType, item: DataType): DataType {
    Map(Field("key", key, false, None), PlainField("value", item))
  }

  /** type->field(i); a map has one child, its entries struct. */
  function ChildFields(t: DataType): (fs: seq<Field>)
    ensures !t.Map? ==> forall k :: 0 <= k < |fs| ==> fs[k] < t
  {
    match t
    case List(child) => [child]
    case LargeList(child) => [child]
    case FixedSizeList(child, _) => [child]
    case Struct(fields) => fields
    case Map(key, item) => [EntriesField(key, item)]
    case Union(_, fields, _, _) => fields
    case _ => []
  }

  function EntriesField(key: Field, item: Field): Field {
    Field("entries", Struct([key, item]), false, None)
  }
}
