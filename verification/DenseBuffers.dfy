/** The fixed-width columns that are shared instead of converted: arrowArrayToDenseBuffer and qoreBufferToArrowArray,
    down to their bytes ("Validity bitmaps" and "Fixed-size Primitive Layout" of the Arrow columnar format). */
module DenseBuffers {
  import opened Wrappers
  import opened ArrowTypes
  import opened Bytes
  import opened ColumnarTypes

  /** An element as it lies in a values buffer. */
  datatype Stored = StoredBit(on: bool) | StoredBytes(bytes: seq<byte>)

  /** The bytes of one element; a bool takes one bit. */
  function ByteWidth(e: Element): nat {
    match e
    case Int8 => 1
    case Int16 => 2
    case Int32 => 4
    case Float32 => 4
    case Int64 => 8
    case Float64 => 8
    case _ => 0
  }

  /** The element types that back an Arrow column directly. */
  predicate Dense(e: Element) {
    e == BoolBits || ByteWidth(e) > 0
  }

  /** Bit k, counted from the least significant bit of the first byte. */
  function BitAt(bytes: seq<byte>, k: nat): bool
    requires k / 8 < |bytes|
  {
    bytes[k / 8] / Power(2, k % 8) % 2 == 1
  }

  predicate InValues(e: Element, values: seq<byte>, k: nat) {
    if e == BoolBits then k / 8 < |values| else (k + 1) * ByteWidth(e) <= |values|
  }

  function StoredAt(e: Element, values: seq<byte>, k: nat): Stored
    requires InValues(e, values, k)
  {
    if e == BoolBits then StoredBit(BitAt(values, k))
    else StoredBytes(values[k * ByteWidth(e)..k * ByteWidth(e) + ByteWidth(e)])
  }

  /** Without a validity bitmap every slot is valid. */
  predicate IsValid(validity: Option<seq<byte>>, k: nat)
    requires validity.Some? ==> k / 8 < |validity.value|
  {
    validity.None? || BitAt(validity.value, k)
  }

  /** The number of nulls among n slots from bit `first` on. */
  function Nulls(validity: Option<seq<byte>>, first: nat, n: nat): nat
    requires validity.Some? && n > 0 ==> (first + n - 1) / 8 < |validity.value|
  {
    if n == 0 then 0
    else Nulls(validity, first, n - 1) + if IsValid(validity, first + n - 1) then 0 else 1
  }

  /** The buffers of an Arrow array of a type without children: slot i is element offset + i. */
  datatype FixedArray = FixedArray(
    typ: DataType,
    offset: nat,
    length: nat,
    nullCount: nat,
    validity: Option<seq<byte>>,
    values: Option<seq<byte>>)

  /** A libqore buffer: element i is element start + i of `data`, and null when bit validityBit + i is off. */
  datatype DenseBuffer = DenseBuffer(
    element: Element,
    nullable: bool,
    size: nat,
    data: Option<seq<byte>>,
    start: nat,
    validity: Option<seq<byte>>,
    validityBit: nat,
    nullCount: nat)

  datatype DenseError = NoDataBuffer

  /** The buffers reach to the last of n slots. */
  predicate Covers(e: Element, validity: Option<seq<byte>>, firstBit: nat, values: Option<seq<byte>>, first: nat, n: nat) {
    n > 0 ==>
      && (values.Some? ==> InValues(e, values.value, first + n - 1))
      && (validity.Some? ==> (firstBit + n - 1) / 8 < |validity.value|)
  }

  /** Then every slot's element and validity bit lie in them. */
  lemma SlotCovered(e: Element, validity: Option<seq<byte>>, firstBit: nat, values: Option<seq<byte>>, first: nat,
                    n: nat, i: nat)
    requires Covers(e, validity, firstBit, values, first, n) && i < n
    ensures values.Some? ==> InValues(e, values.value, first + i)
    ensures validity.Some? ==> (firstBit + i) / 8 < |validity.value|
  {
    MulMonotone(first + i + 1, first + n, ByteWidth(e));
  }

  /** What Arrow promises of an array of a dense type: buffers of sufficient size, and the exact number of nulls. */
  ghost predicate Layout(a: FixedArray) {
    && Covers(ElementOf(a.typ), a.validity, a.offset, a.values, a.offset, a.length)
    && a.nullCount == Nulls(a.validity, a.offset, a.length)
  }

  /** The validity bitmap that counts: that of a buffer whose elements can be null. */
  function Mask(b: DenseBuffer): Option<seq<byte>> {
    if b.nullable then b.validity else None
  }

  ghost predicate ValidBuffer(b: DenseBuffer) {
    && Dense(b.element)
    && Covers(b.element, Mask(b), b.validityBit, b.data, b.start, b.size)
    && (b.size > 0 ==> b.data.Some?)
    && b.nullCount == Nulls(Mask(b), b.validityBit, b.size)
  }

  /** Slot i of an array with values: None for a null. */
  function StoredSlot(a: FixedArray, i: nat): Option<Stored>
    requires i < a.length && a.values.Some?
    requires a.validity.Some? ==> (a.offset + i) / 8 < |a.validity.value|
    requires InValues(ElementOf(a.typ), a.values.value, a.offset + i)
  {
    if IsValid(a.validity, a.offset + i) then Some(StoredAt(ElementOf(a.typ), a.values.value, a.offset + i)) else None
  }

  /** Element i of a buffer: None for a null. */
  function ElementAt(b: DenseBuffer, i: nat): Option<Stored>
    requires i < b.size && b.data.Some?
    requires Mask(b).Some? ==> (b.validityBit + i) / 8 < |Mask(b).value|
    requires InValues(b.element, b.data.value, b.start + i)
  {
    if IsValid(Mask(b), b.validityBit + i) then Some(StoredAt(b.element, b.data.value, b.start + i)) else None
  }

  lemma SlotReachable(a: FixedArray, i: nat)
    requires Layout(a) && i < a.length
    ensures a.validity.Some? ==> (a.offset + i) / 8 < |a.validity.value|
    ensures a.values.Some? ==> InValues(ElementOf(a.typ), a.values.value, a.offset + i)
  {
    SlotCovered(ElementOf(a.typ), a.validity, a.offset, a.values, a.offset, a.length, i);
  }

  lemma ElementReachable(b: DenseBuffer, i: nat)
    requires ValidBuffer(b) && i < b.size
    ensures b.data.Some? && InValues(b.element, b.data.value, b.start + i)
    ensures Mask(b).Some? ==> (b.validityBit + i) / 8 < |Mask(b).value|
  {
    SlotCovered(b.element, Mask(b), b.validityBit, b.data, b.start, b.size, i);
  }

  /** A buffer and an array that hold the same elements and nulls. */
  ghost predicate SameElements(b: DenseBuffer, a: FixedArray)
    requires ValidBuffer(b) && Layout(a)
  {
    && b.element == ElementOf(a.typ) && b.size == a.length && b.nullCount == a.nullCount
    && (a.length > 0 ==> a.values.Some?)
    && forall i :: 0 <= i < a.length ==>
         (SlotReachable(a, i); ElementReachable(b, i); ElementAt(b, i) == StoredSlot(a, i))
  }

  /** arrowArrayToDenseBuffer. */
  method ArrayToDenseBuffer(a: FixedArray, fieldNullable: bool) returns (r: Result<Option<DenseBuffer>, DenseError>)
    requires Layout(a)
    ensures r.Err? <==> ElementOf(a.typ) != Invalid && a.length > 0 && a.values.None?
    ensures r == Ok(None) <==> ElementOf(a.typ) == Invalid
    ensures r.Ok? && r.value.Some? ==> ValidBuffer(r.value.value) && SameElements(r.value.value, a)
    ensures r.Ok? && r.value.Some? && fieldNullable ==> r.value.value.nullable
  {
    hide ElementOf, InValues, Layout, SameElements, StoredAt, BitAt, ValidBuffer, Dense;
    var element := ElementOf(a.typ);
    if element == Invalid {
      return Ok(None);
    }
    if a.length == 0 {
      var empty := DenseBuffer(element, fieldNullable, 0, None, 0, None, 0, 0);
      EmptyBuffer(a, empty);
      return Ok(Some(empty));
    }
    if a.values.None? {
      return Err(NoDataBuffer);
    }
    var nullable := fieldNullable || a.nullCount > 0 || a.validity.Some?;
    var b := DenseBuffer(element, nullable, a.length, a.values, a.offset, a.validity, a.offset, a.nullCount);
    BufferOfArray(a, b);
    r := Ok(Some(b));
  }

  lemma ElementIsDense(t: DataType)
    ensures ElementOf(t) == Invalid || Dense(ElementOf(t))
  {
  }

  lemma EmptyBuffer(a: FixedArray, b: DenseBuffer)
    requires Layout(a) && a.length == 0 && ElementOf(a.typ) != Invalid
    requires b == DenseBuffer(ElementOf(a.typ), b.nullable, 0, None, 0, None, 0, 0)
    ensures ValidBuffer(b) && SameElements(b, a)
  {
    ElementIsDense(a.typ);
    hide ElementOf, Dense, InValues;
  }

  /** A buffer over the bytes of an array, from its offset on. */
  lemma BufferOfArray(a: FixedArray, b: DenseBuffer)
    requires Layout(a) && a.length > 0 && ElementOf(a.typ) != Invalid && a.values.Some?
    requires b == DenseBuffer(ElementOf(a.typ), b.nullable, a.length, a.values, a.offset, a.validity, a.offset, a.nullCount)
    requires a.validity.Some? ==> b.nullable
    ensures ValidBuffer(b) && SameElements(b, a)
  {
    ElementIsDense(a.typ);
    hide ElementOf, Dense, InValues, StoredAt, BitAt;
    assert Mask(b) == a.validity;
    forall i | 0 <= i < a.length
      ensures (SlotReachable(a, i); ElementReachable(b, i); ElementAt(b, i) == StoredSlot(a, i))
    {
      SlotReachable(a, i);
      ElementReachable(b, i);
    }
  }

  /** getRawDataBitOffset. */
  function DataBitOffset(b: DenseBuffer): nat {
    if b.element == BoolBits then b.start else b.start * (8 * ByteWidth(b.element))
  }

  /** bufferStorageByteSize. */
  function StorageSize(b: DenseBuffer): nat {
    if b.element == BoolBits then (b.size + 7) / 8 else ByteWidth(b.element) * b.size
  }

  /** Whether qoreBufferToArrowArray shares the buffer. */
  predicate Shares(b: DenseBuffer, t: DataType) {
    && ElementOf(t) == b.element && DataBitOffset(b) == 0 && b.validityBit == 0
  }

  /** qoreBufferToArrowArray: None sends the caller to the element-by-element conversion. */
  method DenseBufferToArray(b: DenseBuffer, t: DataType) returns (r: Option<FixedArray>)
    requires ValidBuffer(b)
    ensures r.Some? <==> Shares(b, t)
    ensures r.Some? ==>
      && Layout(r.value) && SameElements(b, r.value)
      && r.value.typ == t && r.value.offset == 0
      && r.value.values.Some? && |r.value.values.value| == StorageSize(b)
      && (r.value.validity.Some? ==> |r.value.validity.value| == (b.size + 7) / 8)
  {
    hide StorageSize, DataBitOffset, ElementOf, InValues, Layout, SameElements, StoredAt, BitAt;
    if ElementOf(t) != b.element {
      return None;
    }
    if DataBitOffset(b) != 0 || b.validityBit != 0 {
      return None;
    }
    var nullCount := 0;
    var validity: Option<seq<byte>> := None;
    if b.nullable && b.validity.Some? {
      nullCount := Nulls(b.validity, 0, b.size);
      validity := Some(b.validity.value[..(b.size + 7) / 8]);
    }
    if b.size > 0 && b.data.None? {
      return None;
    }
    var data := if b.data.Some? then b.data.value else [];
    StorageCovered(b);
    var a := FixedArray(t, 0, b.size, nullCount, validity, Some(data[..StorageSize(b)]));
    SharedArray(b, a);
    r := Some(a);
  }

  lemma SharedArray(b: DenseBuffer, a: FixedArray)
    requires ValidBuffer(b) && Shares(b, a.typ)
    requires var data := if b.data.Some? then b.data.value else [];
      StorageSize(b) <= |data| && a.values == Some(data[..StorageSize(b)])
    requires a.offset == 0 && a.length == b.size
    requires Mask(b).None? ==> a.validity.None? && a.nullCount == 0
    requires Mask(b).Some? ==>
      && (b.size + 7) / 8 <= |Mask(b).value|
      && a.validity == Some(Mask(b).value[..(b.size + 7) / 8])
      && a.nullCount == Nulls(Mask(b), 0, b.size)
    ensures Layout(a) && SameElements(b, a)
  {
    hide StorageSize, DataBitOffset, ElementOf, InValues, StoredAt, BitAt;
    SharedLayout(b, a);
    forall i | 0 <= i < b.size
      ensures (SlotReachable(a, i); ElementReachable(b, i); ElementAt(b, i) == StoredSlot(a, i))
    {
      SlotReachable(a, i);
      ElementReachable(b, i);
      SharedElement(b, i);
      SharedBit(b, a, i);
    }
  }

  lemma SharedBit(b: DenseBuffer, a: FixedArray, i: nat)
    requires Mask(b).Some? ==>
      && (b.size + 7) / 8 <= |Mask(b).value|
      && a.validity == Some(Mask(b).value[..(b.size + 7) / 8])
    requires Mask(b).None? ==> a.validity.None?
    requires i < b.size
    ensures Mask(b).Some? ==> i / 8 < (b.size + 7) / 8
    ensures IsValid(a.validity, i) == IsValid(Mask(b), i)
  {
  }

  lemma SharedLayout(b: DenseBuffer, a: FixedArray)
    requires ValidBuffer(b) && Shares(b, a.typ)
    requires var data := if b.data.Some? then b.data.value else [];
      StorageSize(b) <= |data| && a.values == Some(data[..StorageSize(b)])
    requires a.offset == 0 && a.length == b.size
    requires Mask(b).None? ==> a.validity.None? && a.nullCount == 0
    requires Mask(b).Some? ==>
      && (b.size + 7) / 8 <= |Mask(b).value|
      && a.validity == Some(Mask(b).value[..(b.size + 7) / 8])
      && a.nullCount == Nulls(Mask(b), 0, b.size)
    ensures Layout(a) && a.nullCount == b.nullCount
  {
    hide StorageSize, DataBitOffset, ElementOf, InValues, StoredAt, BitAt;
    StorageCovered(b);
    NoNulls(0, b.size);
    if Mask(b).Some? {
      NullsOfPrefix(Mask(b).value, (b.size + 7) / 8, b.size);
    }
  }

  lemma StorageCovered(b: DenseBuffer)
    requires ValidBuffer(b) && DataBitOffset(b) == 0
    ensures b.start == 0
    ensures StorageSize(b) <= if b.data.Some? then |b.data.value| else 0
    ensures b.size > 0 ==> InValues(b.element, b.data.value[..StorageSize(b)], b.size - 1)
  {
    var w := ByteWidth(b.element);
    assert b.start > 0 && w > 0 ==> b.start * (8 * w) > 0;
    assert b.size * w == w * b.size;
  }

  lemma SharedElement(b: DenseBuffer, i: nat)
    requires ValidBuffer(b) && DataBitOffset(b) == 0 && i < b.size
    ensures b.start == 0 && StorageSize(b) <= |b.data.value|
    ensures InValues(b.element, b.data.value, i) && InValues(b.element, b.data.value[..StorageSize(b)], i)
    ensures StoredAt(b.element, b.data.value[..StorageSize(b)], i) == StoredAt(b.element, b.data.value, i)
  {
    StorageCovered(b);
    ElementReachable(b, i);
    SlotCovered(b.element, None, 0, Some(b.data.value[..StorageSize(b)]), 0, b.size, i);
  }

  lemma {:induction false} NoNulls(first: nat, n: nat)
    ensures Nulls(None, first, n) == 0
  {
    if n > 0 {
      NoNulls(first, n - 1);
    }
  }

  lemma {:induction false} NullsOfPrefix(bits: seq<byte>, m: nat, n: nat)
    requires m <= |bits| && (n > 0 ==> (n - 1) / 8 < m)
    ensures Nulls(Some(bits[..m]), 0, n) == Nulls(Some(bits), 0, n)
  {
    if n > 0 {
      NullsOfPrefix(bits, m, n - 1);
      assert bits[..m][(n - 1) / 8] == bits[(n - 1) / 8];
    }
  }
}
