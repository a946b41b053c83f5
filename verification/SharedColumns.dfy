/** The shared columns against the converted ones: what the fast forms of DenseBuffers give is what scalarToQore and
    listToArray give, element by element. */
module SharedColumns {
  import opened Wrappers
  import opened ArrowTypes
  import opened Bytes
  import opened QoreValues
  import opened Scalars
  import opened ArrowArrays
  import opened BuilderColumns
  import opened ColumnMeaning
  import opened ColumnRoundTrip
  import opened NormalForms
  import opened ColumnarTypes
  import opened DenseBuffers

  /** The number that the bytes of a float or double stand for. */
  type Ieee = seq<byte> -> real

  function ElementBits(e: Element): Width {
    match e
    case Int8 => W8
    case Int16 => W16
    case Int32 => W32
    case _ => W64
  }

  function IntegerOf(e: Element, s: Stored): int {
    if s.StoredBytes? then Narrow(ElementBits(e), true, LittleEndian(s.bytes)) else 0
  }

  /** The stored cell, as the element-by-element reader takes it from the array. */
  function CellOf(ieee: Ieee, e: Element, s: Stored): Cell {
    if s.StoredBit? then Bit(s.on)
    else if e == Float32 || e == Float64 then Real(ieee(s.bytes))
    else Number(IntegerOf(e, s))
  }

  /** The array as its element-by-element reader sees it, from its first slot on. */
  ghost function Denote(ieee: Ieee, a: FixedArray): (r: Array)
    requires Layout(a) && (a.length > 0 ==> a.values.Some?)
  {
    var e := ElementOf(a.typ);
    var slots := Slots(a);
    Array(Buffers(a.typ, Some(seq(a.length, i requires 0 <= i < a.length => slots[i].Some?)),
                  seq(a.length, i requires 0 <= i < a.length =>
                    if slots[i].Some? then CellOf(ieee, e, slots[i].value) else Number(0)), [], []),
          0, a.length)
  }

  ghost function Slots(a: FixedArray): (slots: seq<Option<Stored>>)
    requires Layout(a) && (a.length > 0 ==> a.values.Some?)
    ensures |slots| == a.length
  {
    seq(a.length, i requires 0 <= i < a.length => (SlotReachable(a, i); StoredSlot(a, i)))
  }

  ghost function Elements(b: DenseBuffer): (elements: seq<Option<Stored>>)
    requires ValidBuffer(b)
    ensures |elements| == b.size
  {
    seq(b.size, i requires 0 <= i < b.size => (ElementReachable(b, i); ElementAt(b, i)))
  }

  /** The Qore value of a buffer element. */
  function ElementValue(ieee: Ieee, e: Element, s: Option<Stored>): Value {
    if s.None? then QNothing
    else if s.value.StoredBit? then QBool(s.value.on)
    else if e == Float32 || e == Float64 then QFloat(ieee(s.value.bytes))
    else QInt(QoreValues.Int64(IntegerOf(e, s.value)))
  }

  /** QoreBufferNode::toList. */
  ghost function BufferList(ieee: Ieee, b: DenseBuffer): seq<Value>
    requires ValidBuffer(b)
  {
    seq(b.size, i requires 0 <= i < b.size => ElementValue(ieee, b.element, Elements(b)[i]))
  }

  predicate Temporal(t: DataType) {
    t.Timestamp? || t.Duration?
  }

  /** The stored form of an element: a bit for a bool, otherwise as many bytes as the element has. */
  predicate Matches(e: Element, s: Stored) {
    if s.StoredBit? then e == BoolBits else e != BoolBits && |s.bytes| == ByteWidth(e)
  }

  /** What four bytes stand for is a single: rounding to one keeps it. */
  ghost predicate SinglesAreSingles(rt: Runtime, ieee: Ieee) {
    forall bytes: seq<byte> :: |bytes| == 4 ==> rt.toFloat32(ieee(bytes)) == ieee(bytes)
  }

  lemma SlotMatches(a: FixedArray, i: nat)
    requires Layout(a) && a.values.Some? && i < a.length
    ensures Slots(a)[i].Some? ==> Matches(ElementOf(a.typ), Slots(a)[i].value)
  {
    SlotReachable(a, i);
  }

  lemma CellFits(ieee: Ieee, t: DataType, s: Stored)
    requires ElementOf(t) != Invalid && Matches(ElementOf(t), s)
    ensures CellOk(t, CellOf(ieee, ElementOf(t), s))
  {
    if s.StoredBytes? {
      NarrowIsCongruent(ElementBits(ElementOf(t)), true, LittleEndian(s.bytes));
    }
    hide Narrow, Fits;
  }

  /** The array so seen obeys the Arrow layout, and reading slot i decodes what is stored there. */
  lemma DenoteReads(rt: Runtime, ieee: Ieee, a: FixedArray)
    requires Layout(a) && (a.length > 0 ==> a.values.Some?) && ElementOf(a.typ) != Invalid
    ensures WellFormed(Denote(ieee, a)) && Denote(ieee, a).length == a.length
    ensures forall i :: 0 <= i < a.length ==> Read(rt, Denote(ieee, a), i) == DecodeSlot(rt, ieee, a.typ, Slots(a)[i])
  {
    hide Layout, Slots, CellOf, Decode, ElementOf;
    var e := ElementOf(a.typ);
    forall i | 0 <= i < a.length && Slots(a)[i].Some?
      ensures CellOk(a.typ, CellOf(ieee, e, Slots(a)[i].value))
    {
      SlotMatches(a, i);
      CellFits(ieee, a.typ, Slots(a)[i].value);
    }
    DenseType(a.typ);
  }

  lemma DenseType(t: DataType)
    requires ElementOf(t) != Invalid
    ensures t.Boolean? || (t.Integer? && t.signed) || t.Float? || t.Double? || (Temporal(t) && t.unit == Micro)
    ensures ElementOf(t) == Int64 <==> t == Integer(W64, true) || Temporal(t)
  {
  }

  function DecodeSlot(rt: Runtime, ieee: Ieee, t: DataType, slot: Option<Stored>): Reading {
    if slot.None? then Ok(QNothing)
    else
      var c := CellOf(ieee, ElementOf(t), slot.value);
      if CellOk(t, c) then Decode(rt, t, c) else Ok(QNothing)
  }

  /** An element has the value its slot decodes to, except that a date is shown as the number it counts. */
  lemma SlotValue(rt: Runtime, ieee: Ieee, t: DataType, slot: Option<Stored>)
    requires ElementOf(t) != Invalid && (slot.Some? ==> Matches(ElementOf(t), slot.value))
    ensures DecodeSlot(rt, ieee, t, slot) == Ok(ElementValue(ieee, ElementOf(t), slot)) <==> !Temporal(t) || slot.None?
  {
    DenseType(t);
    if slot.Some? {
      CellFits(ieee, t, slot.value);
      ElementCell(ieee, t, slot.value);
    }
    hide ElementOf, CellOf, ElementValue;
  }

  lemma ElementCell(ieee: Ieee, t: DataType, s: Stored)
    requires ElementOf(t) != Invalid && Matches(ElementOf(t), s)
    ensures var c, v := CellOf(ieee, ElementOf(t), s), ElementValue(ieee, ElementOf(t), Some(s));
      if t.Boolean? then c.Bit? && v == QBool(c.on)
      else if t.Float? || t.Double? then c.Real? && v == QFloat(c.r)
      else c.Number? && Fits(W64, true, c.n) && v == QInt(c.n)
  {
    if s.StoredBytes? {
      var w := ElementBits(ElementOf(t));
      NarrowIsCongruent(w, true, LittleEndian(s.bytes));
      NarrowIsCongruent(W64, true, IntegerOf(ElementOf(t), s));
      hide Narrow;
    }
  }

  lemma {:induction false} RangeValues(rt: Runtime, a: Array, vs: seq<Value>, n: nat)
    requires WellFormed(a) && n <= |vs| == a.length
    ensures ReadRange(rt, a, 0, n) == Ok(vs[..n]) <==> forall i :: 0 <= i < n ==> Read(rt, a, i) == Ok(vs[i])
  {
    hide WellFormed, Read;
    if n > 0 {
      RangeValues(rt, a, vs, n - 1);
      assert vs[..n] == vs[..n - 1] + [vs[n - 1]];
      var before, last := ReadRange(rt, a, 0, n - 1), Read(rt, a, n - 1);
      if before.Ok? && last.Ok? && before.value + [last.value] == vs[..n] {
        assert before.value == (before.value + [last.value])[..n - 1];
        assert last.value == (before.value + [last.value])[n - 1];
      }
    }
  }

  /** A shared column and its converted list are the same: arrayToList of an array is the list of the buffer that
      arrowArrayToDenseBuffer makes of it, except that a buffer shows dates as the numbers they count. */
  lemma ImportRefinesConversion(rt: Runtime, ieee: Ieee, a: FixedArray, b: DenseBuffer)
    requires ValidBuffer(b) && Layout(a) && SameElements(b, a)
    ensures WellFormed(Denote(ieee, a)) && Denote(ieee, a).length == |BufferList(ieee, b)|
    ensures Values(rt, Denote(ieee, a)) == Ok(BufferList(ieee, b))
      <==> !Temporal(a.typ) || forall i :: 0 <= i < a.length ==> Slots(a)[i] == None
  {
    hide Layout, ElementOf, ElementValue, DecodeSlot, ValidBuffer, WellFormed, Read, Denote;
    SharedIsDense(b, a);
    DenoteReads(rt, ieee, a);
    SameSlots(b, a);
    var vs := BufferList(ieee, b);
    RangeValues(rt, Denote(ieee, a), vs, |vs|);
    assert vs[..|vs|] == vs;
    forall i | 0 <= i < a.length
      ensures Read(rt, Denote(ieee, a), i) == Ok(vs[i]) <==> !Temporal(a.typ) || Slots(a)[i].None?
    {
      hide Matches, Slots, Elements;
      if Slots(a)[i].Some? {
        SlotMatches(a, i);
      }
      SlotValue(rt, ieee, a.typ, Slots(a)[i]);
    }
  }

  lemma SharedIsDense(b: DenseBuffer, a: FixedArray)
    requires ValidBuffer(b) && Layout(a) && SameElements(b, a)
    ensures ElementOf(a.typ) != Invalid && ElementOf(a.typ) == b.element
    ensures a.length == b.size && (a.length > 0 ==> a.values.Some?)
  {
    hide Layout;
  }

  lemma SameSlots(b: DenseBuffer, a: FixedArray)
    requires ValidBuffer(b) && Layout(a) && SameElements(b, a)
    ensures Elements(b) == Slots(a)
  {
    hide Layout, ValidBuffer, ElementAt, StoredSlot;
    forall i | 0 <= i < a.length
      ensures Elements(b)[i] == Slots(a)[i]
    {
      SlotReachable(a, i);
      ElementReachable(b, i);
    }
  }

  /** What the element-by-element path stores for a buffer element and reads back. */
  function Fallback(ieee: Ieee, t: DataType, slot: Option<Stored>): Value {
    if Temporal(t) then QNothing else ElementValue(ieee, ElementOf(t), slot)
  }

  lemma FallbackValue(rt: Runtime, ieee: Ieee, t: DataType, slot: Option<Stored>)
    requires ElementOf(t) != Invalid && (slot.Some? ==> Matches(ElementOf(t), slot.value))
    requires t.Float? ==> SinglesAreSingles(rt, ieee)
    ensures var v := ElementValue(ieee, ElementOf(t), slot);
      Accepts(rt, t, v) && TrueSizes(t, v) && NormalForm(rt, t, v) == Ok(Fallback(ieee, t, slot))
  {
    hide CellOf, ElementValue, ElementOf;
    DenseType(t);
    if slot.None? {
      NoValue(ieee, t);
      NothingForm(rt, t, QNothing);
      hide NormalForm;
    } else {
      ElementCell(ieee, t, slot.value);
      if t.Integer? {
        StoredFits(ieee, t, slot.value);
      } else if t.Float? {
        SingleElement(ieee, t, slot.value);
        assert rt.toFloat32(ieee(slot.value.bytes)) == ieee(slot.value.bytes);
      }
      LeafForm(rt, t, ElementValue(ieee, ElementOf(t), slot));
      hide NormalForm, Accepts;
    }
  }

  lemma NoValue(ieee: Ieee, t: DataType)
    ensures ElementValue(ieee, ElementOf(t), None) == QNothing
  {
  }

  lemma SingleElement(ieee: Ieee, t: DataType, s: Stored)
    requires t.Float? && Matches(ElementOf(t), s)
    ensures s.StoredBytes? && |s.bytes| == 4 && ElementValue(ieee, ElementOf(t), Some(s)) == QFloat(ieee(s.bytes))
  {
  }

  lemma StoredFits(ieee: Ieee, t: DataType, s: Stored)
    requires ElementOf(t) != Invalid && Matches(ElementOf(t), s) && t.Integer?
    ensures CellOf(ieee, ElementOf(t), s).Number?
    ensures var n := CellOf(ieee, ElementOf(t), s).n; Narrow(t.width, true, n) == n
  {
    CellFits(ieee, t, s);
    DenseType(t);
    NarrowIsCongruent(t.width, true, CellOf(ieee, ElementOf(t), s).n);
  }

  /** The array that shares a buffer reads like the one that listToArray builds from the buffer's list; building that
      one never fails. Only for dates with a value do they differ: the list holds numbers, which a date column stores
      as nulls. */
  lemma ExportRefinesConversion(rt: Runtime, ieee: Ieee, b: DenseBuffer, a: FixedArray)
    requires ValidBuffer(b) && Layout(a) && SameElements(b, a)
    requires a.typ.Float? ==> SinglesAreSingles(rt, ieee)
    ensures WellFormed(Denote(ieee, a))
    ensures Build(rt, a.typ, BufferList(ieee, b)).Ok?
    ensures var built := Build(rt, a.typ, BufferList(ieee, b)).value;
      && WellFormed(built) && built.length == Denote(ieee, a).length
      && (Values(rt, built) == Values(rt, Denote(ieee, a))
          <==> !Temporal(a.typ) || forall i :: 0 <= i < a.length ==> Slots(a)[i] == None)
  {
    hide Layout, ElementOf, ElementValue, DecodeSlot, ValidBuffer, WellFormed, Read, Denote, Build, NormalForm, Fallback;
    hide Accepts, TrueSizes;
    SharedIsDense(b, a);
    SameSlots(b, a);
    DenoteReads(rt, ieee, a);
    var vs := BufferList(ieee, b);
    DenseBuildable(a.typ);
    forall i | 0 <= i < a.length
      ensures Accepts(rt, a.typ, vs[i]) && TrueSizes(a.typ, vs[i])
      ensures NormalForm(rt, a.typ, vs[i]) == Ok(Fallback(ieee, a.typ, Slots(a)[i]))
    {
      hide Slots;
      MatchesAt(a, i);
      FallbackValue(rt, ieee, a.typ, Slots(a)[i]);
    }
    BuildThenRead(rt, a.typ, vs);
    CompareWithFallback(rt, ieee, a, Build(rt, a.typ, vs).value);
  }

  lemma MatchesAt(a: FixedArray, i: nat)
    requires Layout(a) && i < a.length && (a.length > 0 ==> a.values.Some?)
    ensures Slots(a)[i].Some? ==> Matches(ElementOf(a.typ), Slots(a)[i].value)
  {
    hide Layout;
    SlotMatches(a, i);
  }

  lemma DenseBuildable(t: DataType)
    requires ElementOf(t) != Invalid
    ensures Buildable(t)
  {
    DenseType(t);
    assert BuilderTypes(t) == [];
  }

  lemma CompareWithFallback(rt: Runtime, ieee: Ieee, a: FixedArray, built: Array)
    requires Layout(a) && (a.length > 0 ==> a.values.Some?) && ElementOf(a.typ) != Invalid
    requires WellFormed(built) && built.length == a.length
    requires forall i :: 0 <= i < a.length ==> Read(rt, built, i) == Ok(Fallback(ieee, a.typ, Slots(a)[i]))
    ensures WellFormed(Denote(ieee, a)) && Denote(ieee, a).length == a.length
    ensures Values(rt, built) == Values(rt, Denote(ieee, a))
      <==> !Temporal(a.typ) || forall i :: 0 <= i < a.length ==> Slots(a)[i] == None
  {
    hide Layout, ElementOf, DecodeSlot, WellFormed, Read, Denote, Slots, Fallback;
    DenoteReads(rt, ieee, a);
    var list := seq(a.length, i requires 0 <= i < a.length => Fallback(ieee, a.typ, Slots(a)[i]));
    assert list[..a.length] == list;
    RangeValues(rt, built, list, a.length);
    RangeValues(rt, Denote(ieee, a), list, a.length);
    forall i | 0 <= i < a.length
      ensures Read(rt, Denote(ieee, a), i) == Ok(list[i]) <==> !Temporal(a.typ) || Slots(a)[i].None?
    {
      MatchesAt(a, i);
      DecodesToFallback(rt, ieee, a.typ, Slots(a)[i]);
    }
  }

  lemma DecodesToFallback(rt: Runtime, ieee: Ieee, t: DataType, slot: Option<Stored>)
    requires ElementOf(t) != Invalid && (slot.Some? ==> Matches(ElementOf(t), slot.value))
    ensures DecodeSlot(rt, ieee, t, slot) == Ok(Fallback(ieee, t, slot)) <==> !Temporal(t) || slot.None?
  {
    DenseType(t);
    SlotValue(rt, ieee, t, slot);
    if slot.Some? {
      CellFits(ieee, t, slot.value);
    }
    hide ElementOf, CellOf, ElementValue;
  }

  // A date one microsecond after the epoch

  const ONE: seq<byte> := [1, 0, 0, 0, 0, 0, 0, 0]

  const ONE_DATE := FixedArray(Timestamp(Micro, ""), 0, 1, 0, None, Some(ONE))

  const ONE_NUMBER := DenseBuffer(Int64, false, 1, Some(ONE), 0, None, 0, 0)

  lemma OneIsShared()
    ensures Layout(ONE_DATE) && ValidBuffer(ONE_NUMBER) && SameElements(ONE_NUMBER, ONE_DATE)
    ensures Slots(ONE_DATE) == [Some(StoredBytes(ONE))] && Elements(ONE_NUMBER) == [Some(StoredBytes(ONE))]
  {
    NoNulls(0, 1);
    assert ONE[0..8] == ONE;
  }

  lemma OneIsOne()
    ensures LittleEndian(ONE) == 1
  {
    assert LittleEndian([]) == 0;
    ZeroBytes(7);
    assert ONE[1..] == seq(7, _ => 0);
  }

  lemma {:induction false} ZeroBytes(n: nat)
    ensures LittleEndian(seq(n, _ => 0)) == 0
  {
    if n > 0 {
      assert seq(n, _ => 0)[1..] == seq(n - 1, _ => 0 as byte);
      ZeroBytes(n - 1);
    }
  }

  /** As a shared buffer the date is the number 1, and that number stored in the date column is a null. */
  lemma SharedDateIsANumber(rt: Runtime, ieee: Ieee)
    ensures Layout(ONE_DATE) && ValidBuffer(ONE_NUMBER) && SameElements(ONE_NUMBER, ONE_DATE)
    ensures BufferList(ieee, ONE_NUMBER) == [QInt(1)]
    ensures WellFormed(Denote(ieee, ONE_DATE))
    ensures Values(rt, Denote(ieee, ONE_DATE)) == Ok([QDate(Absolute(0, 1, rt.localZone))])
    ensures NormalForm(rt, ONE_DATE.typ, QInt(1)) == Ok(QNothing)
  {
    hide Layout, ValidBuffer, SameElements, BufferList, WellFormed, Denote, Values, NormalForm, Slots, Elements;
    OneIsShared();
    OneAsNumber(ieee);
    OneAsDate(rt, ieee);
    NumberInDates(rt);
  }

  lemma OneIsRead(rt: Runtime, ieee: Ieee)
    ensures DecodeSlot(rt, ieee, ONE_DATE.typ, Some(StoredBytes(ONE))) == Ok(QDate(Absolute(0, 1, rt.localZone)))
  {
    hide LittleEndian, Narrow, Decode;
    OneIsOne();
    NarrowIsCongruent(W64, true, 1);
    assert CellOf(ieee, Int64, StoredBytes(ONE)) == Number(1);
    OneDecodes(rt);
  }

  lemma OneDecodes(rt: Runtime)
    ensures Decode(rt, Timestamp(Micro, ""), Number(1)) == Ok(QDate(Absolute(0, 1, rt.localZone)))
  {
    assert TDiv(1, 1000000) == 0 && TMod(1, 1000000) == 1;
    hide TDiv, TMod;
  }

  lemma OneAsNumber(ieee: Ieee)
    ensures ValidBuffer(ONE_NUMBER) && BufferList(ieee, ONE_NUMBER) == [QInt(1)]
  {
    hide LittleEndian, Layout, ValidBuffer, SameElements, Elements, Narrow;
    OneIsShared();
    OneIsOne();
    NarrowIsCongruent(W64, true, 1);
    assert ElementValue(ieee, Int64, Some(StoredBytes(ONE))) == QInt(1);
  }

  lemma OneAsDate(rt: Runtime, ieee: Ieee)
    ensures Layout(ONE_DATE) && WellFormed(Denote(ieee, ONE_DATE))
    ensures Values(rt, Denote(ieee, ONE_DATE)) == Ok([QDate(Absolute(0, 1, rt.localZone))])
  {
    hide Denote, WellFormed, Read, Layout, ValidBuffer, SameElements, Slots, Elements, DecodeSlot;
    OneIsShared();
    OneIsRead(rt, ieee);
    DenoteReads(rt, ieee, ONE_DATE);
    var dates := [QDate(Absolute(0, 1, rt.localZone))];
    assert dates[..1] == dates;
    RangeValues(rt, Denote(ieee, ONE_DATE), dates, 1);
  }

  lemma NumberInDates(rt: Runtime)
    ensures NormalForm(rt, ONE_DATE.typ, QInt(1)) == Ok(QNothing)
  {
    LeafForm(rt, ONE_DATE.typ, QInt(1));
    hide NormalForm, Accepts;
  }
}
