/** The values that go through an Arrow column untouched. */
module ExactValues {
  import opened Wrappers
  import opened ArrowTypes
  import opened Bytes
  import opened QoreValues
  import opened DecimalText
  import opened Scalars
  import opened DatesAndTimes
  import opened ArrowArrays
  import opened BuilderColumns
  import opened ColumnMeaning
  import opened ColumnRoundTrip
  import opened NormalForms

  /** The types with struct field names a hash can tell apart and map keys that are strings. Where a value passes
      through the calendar or the durations of libqore, it names what they must keep. */
  ghost predicate Portable(rt: Runtime, t: DataType)
    decreases t
  {
    match t
    case List(child) => Portable(rt, child.typ)
    case LargeList(child) => Portable(rt, child.typ)
    case FixedSizeList(child, _) => Portable(rt, child.typ)
    case Struct(fields) => HashNames(fields) && forall k :: 0 <= k < |fields| ==> Portable(rt, fields[k].typ)
    case Map(key, item) => (key.typ.Utf8? || key.typ.LargeUtf8?) && Portable(rt, item.typ)
    case FixedSizeBinary(n) => n >= 0
    case Date32 => ShowsUtc(rt)
    case Date64 => ShowsUtc(rt)
    case Time32(_) => ShowsUtc(rt)
    case Time64(_) => ShowsUtc(rt)
    case Duration(_) => SplitsDurations(rt)
    case _ => true
  }

  /** The values of a column of type t that come back as they are: in range, of the kind and precision the column holds,
      with the keys of a struct in schema order. */
  predicate Exact(rt: Runtime, t: DataType, v: Value)
    decreases t
  {
    v.QNothing? ||
    match t
    case Struct(fields) =>
      && v.QHash? && |v.entries| == |fields|
      && forall k :: 0 <= k < |fields| ==>
           v.entries[k].key == fields[k].name && Exact(rt, fields[k].typ, v.entries[k].value)
    case List(child) => v.QList? && forall i :: 0 <= i < |v.items| ==> Exact(rt, child.typ, v.items[i])
    case LargeList(child) => v.QList? && forall i :: 0 <= i < |v.items| ==> Exact(rt, child.typ, v.items[i])
    case FixedSizeList(child, n) =>
      v.QList? && |v.items| == n && forall i :: 0 <= i < |v.items| ==> Exact(rt, child.typ, v.items[i])
    case Map(_, item) =>
      && v.QHash? && UniqueKeys(v.entries)
      && forall i :: 0 <= i < |v.entries| ==> '\0' !in v.entries[i].key && Exact(rt, item.typ, v.entries[i].value)
    case _ => ExactScalar(rt, t, v)
  }

  predicate ExactScalar(rt: Runtime, t: DataType, v: Value) {
    match t
    case Boolean => v.QBool?
    case Integer(width, signed) =>
      || (v.QInt? && Fits(width, signed, v.i))
      || (t == Integer(W64, false) && v.QNumber? && IsLargeUnsigned(v.text))
    case HalfFloat => v.QFloat? && rt.toFloat16(rt.toFloat32(v.f)) == v.f
    case Float => v.QFloat? && rt.toFloat32(v.f) == v.f
    case Double => v.QFloat?
    case Utf8 => v.QString?
    case LargeUtf8 => v.QString?
    case Binary => v.QBinary?
    case LargeBinary => v.QBinary?
    case FixedSizeBinary(n) => v.QBinary? && |v.bytes| == n
    case Timestamp(unit, timezone) =>
      v.QDate? && v.date.Absolute? && ZoneOf(rt, timezone) == Some(v.date.zone) && WholeMoment(unit, v.date)
    case Date32 => v.QDate? && WholeDay(rt, v.date) && Fits(W32, true, v.date.seconds / 86400)
    case Date64 => v.QDate? && WholeDay(rt, v.date) && InInt64(v.date.seconds * 1000)
    case Time32(_) => v.QDate? && WholeTime(rt, TimeUnitOf(t), v.date)
    case Time64(_) => v.QDate? && WholeTime(rt, TimeUnitOf(t), v.date)
    case Duration(unit) => v.QDate? && WholeDuration(unit, v.date)
    case Decimal128(_, _) => v.QNumber? && PrintedDecimal(rt, t, v.text)
    case Decimal256(_, _) => v.QNumber? && PrintedDecimal(rt, t, v.text)
    case _ => false
  }

  /** A date in the current zone that is the start of a day. */
  predicate WholeDay(rt: Runtime, d: DateTime) {
    d.Absolute? && d.zone == rt.localZone && d.micros == 0 && d.seconds % 86400 == 0
  }

  /** A time on the first day of the epoch in the current zone, without a part below the unit. */
  predicate WholeTime(rt: Runtime, unit: TimeUnit, d: DateTime) {
    && d.Absolute? && d.zone == rt.localZone
    && 0 <= d.seconds < 86400 && 0 <= d.micros < 1000000 && KeptMicros(unit, d.micros) == d.micros
  }

  /** A normalised duration without a part below the unit, whose count fits. */
  predicate WholeDuration(unit: TimeUnit, d: DateTime) {
    && d.Relative? && DurationOk(d.seconds, d.micros)
    && KeptMicros(unit, d.micros) == d.micros && InInt64(ExactCount(unit, d.seconds, d.micros))
  }

  /** The text that is printed for the decimal it is parsed as. */
  predicate PrintedDecimal(rt: Runtime, t: DataType, text: string) {
    var unscaled := rt.parseDecimal(t, CStr(text));
    unscaled.Some? && text == rt.printDecimal(t, unscaled.value)
  }

  /** The decimal text of a number above the largest Qore int that an unsigned 64-bit integer holds. */
  predicate IsLargeUnsigned(text: string) {
    var n := Strtoull(text);
    n > 0x7FFF_FFFF_FFFF_FFFF && text == NatText(n)
  }

  /** A normalised date without a part below the unit, whose count fits. */
  predicate WholeMoment(unit: TimeUnit, d: DateTime)
    requires d.Absolute?
  {
    0 <= d.micros < 1000000 && KeptMicros(unit, d.micros) == d.micros && InInt64(ExactCount(unit, d.seconds, d.micros))
  }

  lemma {:induction false} ExactIsFixed(rt: Runtime, t: DataType, v: Value)
    requires Portable(rt, t) && Exact(rt, t, v)
    ensures Fixed(rt, t, v)
    decreases t, 2
  {
    hide Exact, Portable, Fixed, ExactScalar;
    ExactKind(rt, t, v);
    if v.QNothing? {
      NothingIsFixed(rt, t);
    } else if t.Struct? {
      ExactStruct(rt, t, v.entries);
    } else if IsList(t) {
      ExactList(rt, t, v);
    } else if t.Map? {
      ExactMap(rt, t, v.entries);
    } else {
      ScalarIsExact(rt, t, v);
    }
  }

  lemma ExactKind(rt: Runtime, t: DataType, v: Value)
    requires Exact(rt, t, v)
    ensures t.Struct? || t.Map? ==> v.QNothing? || v.QHash?
    ensures IsList(t) ==> v.QNothing? || v.QList?
    ensures !Nested(t) ==> v.QNothing? || ExactScalar(rt, t, v)
  {
    hide ExactScalar;
  }

  lemma {:induction false} ExactMap(rt: Runtime, t: DataType, h: seq<Entry>)
    requires t.Map? && Portable(rt, t) && Exact(rt, t, QHash(h))
    ensures Fixed(rt, t, QHash(h))
    decreases t, 1
  {
    hide Exact, Portable, Fixed;
    ExactEntries(rt, t, h);
    forall i | 0 <= i < |h|
      ensures FixedEntry(rt, t, h[i])
    {
      CStrWithoutNul(h[i].key);
      ExactIsFixed(rt, t.item.typ, h[i].value);
    }
    MapIsFixed(rt, t, h);
  }

  lemma ExactEntries(rt: Runtime, t: DataType, h: seq<Entry>)
    requires t.Map? && Portable(rt, t) && Exact(rt, t, QHash(h))
    ensures (t.key.typ.Utf8? || t.key.typ.LargeUtf8?) && Portable(rt, t.item.typ) && UniqueKeys(h)
    ensures forall i :: 0 <= i < |h| ==> '\0' !in h[i].key && Exact(rt, t.item.typ, h[i].value)
  {
  }

  lemma ScalarIsExact(rt: Runtime, t: DataType, v: Value)
    requires Portable(rt, t) && !Nested(t) && ExactScalar(rt, t, v)
    ensures Fixed(rt, t, v)
  {
    if t.Date32? || t.Date64? || t.Time32? || t.Time64? || t.Duration? {
      ExactClock(rt, t, v.date);
      hide ExactScalar;
    } else if t.Integer? {
      ExactInteger(rt, t, v);
    } else if t.Timestamp? {
      TimestampWriteThenRead(rt, t.unit, t.timezone, v.date);
      hide ExactCount, KeptMicros, ZoneOf;
    } else if t.FixedSizeBinary? {
      NarrowIsCongruent(W32, true, |v.bytes|);
      assert v.bytes[..|v.bytes|] == v.bytes;
    }
  }

  lemma ExactInteger(rt: Runtime, t: DataType, v: Value)
    requires t.Integer? && ExactScalar(rt, t, v)
    ensures Fixed(rt, t, v)
  {
    if v.QInt? {
      IntegerRoundTrip(rt, t.width, t.signed, v.i);
      hide Narrow;
    }
    hide NatText, ParsePrefix;
  }

  lemma ExactClock(rt: Runtime, t: DataType, d: DateTime)
    requires t.Date32? || t.Date64? || t.Time32? || t.Time64? || t.Duration?
    requires Portable(rt, t) && ExactScalar(rt, t, QDate(d))
    ensures Fixed(rt, t, QDate(d))
  {
    hide Encode, Decode, ShowsUtc, SplitsDurations, Fixed, WholeTime, WholeDuration, DateCountOf, ExactCount, TimeUnitOf;
    if t.Date32? || t.Date64? {
      ExactDate(rt, t, d);
      CellIsFixed(rt, t, QDate(d), Number(DateCountOf(t, d)));
    } else if t.Duration? {
      ExactDuration(rt, t.unit, d);
      CellIsFixed(rt, t, QDate(d), Number(ExactCount(t.unit, d.seconds, d.micros)));
    } else {
      ExactTime(rt, t, d);
      CellIsFixed(rt, t, QDate(d), Number(ExactCount(TimeUnitOf(t), d.seconds, d.micros)));
    }
  }

  function DateCountOf(t: DataType, d: DateTime): int {
    if t.Date32? then d.seconds / 86400 else d.seconds * 1000
  }

  lemma ExactDate(rt: Runtime, t: DataType, d: DateTime)
    requires t.Date32? || t.Date64?
    requires ShowsUtc(rt) && ExactScalar(rt, t, QDate(d))
    ensures var count := DateCountOf(t, d);
      Encode(rt, t, QDate(d)) == Ok(Some(Number(count))) && Decode(rt, t, Number(count)) == Ok(QDate(d))
  {
    hide Encode, Narrow;
    var count := DateCountOf(t, d);
    DateCount(rt, t, d);
    assert InMillis(d.seconds);
    assert rt.midnight(d) == d.seconds by { assert d == Absolute(d.seconds, 0, rt.localZone); }
    NarrowIsCongruent(if t.Date32? then W32 else W64, true, count);
    hide ShowsUtc;
    if t.Date64? {
      SplitMilli(count);
    }
    hide SecondsOf, MicrosOf;
  }

  lemma ExactTime(rt: Runtime, t: DataType, d: DateTime)
    requires t.Time32? || t.Time64?
    requires ShowsUtc(rt) && WholeTime(rt, TimeUnitOf(t), d)
    ensures var count := Number(ExactCount(TimeUnitOf(t), d.seconds, d.micros));
      Encode(rt, t, QDate(d)) == Ok(Some(count)) && Decode(rt, t, count) == Ok(QDate(d))
  {
    hide Encode, Decode, ExactCount, SecondsOf, MicrosOf, Narrow, DayCount, Fits, TimeUnitOf;
    var unit := TimeUnitOf(t);
    var count := ExactCount(unit, d.seconds, d.micros);
    assert rt.secondOfDay(d) == d.seconds && rt.microOfSecond(d) == d.micros by {
      assert InMillis(d.seconds) && d == Absolute(d.seconds, d.micros, rt.localZone);
    }
    hide ShowsUtc;
    EncodeTime(rt, t, d);
    WithinDay(unit, d.seconds, d.micros);
    CountOfDay(t, count);
    NarrowIsCongruent(if t.Time32? then W32 else W64, true, count);
    DecodeTime(rt, t, count);
    CountThenSplit(unit, d.seconds, d.micros, rt.localZone);
  }

  lemma ExactDuration(rt: Runtime, unit: TimeUnit, d: DateTime)
    requires SplitsDurations(rt) && WholeDuration(unit, d)
    ensures var count := Number(ExactCount(unit, d.seconds, d.micros));
      && Encode(rt, Duration(unit), QDate(d)) == Ok(Some(count))
      && Decode(rt, Duration(unit), count) == Ok(QDate(d))
  {
    var count := ExactCount(unit, d.seconds, d.micros);
    CountSplitsBack(unit, d.seconds, d.micros);
    hide ExactCount, SecondsOf, MicrosOf, Narrow, KeptMicros;
    DurationParts(unit, count);
    assert d == Relative(d.seconds, d.micros);
    NarrowIsCongruent(W64, true, count);
  }

  /** The count of a duration without a part below the unit splits into the same seconds and microseconds. */
  lemma CountSplitsBack(unit: TimeUnit, seconds: int, micros: int)
    requires DurationOk(seconds, micros) && KeptMicros(unit, micros) == micros
    ensures var count := ExactCount(unit, seconds, micros);
      SecondsOf(unit, count) == seconds && MicrosOf(unit, count) == micros
  {
  }

  lemma {:induction false} ExactStruct(rt: Runtime, t: DataType, h: seq<Entry>)
    requires t.Struct? && Portable(rt, t) && Exact(rt, t, QHash(h))
    ensures Fixed(rt, t, QHash(h))
    decreases t, 1
  {
    hide Exact, Portable, Fixed, FieldValue, NormalFields, NormalForm, Accepts;
    ExactFields(rt, t, h);
    forall k | 0 <= k < |h|
      ensures FieldValue(t, h, k) == h[k].value && Fixed(rt, t.fields[k].typ, h[k].value)
    {
      FieldValueAt(t, h, k);
      ExactIsFixed(rt, t.fields[k].typ, h[k].value);
    }
    FieldsRebuilt(rt, t, h, |h|);
    StructOfFixed(rt, t, h);
  }

  lemma ExactFields(rt: Runtime, t: DataType, h: seq<Entry>)
    requires t.Struct? && Portable(rt, t) && Exact(rt, t, QHash(h))
    ensures HashNames(t.fields) && |h| == |t.fields|
    ensures forall k :: 0 <= k < |h| ==>
      h[k].key == t.fields[k].name && Portable(rt, t.fields[k].typ) && Exact(rt, t.fields[k].typ, h[k].value)
  {
  }

  lemma {:induction false} ExactList(rt: Runtime, t: DataType, v: Value)
    requires IsList(t) && Portable(rt, t) && v.QList? && Exact(rt, t, v)
    ensures Fixed(rt, t, v)
    decreases t, 1
  {
    hide NormalItems, Exact, Portable, Accepts, NormalForm;
    ExactElements(rt, t, v);
    ExactItems(rt, t.child.typ, v.items);
    ListOfExact(rt, t, v);
  }

  lemma ExactElements(rt: Runtime, t: DataType, v: Value)
    requires IsList(t) && Portable(rt, t) && v.QList? && Exact(rt, t, v)
    ensures Portable(rt, t.child.typ) && forall i :: 0 <= i < |v.items| ==> Exact(rt, t.child.typ, v.items[i])
    ensures t.FixedSizeList? ==> |v.items| == t.listSize
  {
  }

  lemma ListOfExact(rt: Runtime, t: DataType, v: Value)
    requires IsList(t) && v.QList? && NormalItems(rt, t.child.typ, v.items) == Ok(v.items)
    requires forall i :: 0 <= i < |v.items| ==> Accepts(rt, t.child.typ, v.items[i])
    requires t.FixedSizeList? ==> |v.items| == t.listSize
    ensures Fixed(rt, t, v)
  {
    hide NormalItems;
    NarrowIsCongruent(W32, true, |v.items|);
  }

  lemma {:induction false} ExactItems(rt: Runtime, t: DataType, vs: seq<Value>)
    requires Portable(rt, t) && forall i :: 0 <= i < |vs| ==> Exact(rt, t, vs[i])
    ensures NormalItems(rt, t, vs) == Ok(vs) && forall i :: 0 <= i < |vs| ==> Accepts(rt, t, vs[i])
    decreases t, 3, |vs|
  {
    hide Exact, NormalForm, Accepts, Portable;
    if vs != [] {
      var n := |vs| - 1;
      ExactItems(rt, t, vs[..n]);
      ExactIsFixed(rt, t, vs[n]);
      assert vs == vs[..n] + [vs[n]];
      forall i | 0 <= i < |vs|
        ensures Accepts(rt, t, vs[i])
      {
        assert i < n ==> vs[i] == vs[..n][i];
      }
    }
  }

  lemma {:induction false} ExactSizes(rt: Runtime, t: DataType, v: Value)
    requires Portable(rt, t) && Exact(rt, t, v)
    ensures TrueSizes(t, v)
    decreases t
  {
    hide Exact, Portable;
    ExactKind(rt, t, v);
    if v.QNothing? {
    } else if t.Struct? {
      ExactFields(rt, t, v.entries);
      forall k | 0 <= k < |t.fields|
        ensures TrueSizes(t.fields[k].typ, FieldValue(t, v.entries, k))
      {
        hide FieldValue;
        FieldValueAt(t, v.entries, k);
        ExactSizes(rt, t.fields[k].typ, v.entries[k].value);
      }
    } else if IsList(t) {
      ExactElements(rt, t, v);
      forall i | 0 <= i < |v.items|
        ensures TrueSizes(t.child.typ, v.items[i])
      {
        ExactSizes(rt, t.child.typ, v.items[i]);
      }
    } else if t.Map? {
      ExactEntries(rt, t, v.entries);
      forall i | 0 <= i < |v.entries|
        ensures TrueSizes(t.item.typ, v.entries[i].value)
      {
        ExactSizes(rt, t.item.typ, v.entries[i].value);
      }
    }
  }

  // The converse

  /** The exact values are those that are accepted, come back unchanged, and hide no list of a wrong size. */
  lemma {:induction false} ExactlyFixed(rt: Runtime, t: DataType, v: Value)
    requires Portable(rt, t)
    ensures Exact(rt, t, v) <==> Fixed(rt, t, v) && TrueSizes(t, v)
  {
    hide Exact, Fixed, TrueSizes;
    if Exact(rt, t, v) {
      ExactIsFixed(rt, t, v);
      ExactSizes(rt, t, v);
    } else if Fixed(rt, t, v) && TrueSizes(t, v) {
      FixedIsExact(rt, t, v);
    }
  }

  lemma {:induction false} FixedIsExact(rt: Runtime, t: DataType, v: Value)
    requires Portable(rt, t) && Fixed(rt, t, v) && TrueSizes(t, v)
    ensures Exact(rt, t, v)
    decreases t, 2
  {
    hide Exact;
    if IsNothing(v) {
      NothingIsExact(rt, t);
    } else if t.Struct? {
      FixedStruct(rt, t, v.entries);
    } else if IsList(t) {
      FixedList(rt, t, v);
    } else if t.Map? {
      FixedMap(rt, t, v.entries);
    } else {
      FixedScalar(rt, t, v);
      ScalarExact(rt, t, v);
    }
  }

  lemma NothingIsExact(rt: Runtime, t: DataType)
    ensures Exact(rt, t, QNothing)
  {
  }

  lemma ScalarExact(rt: Runtime, t: DataType, v: Value)
    requires !Nested(t) && ExactScalar(rt, t, v)
    ensures Exact(rt, t, v)
  {
    hide ExactScalar;
  }

  lemma {:induction false} FixedStruct(rt: Runtime, t: DataType, h: seq<Entry>)
    requires t.Struct? && Portable(rt, t) && Fixed(rt, t, QHash(h)) && TrueSizes(t, QHash(h))
    ensures Exact(rt, t, QHash(h))
    decreases t, 1
  {
    hide Exact, Fixed, NormalForm, Accepts, FieldValue, NormalFields, Portable, TrueSizes;
    StructAsFixed(rt, t, h);
    StructProjection(rt, t, h, |t.fields|);
    forall k | 0 <= k < |h|
      ensures Exact(rt, t.fields[k].typ, h[k].value)
    {
      FieldValueAt(t, h, k);
      FixedFrom(rt, t.fields[k].typ, h[k].value);
      FixedIsExact(rt, t.fields[k].typ, h[k].value);
    }
    StructExact(rt, t, h);
  }

  lemma StructAsFixed(rt: Runtime, t: DataType, h: seq<Entry>)
    requires t.Struct? && Portable(rt, t) && Fixed(rt, t, QHash(h)) && TrueSizes(t, QHash(h))
    ensures HashNames(t.fields) && NormalFields(rt, t, h, |t.fields|) == Ok(h)
    ensures forall k :: 0 <= k < |t.fields| ==>
      && Portable(rt, t.fields[k].typ)
      && Accepts(rt, t.fields[k].typ, FieldValue(t, h, k)) && TrueSizes(t.fields[k].typ, FieldValue(t, h, k))
  {
    hide FieldValue, NormalFields;
  }

  lemma StructExact(rt: Runtime, t: DataType, h: seq<Entry>)
    requires t.Struct? && |h| == |t.fields|
    requires forall k :: 0 <= k < |h| ==> h[k].key == t.fields[k].name && Exact(rt, t.fields[k].typ, h[k].value)
    ensures Exact(rt, t, QHash(h))
  {
  }

  lemma {:induction false} FixedList(rt: Runtime, t: DataType, v: Value)
    requires IsList(t) && Portable(rt, t) && !IsNothing(v) && Fixed(rt, t, v) && TrueSizes(t, v)
    ensures Exact(rt, t, v)
    decreases t, 1
  {
    hide Exact, Fixed, NormalForm, Accepts, NormalItems, Portable, TrueSizes;
    ListAsFixed(rt, t, v);
    var items := v.items;
    forall i | 0 <= i < |items|
      ensures Exact(rt, t.child.typ, items[i])
    {
      NormalItemsAt(rt, t.child.typ, items, i);
      FixedFrom(rt, t.child.typ, items[i]);
      FixedIsExact(rt, t.child.typ, items[i]);
    }
    ListExact(rt, t, v);
  }

  lemma ListAsFixed(rt: Runtime, t: DataType, v: Value)
    requires IsList(t) && Portable(rt, t) && !IsNothing(v) && Fixed(rt, t, v) && TrueSizes(t, v)
    ensures Portable(rt, t.child.typ) && v.QList? && NormalItems(rt, t.child.typ, v.items) == Ok(v.items)
    ensures t.FixedSizeList? ==> |v.items| == t.listSize
    ensures forall i :: 0 <= i < |v.items| ==>
      Accepts(rt, t.child.typ, v.items[i]) && TrueSizes(t.child.typ, v.items[i])
  {
    hide NormalItems, Narrow;
  }

  lemma ListExact(rt: Runtime, t: DataType, v: Value)
    requires IsList(t) && v.QList? && (t.FixedSizeList? ==> |v.items| == t.listSize)
    requires forall i :: 0 <= i < |v.items| ==> Exact(rt, t.child.typ, v.items[i])
    ensures Exact(rt, t, v)
  {
  }

  lemma {:induction false} FixedMap(rt: Runtime, t: DataType, h: seq<Entry>)
    requires t.Map? && Portable(rt, t) && Fixed(rt, t, QHash(h)) && TrueSizes(t, QHash(h))
    ensures Exact(rt, t, QHash(h))
    decreases t, 1
  {
    hide Exact, Fixed, NormalForm, Accepts, NormalEntries, Portable, TrueSizes;
    MapAsFixed(rt, t, h);
    NormalKeys(rt, t, h);
    MapKeepsKeyOrder(rt, t, h);
    forall i | 0 <= i < |h|
      ensures Exact(rt, t.item.typ, h[i].value)
    {
      FixedFrom(rt, t.item.typ, h[i].value);
      FixedIsExact(rt, t.item.typ, h[i].value);
    }
    MapExact(rt, t, h);
  }

  lemma MapAsFixed(rt: Runtime, t: DataType, h: seq<Entry>)
    requires t.Map? && Portable(rt, t) && Fixed(rt, t, QHash(h)) && TrueSizes(t, QHash(h))
    ensures (t.key.typ.Utf8? || t.key.typ.LargeUtf8?) && Portable(rt, t.item.typ) && NormalEntries(rt, t, h) == Ok(h)
    ensures forall i :: 0 <= i < |h| ==> Accepts(rt, t.item.typ, h[i].value) && TrueSizes(t.item.typ, h[i].value)
  {
    hide NormalEntries;
    forall i | 0 <= i < |h|
      ensures AcceptsEntry(rt, t, h[i])
    {
    }
  }

  /** The keys of a normal form are unique and free of NULs. */
  lemma {:induction false} NormalKeys(rt: Runtime, t: DataType, h: seq<Entry>)
    requires t.Map? && (t.key.typ.Utf8? || t.key.typ.LargeUtf8?) && NormalEntries(rt, t, h).Ok?
    ensures var n := NormalEntries(rt, t, h).value;
      UniqueKeys(n) && forall i :: 0 <= i < |n| ==> '\0' !in n[i].key
    decreases |h|
  {
    hide NormalForm, CStr, SetKey;
    if h != [] {
      var m := |h| - 1;
      NormalKeys(rt, t, h[..m]);
      KeyForm(rt, t.key.typ, h[m].key);
      CStrWithoutNul(h[m].key);
      CStrWithoutNul(CStr(h[m].key));
      var before := NormalEntries(rt, t, h[..m]).value;
      var key, v := CStr(h[m].key), NormalForm(rt, t.item.typ, h[m].value).value;
      assert NormalEntries(rt, t, h).value == SetKey(before, key, v);
      SetKeyKeepsUnique(before, key, v);
      SetKeyEntries(before, key, v);
    }
  }

  lemma MapExact(rt: Runtime, t: DataType, h: seq<Entry>)
    requires t.Map? && UniqueKeys(h)
    requires forall i :: 0 <= i < |h| ==> '\0' !in h[i].key && Exact(rt, t.item.typ, h[i].value)
    ensures Exact(rt, t, QHash(h))
  {
  }

  lemma FixedScalar(rt: Runtime, t: DataType, v: Value)
    requires Portable(rt, t) && !Nested(t) && !IsNothing(v) && Fixed(rt, t, v)
    ensures ExactScalar(rt, t, v)
  {
    LeafForm(rt, t, v);
    hide Fixed, Accepts, NormalForm;
    if t.Integer? {
      FixedInteger(rt, t, v);
    } else if t.Timestamp? {
      FixedTimestamp(rt, t, v);
    } else if t.Date32? || t.Date64? || t.Time32? || t.Time64? || t.Duration? {
      FixedClock(rt, t, v);
    }
  }

  lemma FixedClock(rt: Runtime, t: DataType, v: Value)
    requires t.Date32? || t.Date64? || t.Time32? || t.Time64? || t.Duration?
    requires Portable(rt, t) && !IsNothing(v) && Encode(rt, t, v).Ok?
    requires var stored := Encode(rt, t, v).value;
      Ok(v) == if stored.Some? then Decode(rt, t, stored.value) else Ok(QNothing)
    ensures ExactScalar(rt, t, v)
  {
    ClockStored(rt, t, v);
    var n := Encode(rt, t, v).value.value.n;
    assert Restored(rt, t, n) == Ok(Some(Number(n))) by { hide Encode, Decode; }
    hide Encode, ExactScalar;
    if t.Date32? || t.Date64? {
      FixedDate(rt, t, v.date, n);
    } else if t.Duration? {
      FixedDuration(rt, t.unit, v.date, n);
    } else {
      FixedTime(rt, t, v.date, n);
    }
  }

  /** What is stored for a date fits the column. */
  lemma ClockStored(rt: Runtime, t: DataType, v: Value)
    requires t.Date32? || t.Date64? || t.Time32? || t.Time64? || t.Duration?
    requires Encode(rt, t, v).Ok? && Encode(rt, t, v).value.Some?
    ensures v.QDate? && Fits(if t.Date32? || t.Time32? then W32 else W64, true, Encode(rt, t, v).value.value.n)
  {
    if v.QDate? {
      if t.Time32? || t.Time64? {
        EncodeTime(rt, t, v.date);
      }
      hide TDiv, ExactCount, Fits, Narrow;
      forall x: int
        ensures Fits(W32, true, Narrow(W32, true, x)) && Fits(W64, true, Narrow(W64, true, x))
      {
        NarrowIsCongruent(W32, true, x);
        NarrowIsCongruent(W64, true, x);
      }
    }
  }

  lemma FixedDate(rt: Runtime, t: DataType, d: DateTime, n: int)
    requires t.Date32? || t.Date64?
    requires ShowsUtc(rt) && Fits(if t.Date32? then W32 else W64, true, n)
    requires Decode(rt, t, Number(n)) == Ok(QDate(d)) && Restored(rt, t, n) == Ok(Some(Number(n)))
    ensures ExactScalar(rt, t, QDate(d))
  {
    hide ShowsUtc, Restored, SecondsOf, MicrosOf, MakeAbsolute, WholeDay;
    if t.Date64? {
      Date64FallsToDay(rt, n);
      DayOfMillis(n);
      WholeDayOfMillis(rt, n);
      SplitMilli(n);
    } else {
      WholeDayOfDays(rt, n);
    }
  }

  lemma WholeDayOfDays(rt: Runtime, n: int)
    ensures var d := MakeAbsolute(rt.localZone, n * 86400, 0); WholeDay(rt, d) && d.seconds / 86400 == n
  {
    QuotientUnique(n * 86400, 86400, n, 0);
  }

  lemma WholeDayOfMillis(rt: Runtime, n: int)
    requires n % 86400000 == 0
    ensures var d := MakeAbsolute(rt.localZone, SecondsOf(Milli, n), MicrosOf(Milli, n));
      WholeDay(rt, d) && d.seconds * 1000 == n
  {
    SplitMilli(n);
    DayOfMillis(n);
    hide SecondsOf, MicrosOf;
  }

  lemma DayOfMillis(n: int)
    requires n % 86400000 == 0
    ensures n / 1000 % 86400 == 0 && n % 1000 == 0 && n / 1000 * 1000 == n
  {
    var day := n / 86400000;
    QuotientUnique(n, 1000, day * 86400, 0);
    QuotientUnique(n / 1000, 86400, day, 0);
  }

  lemma FixedTime(rt: Runtime, t: DataType, d: DateTime, n: int)
    requires t.Time32? || t.Time64?
    requires ShowsUtc(rt) && Fits(if t.Time32? then W32 else W64, true, n)
    requires Decode(rt, t, Number(n)) == Ok(QDate(d)) && Restored(rt, t, n) == Ok(Some(Number(n)))
    ensures WholeTime(rt, TimeUnitOf(t), d)
  {
    hide ShowsUtc, Restored, TDiv, TMod, Decode, SecondsOf, MicrosOf, Settled, DayCount, TimeUnitOf, Fits;
    var unit := TimeUnitOf(t);
    TimeOfDaySurvives(rt, t, n);
    DecodeTime(rt, t, n);
    TimeWithinDay(unit, n);
  }

  /** A count that settles as itself within its day is read as a time of the first day, without a part below the unit. */
  lemma TimeWithinDay(unit: TimeUnit, n: int)
    requires Settled(unit, n) % DayCount(unit) == n
    ensures var d := MakeAbsolute("", SecondsOf(unit, n), MicrosOf(unit, n));
      0 <= d.seconds < 86400 && 0 <= d.micros < 1000000 && KeptMicros(unit, d.micros) == d.micros
  {
    WithinItsDay(unit, n);
    hide MakeAbsolute, SecondsOf, MicrosOf, Settled, TDiv;
    match unit
    case Second =>
      SplitWhole(n);
      SecondsAreCounts(n);
    case Milli => SplitMilli(n);
    case Micro => SplitMicro(n);
    case Nano =>
      SplitCount(Nano, n);
      SplitNano(n);
  }

  lemma SecondsAreCounts(n: int)
    ensures SecondsOf(Second, n) == n && MicrosOf(Second, n) == 0
  {
  }

  lemma WithinItsDay(unit: TimeUnit, n: int)
    requires Settled(unit, n) % DayCount(unit) == n
    ensures 0 <= n < DayCount(unit) && Settled(unit, n) == n
  {
    if unit == Nano {
      var settled := Settled(unit, n);
      assert 0 <= n && settled == n / 1000 * 1000 && 0 <= settled <= n;
      QuotientUnique(settled, DayCount(unit), 0, settled);
    }
  }

  lemma FixedDuration(rt: Runtime, unit: TimeUnit, d: DateTime, n: int)
    requires SplitsDurations(rt) && Fits(W64, true, n)
    requires Decode(rt, Duration(unit), Number(n)) == Ok(QDate(d))
    requires Restored(rt, Duration(unit), n) == Ok(Some(Number(n)))
    ensures WholeDuration(unit, d)
  {
    hide SplitsDurations, Restored, Settled, ExactCount, KeptMicros, SecondsOf, MicrosOf;
    DurationSurvives(rt, unit, n);
    DurationParts(unit, n);
    PartIsKept(unit, n);
  }

  lemma PartIsKept(unit: TimeUnit, n: int)
    ensures KeptMicros(unit, MicrosOf(unit, n)) == MicrosOf(unit, n)
  {
  }

  lemma FixedInteger(rt: Runtime, t: DataType, v: Value)
    requires t.Integer? && Encode(rt, t, v).Ok? && Encode(rt, t, v).value.Some?
    requires Decode(rt, t, Encode(rt, t, v).value.value) == Ok(v)
    ensures ExactScalar(rt, t, v)
  {
    if v.QInt? {
      IntegerRoundTrip(rt, t.width, t.signed, v.i);
    } else if v.QNumber? {
      NarrowIsCongruent(t.width, t.signed, AsBigInt(rt, v));
    }
    hide Narrow, NatText, ParsePrefix;
  }

  lemma FixedTimestamp(rt: Runtime, t: DataType, v: Value)
    requires t.Timestamp? && !IsNothing(v) && Encode(rt, t, v).Ok?
    requires var stored := Encode(rt, t, v).value;
      Ok(v) == if stored.Some? then Decode(rt, t, stored.value) else Ok(QNothing)
    ensures ExactScalar(rt, t, v)
  {
    var count := Encode(rt, t, v).value.value.n;
    var d := MakeAbsolute(v.date.zone, SecondsOf(t.unit, count), MicrosOf(t.unit, count));
    assert v.date == d && ZoneOf(rt, t.timezone) == Some(d.zone) && 0 <= d.micros < 1000000 by {
      hide SecondsOf, MicrosOf, ExactCount, Narrow, ZoneOf;
    }
    SplitCount(t.unit, count);
    var exact := ExactCount(t.unit, d.seconds, d.micros);
    NarrowIsCongruent(W64, true, exact);
    SettledNear(t.unit, count);
    FarApart(exact, count, 0x1_0000_0000_0000_0000);
    TimestampWriteThenRead(rt, t.unit, t.timezone, v.date);
    hide SecondsOf, MicrosOf, ExactCount, Narrow, ZoneOf, Settled, KeptMicros;
  }

  /** A list goes into an Arrow array and comes back as it is. */
  ghost predicate Survives(rt: Runtime, t: DataType, vs: seq<Value>) {
    var built := Build(rt, t, vs);
    built.Ok? && WellFormed(built.value) && Values(rt, built.value) == Ok(vs)
  }

  /** A list survives listToArray and arrayToList exactly when all its values are exact, where no list of a wrong size
      gets through the length check. */
  lemma ExactColumn(rt: Runtime, t: DataType, vs: seq<Value>)
    requires Portable(rt, t) && Buildable(t)
    ensures (forall i :: 0 <= i < |vs| ==> Exact(rt, t, vs[i])) <==> Survives(rt, t, vs) && TrueColumn(t, vs)
  {
    hide Build, Buildable, Portable, Exact, TrueSizes, WellFormed, Values, Accepts, NormalForm;
    BuildThenRead(rt, t, vs);
    forall i | 0 <= i < |vs|
      ensures Exact(rt, t, vs[i])
        <==> Accepts(rt, t, vs[i]) && NormalForm(rt, t, vs[i]) == Ok(vs[i]) && TrueSizes(t, vs[i])
    {
      ExactlyFixed(rt, t, vs[i]);
    }
    if forall i :: 0 <= i < |vs| ==> NormalForm(rt, t, vs[i]) == Ok(vs[i]) {
      NormalItemsOf(rt, t, vs, |vs|);
      assert vs[..|vs|] == vs;
    } else if NormalItems(rt, t, vs) == Ok(vs) {
      var i :| 0 <= i < |vs| && NormalForm(rt, t, vs[i]) != Ok(vs[i]);
      NormalItemsAt(rt, t, vs, i);
    }
  }
}
