/** What normal forms look like, and why a value that was read back can be stored again unchanged. */
module NormalForms {
  import opened Wrappers
  import opened ArrowTypes
  import opened Bytes
  import opened QoreValues
  import opened Scalars
  import opened DatesAndTimes
  import opened ArrowArrays
  import opened BuilderColumns
  import opened ColumnMeaning

  /** Values that are their own normal forms make a list that is. */
  lemma {:induction false} NormalItemsOf(rt: Runtime, t: DataType, vs: seq<Value>, k: nat)
    requires k <= |vs| && forall i :: 0 <= i < k ==> NormalForm(rt, t, vs[i]) == Ok(vs[i])
    ensures NormalItems(rt, t, vs[..k]) == Ok(vs[..k])
    decreases k
  {
    hide NormalForm, NormalItems;
    if k == 0 {
      NormalItemsStep(rt, t, []);
    } else {
      NormalItemsOf(rt, t, vs, k - 1);
      assert vs[..k][..k - 1] == vs[..k - 1];
      assert vs[..k - 1] + [vs[k - 1]] == vs[..k];
      NormalItemsStep(rt, t, vs[..k]);
    }
  }

  lemma NormalItemsStep(rt: Runtime, t: DataType, vs: seq<Value>)
    ensures NormalItems(rt, t, vs)
      == if vs == [] then Ok([])
         else AddValue(NormalItems(rt, t, vs[..|vs| - 1]), NormalForm(rt, t, vs[|vs| - 1]))
  {
    hide NormalForm;
  }

  lemma {:induction false} NormalItemsAt(rt: Runtime, t: DataType, vs: seq<Value>, i: nat)
    requires i < |vs| && NormalItems(rt, t, vs).Ok?
    ensures |NormalItems(rt, t, vs).value| == |vs|
    ensures NormalForm(rt, t, vs[i]) == Ok(NormalItems(rt, t, vs).value[i])
  {
    hide NormalForm;
    if |vs| > 1 {
      NormalItemsAt(rt, t, vs[..|vs| - 1], if i < |vs| - 1 then i else 0);
    }
  }

  predicate DistinctNames(fields: seq<Field>) {
    forall i, j :: 0 <= i < j < |fields| ==> fields[i].name != fields[j].name
  }

  /** A struct value is projected onto the fields of its type: one entry per field in schema order, each the normal
      form of the value under the field's name; keys the type does not name leave no trace. */
  lemma {:induction false} StructProjection(rt: Runtime, t: DataType, h: seq<Entry>, k: nat)
    requires t.Struct? && DistinctNames(t.fields) && k <= |t.fields|
    requires NormalFields(rt, t, h, k).Ok?
    ensures var n := NormalFields(rt, t, h, k).value;
      && |n| == k
      && forall j :: 0 <= j < k ==>
           n[j].key == t.fields[j].name && Ok(n[j].value) == NormalForm(rt, t.fields[j].typ, FieldValue(t, h, j))
  {
    hide NormalForm, FieldValue;
    if k > 0 {
      StructProjection(rt, t, h, k - 1);
      var n := NormalFields(rt, t, h, k - 1).value;
      var name := t.fields[k - 1].name;
      assert !HasKey(n, name);
      SetKeyPlaces(n, name, NormalForm(rt, t.fields[k - 1].typ, FieldValue(t, h, k - 1)).value);
    }
  }

  /** The entries of n are the normal forms of the entries of h, under the same keys and in the same order. */
  predicate InOrder(rt: Runtime, t: DataType, h: seq<Entry>, n: seq<Entry>) {
    |n| == |h| && forall i :: 0 <= i < |h| ==> n[i].key == h[i].key && Ok(n[i].value) == NormalForm(rt, t, h[i].value)
  }

  /** A map value with string keys keeps its keys in order, when they are distinct and free of NULs. */
  lemma {:induction false} MapKeepsKeyOrder(rt: Runtime, t: DataType, h: seq<Entry>)
    requires t.Map? && (t.key.typ.Utf8? || t.key.typ.LargeUtf8?)
    requires UniqueKeys(h) && forall i :: 0 <= i < |h| ==> '\0' !in h[i].key
    requires NormalEntries(rt, t, h).Ok?
    ensures InOrder(rt, t.item.typ, h, NormalEntries(rt, t, h).value)
  {
    hide NormalForm, CStr, InOrder;
    if h == [] {
      assert InOrder(rt, t.item.typ, [], []) by { EmptyInOrder(rt, t.item.typ); }
    } else {
      var m := |h| - 1;
      MapKeepsKeyOrder(rt, t, h[..m]);
      CStrWithoutNul(h[m].key);
      KeyForm(rt, t.key.typ, h[m].key);
      OneMoreInOrder(rt, t.item.typ, h, NormalEntries(rt, t, h[..m]).value, NormalForm(rt, t.item.typ, h[m].value).value);
    }
  }

  lemma EmptyInOrder(rt: Runtime, t: DataType)
    ensures InOrder(rt, t, [], [])
  {
  }

  lemma OneMoreInOrder(rt: Runtime, t: DataType, h: seq<Entry>, n: seq<Entry>, v: Value)
    requires h != [] && UniqueKeys(h) && InOrder(rt, t, h[..|h| - 1], n)
    requires NormalForm(rt, t, h[|h| - 1].value) == Ok(v)
    ensures InOrder(rt, t, h, SetKey(n, h[|h| - 1].key, v))
  {
    hide NormalForm, SetKey;
    var m := |h| - 1;
    assert forall i :: 0 <= i < m ==> h[..m][i] == h[i];
    assert !HasKey(n, h[m].key);
    SetKeyPlaces(n, h[m].key, v);
  }

  /** A hash key passed through a string column of map keys. */
  lemma KeyForm(rt: Runtime, t: DataType, key: string)
    requires t.Utf8? || t.LargeUtf8?
    ensures Accepts(rt, t, QString(CStr(key)))
    ensures NormalForm(rt, t, QString(CStr(key))) == Ok(QString(CStr(key)))
  {
  }

  /** The types of which a column stores a null for a text. */
  predicate NullForText(t: DataType) {
    || t.Binary? || t.LargeBinary? || t.FixedSizeBinary? || t.Date32? || t.Date64? || t.Timestamp? || t.Time32?
    || t.Time64? || t.Duration? || t.NullType?
  }

  /** A map with keys of these types and of no others holds a null for a key it accepts: the hash key reaches the key
      builder as a string. */
  lemma NullKeyExactly(rt: Runtime, t: DataType, key: string)
    requires Accepts(rt, t, QString(CStr(key)))
    ensures NormalForm(rt, t, QString(CStr(key))) == Ok(QNothing) <==> NullForText(t)
  {
    hide Narrow, TDiv, CStr;
  }

  /** Rounding to a single or a half is done once: what it gives stays. */
  ghost predicate RoundsOnce(rt: Runtime) {
    forall x: real ::
      && rt.toFloat32(rt.toFloat32(x)) == rt.toFloat32(x)
      && rt.toFloat32(rt.toFloat16(x)) == rt.toFloat16(x)
      && rt.toFloat16(rt.toFloat16(x)) == rt.toFloat16(x)
  }

  /** The numbers with no more digits than a decimal of this width has. */
  predicate HasDigits(t: DataType, n: int) {
    var bound := if t.Decimal256? then Power(10, 76) else Power(10, 38);
    -bound < n < bound
  }

  /** A printed decimal is parsed as the same number. */
  ghost predicate ParsesPrinted(rt: Runtime, t: DataType) {
    forall n: int :: HasDigits(t, n) ==> rt.parseDecimal(t, CStr(rt.printDecimal(t, n))) == Some(n)
  }

  /** The types whose struct field names a hash can tell apart and whose map keys are strings. Where a value passes
      through code outside the converter, it names what that code must keep. */
  ghost predicate Stable(rt: Runtime, t: DataType)
    decreases t
  {
    match t
    case List(child) => Stable(rt, child.typ)
    case LargeList(child) => Stable(rt, child.typ)
    case FixedSizeList(child, _) => Stable(rt, child.typ)
    case Struct(fields) => HashNames(fields) && forall k :: 0 <= k < |fields| ==> Stable(rt, fields[k].typ)
    case Map(key, item) => (key.typ.Utf8? || key.typ.LargeUtf8?) && Stable(rt, item.typ)
    case HalfFloat => RoundsOnce(rt)
    case Float => RoundsOnce(rt)
    case Date32 => ShowsUtc(rt)
    case Date64 => ShowsUtc(rt) && WholeDays(rt)
    case Time32(_) => ShowsUtc(rt) && WithinDays(rt)
    case Time64(_) => ShowsUtc(rt) && WithinDays(rt)
    case Duration(_) => SplitsDurations(rt)
    case Decimal128(_, _) => ParsesPrinted(rt, t)
    case Decimal256(_, _) => ParsesPrinted(rt, t)
    case _ => true
  }

  /** The values that are stored without leaving the range of their type: the milliseconds of the midnight of a date64
      fit into 64 bits, and a decimal still has at most 38 or 76 digits after it was brought to the scale of the type. */
  predicate Regular(rt: Runtime, t: DataType, v: Value)
    decreases t
  {
    IsNothing(v) ||
    match t
    case List(child) => v.QList? ==> forall i :: 0 <= i < |v.items| ==> Regular(rt, child.typ, v.items[i])
    case LargeList(child) => v.QList? ==> forall i :: 0 <= i < |v.items| ==> Regular(rt, child.typ, v.items[i])
    case FixedSizeList(child, _) => v.QList? ==> forall i :: 0 <= i < |v.items| ==> Regular(rt, child.typ, v.items[i])
    case Struct(fields) =>
      v.QHash? ==> forall k :: 0 <= k < |fields| ==> Regular(rt, fields[k].typ, FieldValue(t, v.entries, k))
    case Map(_, item) =>
      v.QHash? ==> forall i :: 0 <= i < |v.entries| ==> Regular(rt, item.typ, v.entries[i].value)
    case Date64 => v.QDate? ==> InInt64(rt.midnight(v.date) * 1000)
    case Decimal128(_, _) => RegularDecimal(rt, t, v)
    case Decimal256(_, _) => RegularDecimal(rt, t, v)
    case _ => true
  }

  predicate RegularDecimal(rt: Runtime, t: DataType, v: Value) {
    var unscaled := rt.parseDecimal(t, CStr(AsText(rt, v)));
    unscaled.Some? ==> HasDigits(t, unscaled.value)
  }

  predicate HashNames(fields: seq<Field>) {
    DistinctNames(fields) && forall k :: 0 <= k < |fields| ==> '\0' !in fields[k].name
  }

  /** The value is accepted and comes back as itself. */
  predicate Fixed(rt: Runtime, t: DataType, v: Value) {
    Accepts(rt, t, v) && NormalForm(rt, t, v) == Ok(v)
  }

  /** Whatever a column of a stable type gives back for a regular value can be stored again, and comes back unchanged:
      converting to Arrow and back a second time changes nothing. */
  lemma {:induction false} ReadBackIsFixed(rt: Runtime, t: DataType, v: Value)
    requires Stable(rt, t) && Accepts(rt, t, v) && Regular(rt, t, v) && NormalForm(rt, t, v).Ok?
    ensures Fixed(rt, t, NormalForm(rt, t, v).value)
    decreases t, 2, 0
  {
    hide Stable, Regular, Accepts, NormalForm, Fixed, NormalItems, NormalFields, NormalEntries, AcceptsEntry;
    if IsNothing(v) {
      NothingForm(rt, t, v);
      NothingIsFixed(rt, t);
    } else if !Nested(t) {
      ScalarIsFixed(rt, t, v);
    } else {
      NestedForm(rt, t, v);
      StableParts(rt, t);
      RegularParts(rt, t, v);
      if t.Struct? {
        StructIsFixed(rt, t, v.entries);
      } else if IsList(t) {
        ItemsAreFixed(rt, t.child.typ, v.items);
        ListIsFixed(rt, t, v);
      } else {
        EntriesAreFixed(rt, t, v.entries);
        MapIsFixed(rt, t, NormalEntries(rt, t, v.entries).value);
      }
    }
  }

  lemma NothingForm(rt: Runtime, t: DataType, v: Value)
    requires IsNothing(v)
    ensures NormalForm(rt, t, v) == Ok(QNothing)
  {
  }

  /** The normal form of a value of a nested type, one level down. */
  lemma NestedForm(rt: Runtime, t: DataType, v: Value)
    requires Nested(t) && !IsNothing(v) && Accepts(rt, t, v)
    ensures IsList(t) ==>
      && v.QList? && NormalForm(rt, t, v) == ListValue(NormalItems(rt, t.child.typ, v.items))
      && forall i :: 0 <= i < |v.items| ==> Accepts(rt, t.child.typ, v.items[i])
    ensures t.Struct? ==> v.QHash? && NormalForm(rt, t, v) == HashValue(NormalFields(rt, t, v.entries, |t.fields|))
    ensures t.Map? ==>
      && v.QHash? && NormalForm(rt, t, v) == HashValue(NormalEntries(rt, t, v.entries))
      && forall i :: 0 <= i < |v.entries| ==> AcceptsEntry(rt, t, v.entries[i])
  {
    hide NormalItems, NormalFields, NormalEntries, AcceptsEntry;
  }

  lemma StableParts(rt: Runtime, t: DataType)
    requires Stable(rt, t)
    ensures IsList(t) ==> Stable(rt, t.child.typ)
    ensures t.Map? ==> (t.key.typ.Utf8? || t.key.typ.LargeUtf8?) && Stable(rt, t.item.typ)
  {
  }

  lemma RegularParts(rt: Runtime, t: DataType, v: Value)
    requires Nested(t) && !IsNothing(v) && Regular(rt, t, v)
    ensures IsList(t) && v.QList? ==> forall i :: 0 <= i < |v.items| ==> Regular(rt, t.child.typ, v.items[i])
    ensures t.Map? && v.QHash? ==> forall i :: 0 <= i < |v.entries| ==> Regular(rt, t.item.typ, v.entries[i].value)
  {
  }

  lemma ScalarIsFixed(rt: Runtime, t: DataType, v: Value)
    requires Stable(rt, t) && Regular(rt, t, v)
    requires !Nested(t) && !IsNothing(v) && Accepts(rt, t, v) && NormalForm(rt, t, v).Ok?
    ensures Fixed(rt, t, NormalForm(rt, t, v).value)
  {
    LeafForm(rt, t, v);
    hide Accepts, NormalForm, Stable, Regular;
    if !CanHold(t) {
      NothingIsFixed(rt, t);
    } else if t.Integer? {
      IntegerIsFixed(rt, t, v);
    } else if t.Timestamp? {
      TimestampIsFixed(rt, t, v);
    } else if t.HalfFloat? || t.Float? || t.Double? {
      FloatIsFixed(rt, t, v);
    } else if t.Date32? || t.Date64? || t.Time32? || t.Time64? || t.Duration? {
      ClockIsFixed(rt, t, v);
    } else if t.Decimal128? || t.Decimal256? {
      DecimalIsFixed(rt, t, v);
    } else {
      PlainIsFixed(rt, t, v);
    }
  }

  /** The normal form of a value of a type without children is what its cell decodes to. */
  lemma LeafForm(rt: Runtime, t: DataType, v: Value)
    requires !Nested(t) && !IsNothing(v)
    ensures Accepts(rt, t, v) <==> Encode(rt, t, v).Ok?
    ensures var stored := Encode(rt, t, v);
      NormalForm(rt, t, v)
      == if stored.Ok? && stored.value.Some? then Decode(rt, t, stored.value.value) else Ok(QNothing)
  {
    hide Encode, Decode;
  }

  lemma NothingIsFixed(rt: Runtime, t: DataType)
    ensures Fixed(rt, t, QNothing)
  {
  }

  /** A value stored as a cell that decodes to it is fixed. */
  lemma CellIsFixed(rt: Runtime, t: DataType, w: Value, c: Cell)
    requires !Nested(t) && !IsNothing(w) && Encode(rt, t, w) == Ok(Some(c)) && Decode(rt, t, c) == Ok(w)
    ensures Fixed(rt, t, w)
  {
    LeafForm(rt, t, w);
    hide Encode, Decode, Accepts, NormalForm;
  }

  lemma IntegerIsFixed(rt: Runtime, t: DataType, v: Value)
    requires t.Integer? && !IsNothing(v) && NormalForm(rt, t, v).Ok?
    ensures Fixed(rt, t, NormalForm(rt, t, v).value)
  {
    LeafForm(rt, t, v);
    var c := Encode(rt, t, v).value.value;
    StoredIntegerSurvives(rt, t.width, t.signed, c.n);
    var w := Decode(rt, t, c).value;
    assert !IsNothing(w) by { hide Encode; }
    hide NormalForm, Fixed, Encode, Decode;
    CellIsFixed(rt, t, w, c);
  }

  lemma FloatIsFixed(rt: Runtime, t: DataType, v: Value)
    requires t.HalfFloat? || t.Float? || t.Double?
    requires Stable(rt, t) && !IsNothing(v) && NormalForm(rt, t, v).Ok?
    ensures Fixed(rt, t, NormalForm(rt, t, v).value)
  {
    LeafForm(rt, t, v);
    var c := Encode(rt, t, v).value.value;
    hide NormalForm, Fixed, Accepts;
    if !t.Double? {
      var x := rt.toFloat32(AsFloat(rt, v));
      assert RoundsOnce(rt) && rt.toFloat32(x) == x;
      assert rt.toFloat32(rt.toFloat16(x)) == rt.toFloat16(x) && rt.toFloat16(rt.toFloat16(x)) == rt.toFloat16(x);
    }
    CellIsFixed(rt, t, QFloat(c.r), c);
  }

  lemma DecimalIsFixed(rt: Runtime, t: DataType, v: Value)
    requires t.Decimal128? || t.Decimal256?
    requires Stable(rt, t) && Regular(rt, t, v)
    requires !IsNothing(v) && Accepts(rt, t, v) && NormalForm(rt, t, v).Ok?
    ensures Fixed(rt, t, NormalForm(rt, t, v).value)
  {
    LeafForm(rt, t, v);
    hide Accepts, NormalForm, Fixed, HasDigits, Power;
    var c := Encode(rt, t, v).value.value;
    CellIsFixed(rt, t, QNumber(rt.printDecimal(t, c.n)), c);
  }

  lemma PlainIsFixed(rt: Runtime, t: DataType, v: Value)
    requires t.Boolean? || t.Utf8? || t.LargeUtf8? || t.Binary? || t.LargeBinary? || t.FixedSizeBinary?
    requires !IsNothing(v) && Accepts(rt, t, v) && NormalForm(rt, t, v).Ok?
    ensures Fixed(rt, t, NormalForm(rt, t, v).value)
  {
    LeafForm(rt, t, v);
    hide NormalForm, Accepts, Fixed;
    var stored := Encode(rt, t, v).value;
    if stored.None? {
      NothingIsFixed(rt, t);
    } else {
      PlainCell(rt, t, v, stored.value);
      CellIsFixed(rt, t, Decode(rt, t, stored.value).value, stored.value);
    }
  }

  lemma PlainCell(rt: Runtime, t: DataType, v: Value, c: Cell)
    requires t.Boolean? || t.Utf8? || t.LargeUtf8? || t.Binary? || t.LargeBinary? || t.FixedSizeBinary?
    requires Encode(rt, t, v) == Ok(Some(c))
    ensures Decode(rt, t, c).Ok?
    ensures var w := Decode(rt, t, c).value; !IsNothing(w) && Encode(rt, t, w) == Ok(Some(c))
  {
    if t.FixedSizeBinary? {
      NarrowIsCongruent(W32, true, |c.bytes|);
      assert c.bytes[..|c.bytes|] == c.bytes;
      assert v.bytes[..|v.bytes|] == v.bytes;
      hide Narrow;
    }
  }

  lemma ClockIsFixed(rt: Runtime, t: DataType, v: Value)
    requires t.Date32? || t.Date64? || t.Time32? || t.Time64? || t.Duration?
    requires Stable(rt, t) && Regular(rt, t, v) && !IsNothing(v) && NormalForm(rt, t, v).Ok?
    ensures Fixed(rt, t, NormalForm(rt, t, v).value)
  {
    hide NormalForm, Fixed, Accepts, Encode, Decode, Stable, Regular;
    LeafForm(rt, t, v);
    ClockEncodes(rt, t, v);
    if v.QDate? {
      var c := Encode(rt, t, v).value.value;
      ClockCell(rt, t, v.date, c.n);
      ClockDecodes(rt, t, c.n);
      var w := Decode(rt, t, c).value;
      CellIsFixed(rt, t, w, Restored(rt, t, c.n).value.value);
    } else {
      NothingIsFixed(rt, t);
    }
  }

  lemma ClockEncodes(rt: Runtime, t: DataType, v: Value)
    requires t.Date32? || t.Date64? || t.Time32? || t.Time64? || t.Duration?
    ensures var stored := Encode(rt, t, v);
      stored.Ok? && (stored.value.Some? <==> v.QDate?) && (v.QDate? ==> stored.value.value.Number?)
  {
    hide Narrow, TDiv, ExactCount;
  }

  lemma ClockDecodes(rt: Runtime, t: DataType, n: int)
    requires t.Date32? || t.Date64? || t.Time32? || t.Time64? || t.Duration?
    ensures Decode(rt, t, Number(n)).Ok? && Decode(rt, t, Number(n)).value.QDate?
  {
  }

  /** A stored count is restored as one that reads the same. */
  lemma ClockCell(rt: Runtime, t: DataType, d: DateTime, n: int)
    requires t.Date32? || t.Date64? || t.Time32? || t.Time64? || t.Duration?
    requires Stable(rt, t) && Regular(rt, t, QDate(d)) && Encode(rt, t, QDate(d)) == Ok(Some(Number(n)))
    ensures var again := Restored(rt, t, n);
      && again.Ok? && again.value.Some? && again.value.value.Number?
      && Decode(rt, t, again.value.value) == Decode(rt, t, Number(n))
  {
    if t.Date32? || t.Date64? {
      DateCell(rt, t, d, n);
    } else if t.Duration? {
      DurationCell(rt, t.unit, d, n);
    } else {
      TimeCell(rt, t, d, n);
    }
    hide Encode, Decode, Restored;
  }

  lemma DateCell(rt: Runtime, t: DataType, d: DateTime, n: int)
    requires t.Date32? || t.Date64?
    requires ShowsUtc(rt) && (t.Date64? ==> WholeDays(rt) && InInt64(rt.midnight(d) * 1000))
    requires Encode(rt, t, QDate(d)) == Ok(Some(Number(n)))
    ensures Restored(rt, t, n) == Ok(Some(Number(n)))
  {
    hide ShowsUtc, Narrow, Restored, TDiv, Encode, WholeDays;
    DateCount(rt, t, d);
    if t.Date32? {
      NarrowIsCongruent(W32, true, TDiv(rt.midnight(d), 86400));
      Date32Survives(rt, n);
    } else {
      MillisOfDay(rt, d);
      NarrowIsCongruent(W64, true, n);
      Date64FallsToDay(rt, n);
    }
  }

  lemma DateCount(rt: Runtime, t: DataType, d: DateTime)
    requires t.Date32? || t.Date64?
    ensures Encode(rt, t, QDate(d))
      == Ok(Some(Number(if t.Date32? then Narrow(W32, true, TDiv(rt.midnight(d), 86400)) else Int64(rt.midnight(d) * 1000))))
  {
    hide Narrow, TDiv;
  }

  lemma MillisOfDay(rt: Runtime, d: DateTime)
    requires WholeDays(rt) && InInt64(rt.midnight(d) * 1000)
    ensures Int64(rt.midnight(d) * 1000) == rt.midnight(d) * 1000 && rt.midnight(d) * 1000 % 86400000 == 0
  {
    var m := rt.midnight(d);
    assert m % 86400 == 0;
    NarrowIsCongruent(W64, true, m * 1000);
    QuotientUnique(m * 1000, 86400000, m / 86400, 0);
    hide Narrow;
  }

  /** What a date64 column gives back is stored again and comes back unchanged exactly when the milliseconds of the
      midnight of the stored date fit into 64 bits. */
  lemma Date64ReadBackExactly(rt: Runtime, d: DateTime)
    requires ShowsUtc(rt) && WholeDays(rt)
    ensures NormalForm(rt, Date64, QDate(d)).Ok?
    ensures Fixed(rt, Date64, NormalForm(rt, Date64, QDate(d)).value) <==> InInt64(rt.midnight(d) * 1000)
  {
    hide ShowsUtc, WholeDays, Restored, Narrow, SecondsOf, MicrosOf, Accepts, NormalForm, Fixed;
    var n: int64 := Int64(rt.midnight(d) * 1000);
    DateCount(rt, Date64, d);
    LeafForm(rt, Date64, QDate(d));
    Date64FallsToDay(rt, n);
    var day := Int64(n - n % 86400000);
    FixedAgain(rt, n, day);
    DistinctMillis(n, day);
    WrappedDay(rt, d);
  }

  lemma FixedAgain(rt: Runtime, n: int, m: int)
    requires Restored(rt, Date64, n) == Ok(Some(Number(m)))
    ensures Fixed(rt, Date64, Decode(rt, Date64, Number(n)).value)
      <==> Decode(rt, Date64, Number(m)) == Decode(rt, Date64, Number(n))
  {
    LeafForm(rt, Date64, Decode(rt, Date64, Number(n)).value);
    hide Accepts, NormalForm, Encode, SecondsOf, MicrosOf, MakeAbsolute;
  }

  lemma DistinctMillis(a: int, b: int)
    ensures MakeAbsolute("", SecondsOf(Milli, a), MicrosOf(Milli, a)) == MakeAbsolute("", SecondsOf(Milli, b), MicrosOf(Milli, b))
      <==> a == b
  {
    SplitMilli(a);
    SplitMilli(b);
    hide MakeAbsolute, SecondsOf, MicrosOf, TDiv;
  }

  lemma WrappedDay(rt: Runtime, d: DateTime)
    requires WholeDays(rt)
    ensures Int64(rt.midnight(d) * 1000) % 86400000 == 0 <==> InInt64(rt.midnight(d) * 1000)
  {
    var m := rt.midnight(d);
    assert m % 86400 == 0 && InInt64(m);
    if InInt64(m * 1000) {
      MillisOfDay(rt, d);
    } else {
      var n, turn := Int64(m * 1000), 0x1_0000_0000_0000_0000;
      NarrowIsCongruent(W64, true, m * 1000);
      var k := n / turn - m * 1000 / turn;
      assert n == m * 1000 + k * turn;
      if n % 86400000 == 0 {
        NoWholeTurns(k, n / 86400000 - m / 86400);
      }
    }
    hide WholeDays, Narrow;
  }

  /** Fewer than 3125 turns of 64 bits are no number of whole days of milliseconds. */
  lemma NoWholeTurns(k: int, days: int)
    requires -3125 < k < 3125 && k * 0x1_0000_0000_0000_0000 == 86400000 * days
    ensures k == 0
  {
    // the inverse of 2^64 modulo 5^5
    assert 0x1_0000_0000_0000_0000 * 1986 == 1 + 3125 * 11723274793723894243;
    assert k == 3125 * (27648 * days * 1986 - k * 11723274793723894243);
  }

  lemma DurationCell(rt: Runtime, unit: TimeUnit, d: DateTime, n: int)
    requires SplitsDurations(rt) && Encode(rt, Duration(unit), QDate(d)) == Ok(Some(Number(n)))
    ensures Restored(rt, Duration(unit), n) == Ok(Some(Number(Settled(unit, n))))
    ensures Decode(rt, Duration(unit), Number(Settled(unit, n))) == Decode(rt, Duration(unit), Number(n))
  {
    NarrowIsCongruent(W64, true, ExactCount(unit, rt.relativeSeconds(d), rt.relativeMicros(d)));
    DurationSurvives(rt, unit, n);
    SettledReadsSame(unit, n);
    hide SplitsDurations, SecondsOf, MicrosOf, Settled, Restored;
  }

  lemma TimeCell(rt: Runtime, t: DataType, d: DateTime, n: int)
    requires t.Time32? || t.Time64?
    requires ShowsUtc(rt) && WithinDays(rt) && Encode(rt, t, QDate(d)) == Ok(Some(Number(n)))
    ensures Restored(rt, t, n) == Ok(Some(Number(n)))
  {
    hide Encode, ExactCount, Settled, Restored, Narrow, ShowsUtc, DayCount, Fits;
    var unit, seconds, micros := TimeUnitOf(t), rt.secondOfDay(d), rt.microOfSecond(d);
    var count := ExactCount(unit, seconds, micros);
    EncodeTime(rt, t, d);
    WithinDay(unit, seconds, micros);
    SettledCount(unit, seconds, micros);
    CountOfDay(t, count);
    NarrowIsCongruent(W32, true, count);
    NarrowIsCongruent(W64, true, count);
    TimeOfDaySurvives(rt, t, count);
  }

  lemma CountOfDay(t: DataType, count: int)
    requires (t.Time32? || t.Time64?) && 0 <= count < DayCount(TimeUnitOf(t))
    ensures count % DayCount(TimeUnitOf(t)) == count
    ensures Fits(W64, true, count) && (t.Time32? ==> Fits(W32, true, count))
  {
  }

  /** The count of a moment has no part below a microsecond. */
  lemma SettledCount(unit: TimeUnit, seconds: int, micros: int)
    ensures Settled(unit, ExactCount(unit, seconds, micros)) == ExactCount(unit, seconds, micros)
  {
  }

  lemma TimestampIsFixed(rt: Runtime, t: DataType, v: Value)
    requires t.Timestamp? && !IsNothing(v) && NormalForm(rt, t, v).Ok?
    ensures Fixed(rt, t, NormalForm(rt, t, v).value)
  {
    if v.QDate? {
      var exact := ExactCount(t.unit, EpochSeconds(rt, v.date), Microsecond(rt, v.date));
      NarrowIsCongruent(W64, true, exact);
      var count := Int64(exact);
      TimestampReadThenWrite(rt, t.unit, t.timezone, count);
      SettledReadsSame(t.unit, count);
      hide ExactCount, Settled, SecondsOf, MicrosOf, MakeAbsolute, NoOverflow;
    }
  }

  /** Dropping the nanoseconds below a microsecond does not change the date that is read. */
  lemma SettledReadsSame(unit: TimeUnit, count: int)
    ensures SecondsOf(unit, Settled(unit, count)) == SecondsOf(unit, count)
    ensures MicrosOf(unit, Settled(unit, count)) == MicrosOf(unit, count)
  {
    if unit == Nano {
      var q := TDiv(count, 1000000000);
      var r := TMod(count, 1000000000);
      assert count == 1000000000 * q + r && -1000000000 < r < 1000000000;
      var m := TDiv(r, 1000);
      assert TDiv(count, 1000) == 1000000 * q + m;
      var s := Settled(unit, count);
      assert s == 1000000000 * q + 1000 * m;
      assert -1000000000 < 1000 * m < 1000000000;
      assert TDiv(s, 1000000000) == q;
    }
  }

  lemma {:induction false} ItemsAreFixed(rt: Runtime, t: DataType, vs: seq<Value>)
    requires Stable(rt, t) && NormalItems(rt, t, vs).Ok?
    requires forall i :: 0 <= i < |vs| ==> Accepts(rt, t, vs[i]) && Regular(rt, t, vs[i])
    ensures var ws := NormalItems(rt, t, vs).value;
      && |ws| == |vs| && (forall i :: 0 <= i < |ws| ==> Accepts(rt, t, ws[i]))
      && NormalItems(rt, t, ws) == Ok(ws)
    decreases t, 3, |vs|
  {
    hide NormalForm, Accepts, Stable, Regular, NormalItems;
    if vs != [] {
      NormalItemsAt(rt, t, vs, 0);
      var ws := NormalItems(rt, t, vs).value;
      forall i | 0 <= i < |vs|
        ensures Accepts(rt, t, ws[i]) && NormalForm(rt, t, ws[i]) == Ok(ws[i])
      {
        NormalItemsAt(rt, t, vs, i);
        ReadBackIsFixed(rt, t, vs[i]);
      }
      NormalItemsOf(rt, t, ws, |ws|);
      assert ws[..|ws|] == ws;
    } else {
      assert NormalItems(rt, t, vs) == Ok(vs) by { NormalItemsOf(rt, t, vs, 0); }
    }
  }

  lemma ListIsFixed(rt: Runtime, t: DataType, v: Value)
    requires IsList(t) && v.QList? && Accepts(rt, t, v) && NormalItems(rt, t.child.typ, v.items).Ok?
    requires var ws := NormalItems(rt, t.child.typ, v.items).value;
      && |ws| == |v.items| && (forall i :: 0 <= i < |ws| ==> Accepts(rt, t.child.typ, ws[i]))
      && NormalItems(rt, t.child.typ, ws) == Ok(ws)
    ensures NormalForm(rt, t, v).Ok? && Fixed(rt, t, NormalForm(rt, t, v).value)
  {
    hide NormalItems;
  }

  lemma {:induction false} StructIsFixed(rt: Runtime, t: DataType, h: seq<Entry>)
    requires t.Struct? && Stable(rt, t) && Accepts(rt, t, QHash(h)) && Regular(rt, t, QHash(h))
    requires NormalFields(rt, t, h, |t.fields|).Ok?
    ensures Fixed(rt, t, QHash(NormalFields(rt, t, h, |t.fields|).value))
    decreases t, 1, 0
  {
    hide FieldValue, NormalForm;
    var n := NormalFields(rt, t, h, |t.fields|).value;
    StructProjection(rt, t, h, |t.fields|);
    forall k | 0 <= k < |t.fields|
      ensures FieldValue(t, n, k) == n[k].value && Fixed(rt, t.fields[k].typ, n[k].value)
    {
      hide NormalFields, Fixed;
      FieldValueAt(t, n, k);
      ReadBackIsFixed(rt, t.fields[k].typ, FieldValue(t, h, k));
    }
    hide Stable, Accepts, Regular;
    FieldsRebuilt(rt, t, n, |t.fields|);
    StructOfFixed(rt, t, n);
  }

  lemma FieldValueAt(t: DataType, n: seq<Entry>, k: nat)
    requires t.Struct? && HashNames(t.fields) && |n| == |t.fields| && k < |n|
    requires forall j :: 0 <= j < |n| ==> n[j].key == t.fields[j].name
    ensures FieldValue(t, n, k) == n[k].value
  {
    CStrWithoutNul(t.fields[k].name);
    GetKeyAt(n, k);
  }

  lemma StructOfFixed(rt: Runtime, t: DataType, n: seq<Entry>)
    requires t.Struct? && |n| == |t.fields| && NormalFields(rt, t, n, |n|) == Ok(n[..|n|])
    requires forall j :: 0 <= j < |n| ==> FieldValue(t, n, j) == n[j].value && Fixed(rt, t.fields[j].typ, n[j].value)
    ensures Fixed(rt, t, QHash(n))
  {
    hide NormalFields, FieldValue, Fixed, Accepts, NormalForm;
    assert n[..|n|] == n;
    forall j | 0 <= j < |n|
      ensures Accepts(rt, t.fields[j].typ, FieldValue(t, n, j))
    {
      FixedIsAccepted(rt, t.fields[j].typ, n[j].value);
    }
    StructAccepts(rt, t, n);
    StructForm(rt, t, n);
    FixedFrom(rt, t, QHash(n));
  }

  lemma FixedIsAccepted(rt: Runtime, t: DataType, v: Value)
    requires Fixed(rt, t, v)
    ensures Accepts(rt, t, v)
  {
  }

  lemma StructForm(rt: Runtime, t: DataType, n: seq<Entry>)
    requires t.Struct? && NormalFields(rt, t, n, |t.fields|) == Ok(n)
    ensures NormalForm(rt, t, QHash(n)) == Ok(QHash(n))
  {
    hide NormalFields;
  }

  lemma StructAccepts(rt: Runtime, t: DataType, n: seq<Entry>)
    requires t.Struct? && forall j :: 0 <= j < |t.fields| ==> Accepts(rt, t.fields[j].typ, FieldValue(t, n, j))
    ensures Accepts(rt, t, QHash(n))
  {
    hide FieldValue, Encode;
  }

  lemma FixedFrom(rt: Runtime, t: DataType, v: Value)
    requires Accepts(rt, t, v) && NormalForm(rt, t, v) == Ok(v)
    ensures Fixed(rt, t, v)
  {
    hide Accepts, NormalForm;
  }

  lemma {:induction false} GetKeyAt(h: seq<Entry>, k: nat)
    requires k < |h| && forall i :: 0 <= i < k ==> h[i].key != h[k].key
    ensures GetKey(h, h[k].key) == h[k].value
  {
    if k > 0 {
      assert h[0].key != h[k].key;
      GetKeyAt(h[1..], k - 1);
    }
  }

  lemma {:induction false} FieldsRebuilt(rt: Runtime, t: DataType, n: seq<Entry>, k: nat)
    requires t.Struct? && DistinctNames(t.fields) && |n| == |t.fields| && k <= |n|
    requires forall j :: 0 <= j < |n| ==> n[j].key == t.fields[j].name
    requires forall j :: 0 <= j < |n| ==> FieldValue(t, n, j) == n[j].value && Fixed(rt, t.fields[j].typ, n[j].value)
    ensures NormalFields(rt, t, n, k) == Ok(n[..k])
  {
    hide NormalForm, FieldValue, Accepts;
    if k > 0 {
      FieldsRebuilt(rt, t, n, k - 1);
      assert !HasKey(n[..k - 1], n[k - 1].key);
      SetKeyPlaces(n[..k - 1], n[k - 1].key, n[k - 1].value);
      assert n[..k] == n[..k - 1] + [n[k - 1]];
    }
  }

  predicate FixedEntry(rt: Runtime, t: DataType, e: Entry)
    requires t.Map?
  {
    CStr(e.key) == e.key && Fixed(rt, t.item.typ, e.value)
  }

  lemma {:induction false} EntriesAreFixed(rt: Runtime, t: DataType, h: seq<Entry>)
    requires t.Map? && Stable(rt, t) && NormalEntries(rt, t, h).Ok?
    requires forall i :: 0 <= i < |h| ==> AcceptsEntry(rt, t, h[i]) && Regular(rt, t.item.typ, h[i].value)
    ensures var n := NormalEntries(rt, t, h).value;
      UniqueKeys(n) && forall i :: 0 <= i < |n| ==> FixedEntry(rt, t, n[i])
    decreases t, 1, |h|
  {
    hide NormalForm, Accepts, CStr, Stable, Regular;
    if h != [] {
      var m := |h| - 1;
      assert AcceptsEntry(rt, t, h[m]);
      StableParts(rt, t);
      assert forall i :: 0 <= i < m ==> h[..m][i] == h[i];
      EntriesAreFixed(rt, t, h[..m]);
      ReadBackIsFixed(rt, t.item.typ, h[m].value);
      KeyForm(rt, t.key.typ, h[m].key);
      var key := CStr(h[m].key);
      CStrWithoutNul(h[m].key);
      CStrWithoutNul(key);
      var before := NormalEntries(rt, t, h[..m]).value;
      var v := NormalForm(rt, t.item.typ, h[m].value).value;
      assert NormalEntries(rt, t, h).value == SetKey(before, key, v);
      SetKeyKeepsFixed(rt, t, before, key, v);
    }
  }

  lemma {:induction false} SetKeyKeepsFixed(rt: Runtime, t: DataType, n: seq<Entry>, key: string, v: Value)
    requires t.Map? && UniqueKeys(n) && forall i :: 0 <= i < |n| ==> FixedEntry(rt, t, n[i])
    requires FixedEntry(rt, t, Entry(key, v))
    ensures UniqueKeys(SetKey(n, key, v))
    ensures forall i :: 0 <= i < |SetKey(n, key, v)| ==> FixedEntry(rt, t, SetKey(n, key, v)[i])
  {
    SetKeyKeepsUnique(n, key, v);
    hide FixedEntry;
    SetKeyEntries(n, key, v);
  }

  lemma {:induction false} SetKeyEntries(n: seq<Entry>, key: string, v: Value)
    ensures forall i :: 0 <= i < |SetKey(n, key, v)| ==> SetKey(n, key, v)[i] == Entry(key, v) || SetKey(n, key, v)[i] in n
  {
    if n != [] && n[0].key != key {
      SetKeyEntries(n[1..], key, v);
      assert forall e :: e in n[1..] ==> e in n;
    }
  }

  lemma EntryRebuilt(rt: Runtime, t: DataType, n: seq<Entry>, m: nat)
    requires t.Map? && (t.key.typ.Utf8? || t.key.typ.LargeUtf8?)
    requires m < |n| && UniqueKeys(n) && FixedEntry(rt, t, n[m])
    requires NormalEntries(rt, t, n[..m]) == Ok(n[..m])
    ensures NormalEntries(rt, t, n[..m + 1]) == Ok(n[..m + 1])
    ensures AcceptsEntry(rt, t, n[m])
  {
    hide NormalForm, Accepts, CStr, SetKey, FixedEntry, AcceptsEntry;
    var e := n[m];
    EntryForm(rt, t, e);
    assert !HasKey(n[..m], e.key);
    SetKeyPlaces(n[..m], e.key, e.value);
    assert n[..m + 1] == n[..m] + [e];
    assert n[..m + 1][..m] == n[..m];
  }

  lemma EntryForm(rt: Runtime, t: DataType, e: Entry)
    requires t.Map? && (t.key.typ.Utf8? || t.key.typ.LargeUtf8?) && FixedEntry(rt, t, e)
    ensures CStr(e.key) == e.key && AcceptsEntry(rt, t, e)
    ensures NormalForm(rt, t.key.typ, QString(CStr(e.key))) == Ok(QString(e.key))
    ensures NormalForm(rt, t.item.typ, e.value) == Ok(e.value)
  {
    KeyForm(rt, t.key.typ, e.key);
    hide NormalForm, Accepts, CStr;
  }

  lemma {:induction false} EntriesRebuilt(rt: Runtime, t: DataType, n: seq<Entry>, m: nat)
    requires t.Map? && (t.key.typ.Utf8? || t.key.typ.LargeUtf8?)
    requires m <= |n| && UniqueKeys(n) && forall i :: 0 <= i < |n| ==> FixedEntry(rt, t, n[i])
    ensures NormalEntries(rt, t, n[..m]) == Ok(n[..m])
    ensures forall i :: 0 <= i < m ==> AcceptsEntry(rt, t, n[i])
  {
    hide FixedEntry, AcceptsEntry, UniqueKeys, NormalEntries;
    if m == 0 {
      assert n[..0] == [];
      NoEntries(rt, t);
    } else {
      EntriesRebuilt(rt, t, n, m - 1);
      EntryRebuilt(rt, t, n, m - 1);
    }
  }

  lemma NoEntries(rt: Runtime, t: DataType)
    requires t.Map?
    ensures NormalEntries(rt, t, []) == Ok([])
  {
  }

  lemma MapIsFixed(rt: Runtime, t: DataType, n: seq<Entry>)
    requires t.Map? && (t.key.typ.Utf8? || t.key.typ.LargeUtf8?)
    requires UniqueKeys(n) && forall i :: 0 <= i < |n| ==> FixedEntry(rt, t, n[i])
    ensures Fixed(rt, t, QHash(n))
  {
    EntriesRebuilt(rt, t, n, |n|);
    assert n[..|n|] == n;
    hide AcceptsEntry, NormalEntries, FixedEntry;
  }
}
