/** What a trip through a ColumnarResult descriptor does to an Arrow type. */
module CanonicalTypes {
  import opened Wrappers
  import opened ArrowTypes
  import opened TypeNames
  import opened ColumnarTypes

  /** The type that comes back. */
  function Canon(t: DataType): (c: DataType)
    ensures !c.Dictionary? && !c.Union?
    decreases t
  {
    match t
    case Integer(width, signed) => if signed then t else Integer(W64, true)
    case HalfFloat => Double
    case LargeUtf8 => Utf8
    case LargeBinary => Binary
    case FixedSizeBinary(n) => if n > 0 then t else Binary
    case Date32 => Timestamp(Micro, "")
    case Date64 => Timestamp(Micro, "")
    case Time32(millis) => Timestamp(if millis then Milli else Second, "")
    case Time64(nanos) => Timestamp(if nanos then Nano else Micro, "")
    case Decimal128(precision, scale) => if precision > 0 then t else Decimal128(38, scale)
    case Decimal256(precision, scale) => if precision > 0 then Decimal128(precision, scale) else Decimal128(38, 10)
    case List(child) => List(CanonField(child))
    case LargeList(child) => LargeList(CanonField(child))
    case FixedSizeList(child, n) => FixedSizeList(CanonField(child), n)
    case Struct(fields) => Struct(seq(|fields|, k requires 0 <= k < |fields| => CanonField(fields[k])))
    case Map(key, item) => MapOf(Canon(key.typ), Canon(item.typ))
    case Dictionary(_, dictionary) => Canon(dictionary)
    case Union(_, _, _, _) => Utf8
    case NullType => Utf8
    case _ => t
  }

  function CanonField(f: Field): Field
    decreases f
  {
    Field(if f.name == "" then "item" else f.name, Canon(f.typ), f.nullable, None)
  }

  /** Every fixed-size list has a positive size, except those inside a union, which are never converted. */
  predicate Sized(t: DataType)
    decreases t
  {
    match t
    case List(child) => Sized(child.typ)
    case LargeList(child) => Sized(child.typ)
    case FixedSizeList(child, n) => n > 0 && Sized(child.typ)
    case Struct(fields) => forall k :: 0 <= k < |fields| ==> Sized(fields[k].typ)
    case Map(key, item) => Sized(key.typ) && Sized(item.typ)
    case Dictionary(_, dictionary) => Sized(dictionary)
    case _ => true
  }

  lemma UnitFromItsName(unit: TimeUnit)
    ensures UnitFromName(UnitName(unit)) == unit
    ensures UnitFromName("") == Micro
  {
  }

  /** The descriptor of a type converts back exactly when its fixed-size lists have a size, and gives the canonical type. */
  lemma {:induction false} DescriptorRoundTrip(name: string, t: DataType, nullable: bool)
    ensures ToArrow(Describe(name, t, nullable)).Ok? <==> Sized(t)
    ensures Sized(t) ==> ToArrow(Describe(name, t, nullable)).value == Canon(t)
    decreases t, 2
  {
    hide *;
    if t.Struct? || t.Map? || t.Dictionary? || t.List? || t.LargeList? || t.FixedSizeList? {
      NestedRoundTrip(name, t, nullable);
    } else {
      LeafRoundTrip(name, t, nullable);
    }
  }

  lemma LeafRoundTrip(name: string, t: DataType, nullable: bool)
    requires !t.Struct? && !t.Map? && !t.Dictionary? && !t.List? && !t.LargeList? && !t.FixedSizeList?
    ensures ToArrow(Describe(name, t, nullable)) == Ok(Canon(t)) && Sized(t)
  {
    hide DescribeChildren, Described, ToArrow, Canon;
    var d := Described(name, t, nullable).(children := DescribeChildren(t));
    if t.Boolean? || t.Integer? || t.HalfFloat? || t.Float? || t.Double? {
      NumberRoundTrip(name, t, nullable, d);
    } else if t.Timestamp? || t.Duration? {
      TimestampRoundTrip(name, t, nullable, d);
    } else if t.Date32? || t.Date64? || t.Time32? || t.Time64? || t.Decimal128? || t.Decimal256? {
      DateRoundTrip(name, t, nullable, d);
    } else {
      TextRoundTrip(name, t, nullable, d);
    }
  }

  lemma NumberRoundTrip(name: string, t: DataType, nullable: bool, d: Descriptor)
    requires t.Boolean? || t.Integer? || t.HalfFloat? || t.Float? || t.Double?
    requires d == Described(name, t, nullable).(children := d.children)
    ensures ToArrow(d) == Ok(Canon(t))
  {
    hide TypeName, FirstChild, ChildrenToFields, DescribeChildren, UnitName, UnitFromName;
  }

  lemma TextRoundTrip(name: string, t: DataType, nullable: bool, d: Descriptor)
    requires t.Utf8? || t.LargeUtf8? || t.Binary? || t.LargeBinary? || t.FixedSizeBinary? || t.NullType? || t.Union?
    requires d == Described(name, t, nullable).(children := d.children)
    ensures ToArrow(d) == Ok(Canon(t))
  {
    hide TypeName, FirstChild, ChildrenToFields, DescribeChildren, UnitName, UnitFromName;
  }

  lemma TimestampRoundTrip(name: string, t: DataType, nullable: bool, d: Descriptor)
    requires t.Timestamp? || t.Duration?
    requires d == Described(name, t, nullable).(children := d.children)
    ensures ToArrow(d) == Ok(Canon(t))
  {
    hide TypeName, FirstChild, ChildrenToFields, DescribeChildren, UnitName, UnitFromName;
    UnitFromItsName(t.unit);
  }

  lemma DateRoundTrip(name: string, t: DataType, nullable: bool, d: Descriptor)
    requires t.Date32? || t.Date64? || t.Time32? || t.Time64? || t.Decimal128? || t.Decimal256?
    requires d == Described(name, t, nullable).(children := d.children)
    ensures ToArrow(d) == Ok(Canon(t))
  {
    hide TypeName, FirstChild, ChildrenToFields, DescribeChildren, UnitName, UnitFromName;
    UnitFromItsName(Milli);
    UnitFromItsName(Second);
    UnitFromItsName(Nano);
    UnitFromItsName(Micro);
  }

  lemma NestedKind(name: string, t: DataType, nullable: bool)
    requires t.Struct? || t.Map? || t.Dictionary? || t.List? || t.LargeList? || t.FixedSizeList?
    ensures var d := Describe(name, t, nullable);
      && ToArrow(d) == ByKind(d)
      && d.children == DescribeChildren(t) && d.buffer == Invalid
      && (t.FixedSizeList? ==> d.fixedSize == t.listSize)
      && d.kind == (if t.Struct? then StructKind else if t.Map? then MapKind else if t.Dictionary? then DictionaryKind
                    else if t.List? then ListKind else if t.LargeList? then LargeListKind else FixedSizeListKind)
  {
    hide Described, DescribeChildren, ToArrow;
    NestedDescription(name, t, nullable);
    KindDecides(Describe(name, t, nullable));
  }

  lemma NestedDescription(name: string, t: DataType, nullable: bool)
    requires t.Struct? || t.Map? || t.Dictionary? || t.List? || t.LargeList? || t.FixedSizeList?
    ensures var d := Described(name, t, nullable);
      && d.buffer == Invalid && (t.FixedSizeList? ==> d.fixedSize == t.listSize)
      && d.kind == (if t.Struct? then StructKind else if t.Map? then MapKind else if t.Dictionary? then DictionaryKind
                    else if t.List? then ListKind else if t.LargeList? then LargeListKind else FixedSizeListKind)
  {
    hide TypeName;
  }

  /** A descriptor without a typed buffer that is not temporal is converted by its kind. */
  lemma KindDecides(d: Descriptor)
    requires d.buffer == Invalid
    requires d.kind != DateKind && d.kind != TimestampKind && d.kind != DurationKind
    ensures ToArrow(d) == ByKind(d)
  {
    hide ByKind;
  }

  lemma {:induction false} NestedRoundTrip(name: string, t: DataType, nullable: bool)
    requires t.Struct? || t.Map? || t.Dictionary? || t.List? || t.LargeList? || t.FixedSizeList?
    ensures ToArrow(Describe(name, t, nullable)).Ok? <==> Sized(t)
    ensures Sized(t) ==> ToArrow(Describe(name, t, nullable)).value == Canon(t)
    decreases t, 1
  {
    hide Describe, ToArrow, DescribeChildren, Canon, Sized;
    var d := Describe(name, t, nullable);
    NestedKind(name, t, nullable);
    NestedChildren(t);
    NestedCanon(t);
    NestedSized(t);
    if t.Struct? {
      StructRoundTrip(t);
    } else if t.Map? {
      DescriptorRoundTrip("key", t.key.typ, false);
      DescriptorRoundTrip("item", t.item.typ, true);
    } else if t.Dictionary? {
      DescriptorRoundTrip("dictionary", t.dictionary, true);
    } else {
      var c := t.child;
      DescriptorRoundTrip(c.name, c.typ, c.nullable);
      FieldRoundTrip(c);
    }
  }

  // The recursive definitions, one level down

  lemma NestedChildren(t: DataType)
    requires t.Struct? || t.Map? || t.Dictionary? || t.List? || t.LargeList? || t.FixedSizeList?
    ensures t.Struct? ==> |DescribeChildren(t)| == |t.fields|
    ensures t.Map? ==>
      DescribeChildren(t) == [Describe("key", t.key.typ, false), Describe("item", t.item.typ, true)]
    ensures t.Dictionary? ==> DescribeChildren(t) == [Describe("dictionary", t.dictionary, true)]
    ensures t.List? || t.LargeList? || t.FixedSizeList? ==>
      DescribeChildren(t) == [Describe(t.child.name, t.child.typ, t.child.nullable)]
  {
    hide Describe;
    if t.List? || t.LargeList? || t.FixedSizeList? {
      assert ChildFields(t) == [t.child];
    }
  }

  lemma NestedCanon(t: DataType)
    ensures t.Map? ==> Canon(t) == MapOf(Canon(t.key.typ), Canon(t.item.typ))
    ensures t.Dictionary? ==> Canon(t) == Canon(t.dictionary)
    ensures t.List? ==> Canon(t) == List(CanonField(t.child))
    ensures t.LargeList? ==> Canon(t) == LargeList(CanonField(t.child))
    ensures t.FixedSizeList? ==> Canon(t) == FixedSizeList(CanonField(t.child), t.listSize)
  {
    hide Canon, CanonField;
    if t.Map? {
      MapCanon(t);
    } else if t.Dictionary? {
      DictionaryCanon(t);
    } else if t.List? || t.LargeList? || t.FixedSizeList? {
      ListCanon(t);
    }
  }

  lemma MapCanon(t: DataType)
    requires t.Map?
    ensures Canon(t) == MapOf(Canon(t.key.typ), Canon(t.item.typ))
  {
  }

  lemma DictionaryCanon(t: DataType)
    requires t.Dictionary?
    ensures Canon(t) == Canon(t.dictionary)
  {
  }

  lemma ListCanon(t: DataType)
    requires t.List? || t.LargeList? || t.FixedSizeList?
    ensures var child := CanonField(t.child);
      Canon(t) == if t.List? then List(child) else if t.LargeList? then LargeList(child) else FixedSizeList(child, t.listSize)
  {
    hide CanonField;
  }

  lemma NestedSized(t: DataType)
    ensures t.Map? ==> Sized(t) == (Sized(t.key.typ) && Sized(t.item.typ))
    ensures t.Dictionary? ==> Sized(t) == Sized(t.dictionary)
    ensures t.List? || t.LargeList? ==> Sized(t) == Sized(t.child.typ)
    ensures t.FixedSizeList? ==> Sized(t) == (t.listSize > 0 && Sized(t.child.typ))
  {
  }

  lemma {:induction false} StructRoundTrip(t: DataType)
    requires t.Struct?
    ensures ChildrenToFields(DescribeChildren(t), |t.fields|).Ok? <==> Sized(t)
    ensures Sized(t) ==> Struct(ChildrenToFields(DescribeChildren(t), |t.fields|).value) == Canon(t)
    decreases t, 0
  {
    hide ToArrow, Describe, CanonField;
    var fs := t.fields;
    forall k | 0 <= k < |fs|
      ensures ToField(DescribeChildren(t)[k], "item").Ok? <==> Sized(fs[k].typ)
      ensures Sized(fs[k].typ) ==> ToField(DescribeChildren(t)[k], "item").value == CanonField(fs[k])
    {
      DescriptorRoundTrip(fs[k].name, fs[k].typ, fs[k].nullable);
      FieldRoundTrip(fs[k]);
    }
    FieldsRoundTrip(fs, DescribeChildren(t), |fs|);
  }

  lemma FieldRoundTrip(f: Field)
    requires ToArrow(Describe(f.name, f.typ, f.nullable)).Ok? <==> Sized(f.typ)
    requires Sized(f.typ) ==> ToArrow(Describe(f.name, f.typ, f.nullable)).value == Canon(f.typ)
    ensures ToField(Describe(f.name, f.typ, f.nullable), "item")
      == if Sized(f.typ) then Ok(CanonField(f)) else Err(ToArrow(Describe(f.name, f.typ, f.nullable)).error)
  {
    hide ToArrow, Canon, Sized, Describe;
    DescribedHeader(f.name, f.typ, f.nullable);
  }

  lemma DescribedHeader(name: string, t: DataType, nullable: bool)
    ensures Describe(name, t, nullable).name == name && Describe(name, t, nullable).nullable == nullable
  {
    hide TypeName, ElementOf, UnitName, DescribeChildren;
  }

  lemma {:induction false} FieldsRoundTrip(fs: seq<Field>, ds: seq<Descriptor>, n: nat)
    requires n <= |fs| == |ds|
    requires forall k :: 0 <= k < |fs| ==> (ToField(ds[k], "item").Ok? <==> Sized(fs[k].typ))
    requires forall k :: 0 <= k < |fs| && Sized(fs[k].typ) ==> ToField(ds[k], "item").value == CanonField(fs[k])
    ensures ChildrenToFields(ds, n).Ok? <==> forall k :: 0 <= k < n ==> Sized(fs[k].typ)
    ensures ChildrenToFields(ds, n).Ok? ==>
      ChildrenToFields(ds, n).value == seq(n, k requires 0 <= k < n => CanonField(fs[k]))
  {
    hide ToField, Sized, CanonField;
    if n > 0 {
      FieldsRoundTrip(fs, ds, n - 1);
    }
  }

  // Idempotence

  /** The types a descriptor gives back unchanged. */
  predicate Canonical(t: DataType)
    decreases t
  {
    match t
    case Boolean => true
    case Integer(_, signed) => signed
    case Float => true
    case Double => true
    case Utf8 => true
    case Binary => true
    case FixedSizeBinary(n) => n > 0
    case Timestamp(_, _) => true
    case Duration(_) => true
    case Decimal128(precision, _) => precision > 0
    case List(child) => CanonicalField(child)
    case LargeList(child) => CanonicalField(child)
    case FixedSizeList(child, n) => n > 0 && CanonicalField(child)
    case Struct(fields) => forall k :: 0 <= k < |fields| ==> CanonicalField(fields[k])
    case Map(key, item) => t == MapOf(key.typ, item.typ) && Canonical(key.typ) && Canonical(item.typ)
    case _ => false
  }

  predicate CanonicalField(f: Field)
    decreases f
  {
    f.name != "" && f.metadata == None && Canonical(f.typ)
  }

  lemma {:induction false} CanonIsCanonical(t: DataType)
    requires Sized(t)
    ensures Canonical(Canon(t)) && Sized(Canon(t))
    decreases t
  {
    if t.List? || t.LargeList? || t.FixedSizeList? {
      CanonIsCanonical(t.child.typ);
    } else if t.Struct? {
      forall k | 0 <= k < |t.fields|
        ensures CanonicalField(CanonField(t.fields[k])) && Sized(Canon(t.fields[k].typ))
      {
        CanonIsCanonical(t.fields[k].typ);
      }
      StructCanonical(t);
    } else if t.Map? {
      CanonIsCanonical(t.key.typ);
      CanonIsCanonical(t.item.typ);
    } else if t.Dictionary? {
      CanonIsCanonical(t.dictionary);
    }
  }

  lemma StructCanonical(t: DataType)
    requires t.Struct?
    requires forall k :: 0 <= k < |t.fields| ==> CanonicalField(CanonField(t.fields[k])) && Sized(Canon(t.fields[k].typ))
    ensures Canonical(Canon(t)) && Sized(Canon(t))
  {
    hide CanonicalField, Canonical, Canon, Sized, CanonField;
    StructCanon(t);
    StructParts(Canon(t));
    assert forall k :: 0 <= k < |t.fields| ==> Canon(t).fields[k] == CanonField(t.fields[k]);
    forall k | 0 <= k < |t.fields|
      ensures Canon(t).fields[k].typ == Canon(t.fields[k].typ)
    {
      FieldTyp(t.fields[k]);
    }
  }

  lemma FieldTyp(f: Field)
    ensures CanonField(f).typ == Canon(f.typ)
  {
  }

  lemma StructUnchanged(t: DataType)
    requires t.Struct?
    ensures Canon(t) == t <==> forall k :: 0 <= k < |t.fields| ==> CanonField(t.fields[k]) == t.fields[k]
  {
    hide Canon, CanonField;
    StructCanon(t);
    if Canon(t) == t {
      forall k | 0 <= k < |t.fields|
        ensures CanonField(t.fields[k]) == t.fields[k]
      {
        assert Canon(t).fields[k] == CanonField(t.fields[k]);
      }
    } else {
      assert Canon(t).fields != t.fields;
    }
  }

  /** The canonical types are exactly the sized ones that stay as they are. */
  lemma {:induction false} CanonicalExactly(t: DataType)
    ensures Canonical(t) <==> Sized(t) && Canon(t) == t
    decreases t
  {
    if t.List? || t.LargeList? || t.FixedSizeList? {
      hide CanonicalField, CanonField;
      CanonicalFieldExactly(t.child);
    } else if t.Struct? {
      hide *;
      forall k | 0 <= k < |t.fields|
        ensures CanonicalField(t.fields[k]) <==> Sized(t.fields[k].typ) && CanonField(t.fields[k]) == t.fields[k]
      {
        CanonicalFieldExactly(t.fields[k]);
      }
      StructUnchanged(t);
      StructParts(t);
    } else if t.Map? {
      CanonicalExactly(t.key.typ);
      CanonicalExactly(t.item.typ);
    }
  }

  lemma {:induction false} CanonicalFieldExactly(f: Field)
    ensures CanonicalField(f) <==> Sized(f.typ) && CanonField(f) == f
    decreases f
  {
    CanonicalExactly(f.typ);
  }

  /** A second trip through a descriptor changes nothing. */
  lemma CanonIsIdempotent(name: string, t: DataType, nullable: bool)
    requires Sized(t)
    ensures Canon(Canon(t)) == Canon(t)
    ensures ToArrow(Describe(name, Canon(t), nullable)) == Ok(Canon(t))
  {
    hide Canon, Sized, Canonical, ToArrow, Describe;
    CanonIsCanonical(t);
    CanonicalExactly(Canon(t));
    DescriptorRoundTrip(name, Canon(t), nullable);
  }

  /** A descriptor gives back the type it was made from exactly for the canonical types. */
  lemma UnchangedExactly(name: string, t: DataType, nullable: bool)
    ensures ToArrow(Describe(name, t, nullable)) == Ok(t) <==> Canonical(t)
  {
    hide Canon, Sized, Canonical, ToArrow, Describe;
    CanonicalExactly(t);
    DescriptorRoundTrip(name, t, nullable);
  }

  // Decimals that Arrow can construct

  /** The decimal precisions Arrow's type constructors admit, wherever a descriptor reaches. */
  predicate Constructible(t: DataType)
    decreases t
  {
    match t
    case Decimal128(precision, _) => 1 <= precision <= 38
    case Decimal256(precision, _) => 1 <= precision <= 76
    case List(child) => Constructible(child.typ)
    case LargeList(child) => Constructible(child.typ)
    case FixedSizeList(child, _) => Constructible(child.typ)
    case Struct(fields) => forall k :: 0 <= k < |fields| ==> Constructible(fields[k].typ)
    case Map(key, item) => Constructible(key.typ) && Constructible(item.typ)
    case Dictionary(_, dictionary) => Constructible(dictionary)
    case _ => true
  }

  predicate NarrowDecimals(t: DataType)
    decreases t
  {
    match t
    case Decimal256(precision, _) => precision <= 38
    case List(child) => NarrowDecimals(child.typ)
    case LargeList(child) => NarrowDecimals(child.typ)
    case FixedSizeList(child, _) => NarrowDecimals(child.typ)
    case Struct(fields) => forall k :: 0 <= k < |fields| ==> NarrowDecimals(fields[k].typ)
    case Map(key, item) => NarrowDecimals(key.typ) && NarrowDecimals(item.typ)
    case Dictionary(_, dictionary) => NarrowDecimals(dictionary)
    case _ => true
  }

  /** A decimal256 of more than 38 digits, and nothing else, makes a decimal128 that Arrow cannot construct. */
  lemma {:induction false} CanonConstructible(t: DataType)
    requires Constructible(t)
    ensures Constructible(Canon(t)) <==> NarrowDecimals(t)
    decreases t
  {
    hide CanonField;
    if t.List? || t.LargeList? || t.FixedSizeList? {
      CanonConstructible(t.child.typ);
      FieldTyp(t.child);
    } else if t.Struct? {
      forall k | 0 <= k < |t.fields|
        ensures Constructible(Canon(t.fields[k].typ)) <==> NarrowDecimals(t.fields[k].typ)
      {
        CanonConstructible(t.fields[k].typ);
      }
      StructConstructible(t);
    } else if t.Map? {
      CanonConstructible(t.key.typ);
      CanonConstructible(t.item.typ);
    } else if t.Dictionary? {
      CanonConstructible(t.dictionary);
    }
  }

  /** A decimal of 76 digits is described with its precision and converted back to a decimal128, which has no more than 38. */
  lemma WideDecimalIsNotConstructible(name: string, nullable: bool)
    ensures ToArrow(Describe(name, Decimal256(76, 20), nullable)) == Ok(Decimal128(76, 20))
    ensures Constructible(Decimal256(76, 20)) && !Constructible(Decimal128(76, 20))
  {
    hide ToArrow, Describe;
    DescriptorRoundTrip(name, Decimal256(76, 20), nullable);
  }

  lemma StructConstructible(t: DataType)
    requires t.Struct?
    ensures Constructible(Canon(t)) <==> forall k :: 0 <= k < |t.fields| ==> Constructible(Canon(t.fields[k].typ))
  {
    hide Canon, Constructible, CanonField;
    StructCanon(t);
    StructParts(Canon(t));
    forall k | 0 <= k < |t.fields|
      ensures Canon(t).fields[k].typ == Canon(t.fields[k].typ)
    {
      FieldTyp(t.fields[k]);
    }
    if Constructible(Canon(t)) {
      forall k | 0 <= k < |t.fields|
        ensures Constructible(Canon(t.fields[k].typ))
      {
        assert Constructible(Canon(t).fields[k].typ);
      }
    }
  }

  lemma StructCanon(t: DataType)
    requires t.Struct?
    ensures Canon(t) == Struct(seq(|t.fields|, k requires 0 <= k < |t.fields| => CanonField(t.fields[k])))
  {
  }

  lemma StructParts(t: DataType)
    requires t.Struct?
    ensures Constructible(t) <==> forall k :: 0 <= k < |t.fields| ==> Constructible(t.fields[k].typ)
    ensures Canonical(t) <==> forall k :: 0 <= k < |t.fields| ==> CanonicalField(t.fields[k])
    ensures Sized(t) <==> forall k :: 0 <= k < |t.fields| ==> Sized(t.fields[k].typ)
  {
  }
}
