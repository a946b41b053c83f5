/** Which types go through the Arrow C Data Interface: the two support predicates, and what links them. */
module InterchangeTypes {
  import opened Wrappers
  import opened ArrowTypes
  import opened TypeNames
  import opened ColumnarTypes
  import opened CanonicalTypes

  /** arrowTypeSupportsQoreCDataImport. */
  predicate SupportsImport(t: DataType)
    decreases t
  {
    match t
    case Boolean => true
    case Integer(_, signed) => signed
    case Float => true
    case Double => true
    case Utf8 => true
    case LargeUtf8 => true
    case Decimal128(_, _) => true
    case Timestamp(_, _) => MicrosecondTemporal(t)
    case Duration(_) => MicrosecondTemporal(t)
    case List(child) => SupportsImport(child.typ)
    case LargeList(child) => SupportsImport(child.typ)
    case Struct(fields) => forall k :: 0 <= k < |fields| ==> SupportsImport(fields[k].typ)
    case _ => false
  }

  /** bufferTypeSupportsQoreCDataExport. */
  predicate ElementExports(e: Element) {
    e != Invalid && e != OtherElement
  }

  /** columnarDescriptorSupportsQoreCDataExport; `data` is the element type of the column's own buffer, if it has one. */
  predicate SupportsExport(d: Descriptor, data: Element)
    decreases d
  {
    var buffer := if d.buffer != Invalid then d.buffer else data;
    if d.kind == DateKind || d.kind == TimestampKind || d.kind == DurationKind then buffer == Invalid || buffer == Int64
    else if buffer != Invalid then ElementExports(buffer)
    else
      match d.kind
      case BoolKind => true
      case IntKind => true
      case FloatKind => true
      case StringKind => true
      case DecimalKind => true
      case ListKind => |d.children| == 1 && SupportsExport(d.children[0], Invalid)
      case LargeListKind => |d.children| == 1 && SupportsExport(d.children[0], Invalid)
      case StructKind => forall k :: 0 <= k < |d.children| ==> SupportsExport(d.children[k], Invalid)
      case _ => false
  }

  /** The Arrow types whose descriptors can be exported. */
  predicate Exportable(t: DataType)
    decreases t
  {
    match t
    case NullType => false
    case Binary => false
    case LargeBinary => false
    case FixedSizeBinary(_) => false
    case Decimal256(_, _) => false
    case FixedSizeList(_, _) => false
    case Map(_, _) => false
    case Dictionary(_, _) => false
    case Union(_, _, _, _) => false
    case List(child) => Exportable(child.typ)
    case LargeList(child) => Exportable(child.typ)
    case Struct(fields) => forall k :: 0 <= k < |fields| ==> Exportable(fields[k].typ)
    case _ => true
  }

  predicate Dated(t: DataType) {
    t.Date32? || t.Date64? || t.Time32? || t.Time64? || t.Timestamp? || t.Duration?
  }

  /** The same with the element type of the column's own buffer: a date goes with no buffer or a 64-bit one, and a buffer
      decides for every other type that names no element type itself, lists and maps included. */
  predicate ExportableWith(t: DataType, data: Element) {
    if Dated(t) then ElementOf(t) == Int64 || data == Invalid || data == Int64
    else if ElementOf(t) != Invalid then true
    else if data != Invalid then ElementExports(data)
    else Exportable(t)
  }

  /** A descriptor made from a type can be exported exactly for the exportable types, whatever buffer its column has. */
  lemma ExportExactly(name: string, t: DataType, nullable: bool, data: Element)
    ensures SupportsExport(Describe(name, t, nullable), data) <==> ExportableWith(t, data)
    ensures ExportableWith(t, Invalid) <==> Exportable(t)
  {
    NoBuffer(t);
    hide Describe, Exportable;
    ListExportExactly(name, t, nullable);
    if data != Invalid {
      WithBuffer(name, t, nullable, data);
    }
  }

  lemma NoBuffer(t: DataType)
    ensures ExportableWith(t, Invalid) <==> Exportable(t)
  {
  }

  lemma WithBuffer(name: string, t: DataType, nullable: bool, data: Element)
    requires data != Invalid
    ensures SupportsExport(Describe(name, t, nullable), data) <==> ExportableWith(t, data)
  {
    hide Describe, Exportable;
    DescribedKind(name, t, nullable);
  }

  /** The part of the first switch that the support predicate looks at. */
  function KindOf(t: DataType): Kind {
    match t
    case Boolean => BoolKind
    case Integer(_, _) => IntKind
    case HalfFloat => FloatKind
    case Float => FloatKind
    case Double => FloatKind
    case Utf8 => StringKind
    case LargeUtf8 => StringKind
    case Binary => BinaryKind
    case LargeBinary => BinaryKind
    case FixedSizeBinary(_) => BinaryKind
    case Date32 => DateKind
    case Date64 => DateKind
    case Time32(_) => DateKind
    case Time64(_) => DateKind
    case Timestamp(_, _) => TimestampKind
    case Duration(_) => DurationKind
    case Decimal128(_, _) => DecimalKind
    case Decimal256(_, _) => NumberKind
    case List(_) => ListKind
    case LargeList(_) => LargeListKind
    case FixedSizeList(_, _) => FixedSizeListKind
    case Struct(_) => StructKind
    case Map(_, _) => MapKind
    case Dictionary(_, _) => DictionaryKind
    case _ => AutoKind
  }

  lemma DescribedKind(name: string, t: DataType, nullable: bool)
    ensures var d := Describe(name, t, nullable); d.kind == KindOf(t) && d.buffer == ElementOf(t)
  {
    hide TypeName, DescribeChildren, UnitName, ElementOf;
  }

  /** A column that is a list. */
  lemma {:induction false} ListExportExactly(name: string, t: DataType, nullable: bool)
    ensures SupportsExport(Describe(name, t, nullable), Invalid) <==> Exportable(t)
    decreases t, 1
  {
    hide *;
    if t.Struct? {
      forall k | 0 <= k < |t.fields|
        ensures var f := t.fields[k]; SupportsExport(Describe(f.name, f.typ, f.nullable), Invalid) <==> Exportable(f.typ)
      {
        ListExportExactly(t.fields[k].name, t.fields[k].typ, t.fields[k].nullable);
      }
      StructExports(name, t, nullable);
    } else if t.List? || t.LargeList? {
      var c := t.child;
      ListExportExactly(c.name, c.typ, c.nullable);
      ListExports(name, t, nullable);
    } else {
      LeafExports(name, t, nullable);
    }
  }

  lemma LeafExports(name: string, t: DataType, nullable: bool)
    requires !t.Struct? && !t.List? && !t.LargeList?
    ensures SupportsExport(Describe(name, t, nullable), Invalid) <==> Exportable(t)
  {
    hide Describe;
    DescribedKind(name, t, nullable);
  }

  lemma ListExports(name: string, t: DataType, nullable: bool)
    requires t.List? || t.LargeList?
    requires var c := t.child; SupportsExport(Describe(c.name, c.typ, c.nullable), Invalid) <==> Exportable(c.typ)
    ensures SupportsExport(Describe(name, t, nullable), Invalid) <==> Exportable(t)
  {
    hide Describe, DescribeChildren, ToArrow, ByKind;
    NestedKind(name, t, nullable);
    NestedChildren(t);
  }

  lemma StructExports(name: string, t: DataType, nullable: bool)
    requires t.Struct?
    requires forall k :: 0 <= k < |t.fields| ==>
      var f := t.fields[k]; SupportsExport(Describe(f.name, f.typ, f.nullable), Invalid) <==> Exportable(f.typ)
    ensures SupportsExport(Describe(name, t, nullable), Invalid) <==> Exportable(t)
  {
    hide Describe, ToArrow, ByKind;
    NestedKind(name, t, nullable);
    var d := Describe(name, t, nullable);
    assert forall k :: 0 <= k < |t.fields| ==>
      d.children[k] == Describe(t.fields[k].name, t.fields[k].typ, t.fields[k].nullable);
  }

  // Import

  /** Every temporal type becomes a microsecond one, or is one already. */
  predicate Micros(t: DataType)
    decreases t
  {
    match t
    case Timestamp(unit, _) => unit == Micro
    case Duration(unit) => unit == Micro
    case Time32(_) => false
    case Time64(nanos) => !nanos
    case List(child) => Micros(child.typ)
    case LargeList(child) => Micros(child.typ)
    case Struct(fields) => forall k :: 0 <= k < |fields| ==> Micros(fields[k].typ)
    case _ => true
  }

  /** The type with its large strings made strings, its child fields stripped of metadata and given a name. */
  function Narrowed(t: DataType): DataType
    decreases t
  {
    match t
    case LargeUtf8 => Utf8
    case List(child) => List(NarrowedField(child))
    case LargeList(child) => LargeList(NarrowedField(child))
    case Struct(fields) => Struct(seq(|fields|, k requires 0 <= k < |fields| => NarrowedField(fields[k])))
    case _ => t
  }

  function NarrowedField(f: Field): Field
    decreases f
  {
    Field(if f.name == "" then "item" else f.name, Narrowed(f.typ), f.nullable, None)
  }

  /** The importable types are the exportable ones that a descriptor narrows only in their strings, and whose temporal
      types count microseconds. */
  lemma {:induction false} ImportExactly(t: DataType)
    requires Constructible(t)
    ensures SupportsImport(t) <==> Exportable(t) && Micros(t) && Canon(t) == Narrowed(t)
    decreases t
  {
    if t.List? || t.LargeList? {
      ImportExactly(t.child.typ);
    } else if t.Struct? {
      forall k | 0 <= k < |t.fields|
        ensures var f := t.fields[k].typ; SupportsImport(f) <==> Exportable(f) && Micros(f) && Canon(f) == Narrowed(f)
      {
        ImportExactly(t.fields[k].typ);
      }
      StructNarrowed(t);
    }
  }

  lemma StructNarrowed(t: DataType)
    requires t.Struct?
    ensures Canon(t) == Narrowed(t)
      <==> forall k :: 0 <= k < |t.fields| ==> Canon(t.fields[k].typ) == Narrowed(t.fields[k].typ)
  {
    hide Canon, Narrowed;
    StructCanon(t);
    NarrowedParts(t);
    if Canon(t) == Narrowed(t) {
      forall k | 0 <= k < |t.fields|
        ensures Canon(t.fields[k].typ) == Narrowed(t.fields[k].typ)
      {
        assert Canon(t).fields[k] == Narrowed(t).fields[k];
      }
    } else {
      assert Canon(t).fields != Narrowed(t).fields;
    }
  }

  lemma NarrowedParts(t: DataType)
    requires t.Struct?
    ensures Narrowed(t) == Struct(seq(|t.fields|, k requires 0 <= k < |t.fields| => NarrowedField(t.fields[k])))
  {
  }

  /** What is exported can be imported back under its canonical type exactly when its temporal types count microseconds. */
  lemma {:induction false} ExportThenImport(t: DataType)
    requires Exportable(t)
    ensures SupportsImport(Canon(t)) <==> Micros(t)
    decreases t
  {
    if t.List? || t.LargeList? {
      ExportThenImport(t.child.typ);
    } else if t.Struct? {
      forall k | 0 <= k < |t.fields|
        ensures SupportsImport(Canon(t.fields[k].typ)) <==> Micros(t.fields[k].typ)
      {
        ExportThenImport(t.fields[k].typ);
      }
      StructImports(t);
    }
  }

  lemma StructImports(t: DataType)
    requires t.Struct?
    ensures SupportsImport(Canon(t)) <==> forall k :: 0 <= k < |t.fields| ==> SupportsImport(Canon(t.fields[k].typ))
  {
    hide Canon, SupportsImport;
    StructCanon(t);
    ImportParts(Canon(t));
    forall k | 0 <= k < |t.fields|
      ensures Canon(t).fields[k].typ == Canon(t.fields[k].typ)
    {
      FieldTyp(t.fields[k]);
    }
    if SupportsImport(Canon(t)) {
      forall k | 0 <= k < |t.fields|
        ensures SupportsImport(Canon(t.fields[k].typ))
      {
        assert SupportsImport(Canon(t).fields[k].typ);
      }
    }
  }

  lemma ImportParts(t: DataType)
    requires t.Struct?
    ensures SupportsImport(t) <==> forall k :: 0 <= k < |t.fields| ==> SupportsImport(t.fields[k].typ)
  {
  }

  /** A type accepted for import has a descriptor that converts back, and that is accepted for export unless the type
      names no element type and the column's buffer is one that is never exported. */
  lemma ImportImpliesExport(name: string, t: DataType, nullable: bool, data: Element)
    requires SupportsImport(t) && Constructible(t)
    ensures SupportsExport(Describe(name, t, nullable), data) <==> ElementOf(t) != Invalid || data != OtherElement
    ensures ToArrow(Describe(name, t, nullable)) == Ok(Narrowed(t))
  {
    hide *;
    ImportExactly(t);
    ExportExactly(name, t, nullable, data);
    ImportedElement(t, data);
    ExportableIsSized(t);
    DescriptorRoundTrip(name, t, nullable);
  }

  lemma ImportedElement(t: DataType, data: Element)
    requires SupportsImport(t) && Exportable(t)
    ensures ExportableWith(t, data) <==> ElementOf(t) != Invalid || data != OtherElement
  {
  }

  lemma {:induction false} ExportableIsSized(t: DataType)
    requires Exportable(t)
    ensures Sized(t)
    decreases t
  {
    if t.List? || t.LargeList? {
      ExportableIsSized(t.child.typ);
    } else if t.Struct? {
      forall k | 0 <= k < |t.fields|
        ensures Sized(t.fields[k].typ)
      {
        ExportableIsSized(t.fields[k].typ);
      }
    }
  }

  /** The converse fails: uint8 is exported but not imported. */
  lemma ExportWithoutImport()
    ensures var t := Integer(W8, false); SupportsExport(Describe("", t, true), Invalid) && !SupportsImport(t)
  {
    ExportExactly("", Integer(W8, false), true, Invalid);
  }
}
