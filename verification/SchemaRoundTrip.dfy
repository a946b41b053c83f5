/** A schema printed as hashes and read back: what comes back, and when. */
module SchemaRoundTrip {
  import opened Wrappers
  import opened ArrowTypes
  import opened QoreValues
  import opened DecimalText
  import opened TypeNames
  import opened SchemaInfo

  /** The types whose printed form can be read back: no dictionary or union outside a map, whose children are never
      read, and no time zone that a NUL cuts off before a ']'. */
  predicate Rebuildable(t: DataType)
    decreases t
  {
    match t
    case Timestamp(_, timezone) => ']' in CStr(timezone) || '\0' !in timezone
    case List(child) => Rebuildable(child.typ)
    case LargeList(child) => Rebuildable(child.typ)
    case FixedSizeList(child, _) => Rebuildable(child.typ)
    case Struct(fields) => forall k :: 0 <= k < |fields| ==> Rebuildable(fields[k].typ)
    case Dictionary(_, _) => false
    case Union(_, _, _, _) => false
    case _ => true
  }

  /** What comes back: every map becomes map(utf8, utf8), because it prints one child and rebuilding reads two;
      a time zone ends at a NUL or ']', and names and metadata texts end at a NUL. */
  function Rebuilt(t: DataType): DataType
    decreases t
  {
    match t
    case Timestamp(unit, timezone) => Timestamp(unit, CStr(timezone)[..Find(CStr(timezone), ']')])
    case List(child) => List(RebuiltField(child))
    case LargeList(child) => LargeList(RebuiltField(child))
    case FixedSizeList(child, listSize) => FixedSizeList(RebuiltField(child), listSize)
    case Struct(fields) => Struct(seq(|fields|, k requires 0 <= k < |fields| => RebuiltField(fields[k])))
    case Map(_, _) => MapOf(Utf8, Utf8)
    case _ => t
  }

  function RebuiltField(f: Field): Field
    decreases f
  {
    Field(CStr(f.name), Rebuilt(f.typ), f.nullable, if f.metadata.Some? then Some(RebuiltPairs(f.metadata.value)) else None)
  }

  /** Metadata as a hash keeps one pair per key: the first place and the last text of the key. */
  function RebuiltPairs(pairs: seq<Pair>): seq<Pair> {
    var h := MetadataHash(pairs);
    seq(|h|, i requires 0 <= i < |h| =>
      Pair(CStr(h[i].key), CStr(if h[i].value.QString? then h[i].value.text else "")))
  }

  lemma {:induction false} MetadataHashIsText(pairs: seq<Pair>)
    ensures forall i :: 0 <= i < |MetadataHash(pairs)| ==> MetadataHash(pairs)[i].value.QString?
  {
    if pairs != [] {
      var n := |pairs| - 1;
      MetadataHashIsText(pairs[..n]);
      SetText(MetadataHash(pairs[..n]), pairs[n].key, pairs[n].text);
    }
  }

  lemma {:induction false} SetText(h: seq<Entry>, key: string, text: string)
    requires forall i :: 0 <= i < |h| ==> h[i].value.QString?
    ensures forall i :: 0 <= i < |SetKey(h, key, QString(text))| ==> SetKey(h, key, QString(text))[i].value.QString?
  {
    if h != [] && h[0].key != key {
      SetText(h[1..], key, text);
    }
  }

  lemma MetadataRebuilt(rt: Runtime, pairs: seq<Pair>)
    ensures HashMetadata(rt, MetadataHash(pairs)) == RebuiltPairs(pairs)
  {
    MetadataHashIsText(pairs);
  }

  // The keys of a field hash

  lemma InfoKeys(f: Field, children: seq<Value>)
    ensures var h := InfoHash(f, children);
      && GetKey(h, "name") == QString(f.name)
      && GetKey(h, "type") == QString(TypeName(f.typ))
      && GetKey(h, "nullable") == QBool(f.nullable)
      && GetKey(h, "metadata") == (if f.metadata.Some? then QHash(MetadataHash(f.metadata.value)) else QNothing)
      && GetKey(h, "children") == (if children == [] then QNothing else QList(children))
  {
    InfoKey(f, children, "name");
    InfoKey(f, children, "type");
    InfoKey(f, children, "nullable");
    InfoKey(f, children, "metadata");
    InfoKey(f, children, "children");
  }

  lemma InfoKey(f: Field, children: seq<Value>, key: string)
    ensures GetKey(InfoHash(f, children), key)
      == if key == "children" && children != [] then QList(children)
         else if key == "metadata" && f.metadata.Some? then QHash(MetadataHash(f.metadata.value))
         else if key == "nullable" then QBool(f.nullable)
         else if key == "type" then QString(TypeName(f.typ))
         else if key == "name" then QString(f.name)
         else QNothing
  {
    hide GetKey, SetKey, TypeName, MetadataHash;
    var h0 := SetKey([], "name", QString(f.name));
    SetThenGet([], "name", QString(f.name), key);
    NoKey(key);
    var h1 := SetKey(h0, "type", QString(TypeName(f.typ)));
    SetThenGet(h0, "type", QString(TypeName(f.typ)), key);
    var h2 := SetKey(h1, "nullable", QBool(f.nullable));
    SetThenGet(h1, "nullable", QBool(f.nullable), key);
    var h3 := h2;
    if f.metadata.Some? {
      h3 := SetKey(h2, "metadata", QHash(MetadataHash(f.metadata.value)));
      SetThenGet(h2, "metadata", QHash(MetadataHash(f.metadata.value)), key);
    }
    if children != [] {
      SetThenGet(h3, "children", QList(children), key);
    }
  }

  lemma NoKey(key: string)
    ensures GetKey([], key) == QNothing
  {
  }

  // Printed type names behind a C string

  /** The type names that survive being printed, cut at a NUL and parsed. */
  predicate NameSurvives(t: DataType) {
    match t
    case Timestamp(_, timezone) => ']' in CStr(timezone) || '\0' !in timezone
    case Dictionary(_, _) => false
    case Union(_, _, _, _) => false
    case _ => true
  }

  /** What parsing then gives: the type without its children. */
  function Bare(t: DataType): DataType {
    if t.Timestamp? then Rebuilt(t)
    else if Skeleton(t).Some? then Skeleton(t).value
    else t
  }

  lemma {:induction false} CStrAfter(head: string, tail: string)
    requires '\0' !in head
    ensures CStr(head + tail) == head + CStr(tail)
  {
    if head == "" {
      assert head + tail == tail;
    } else {
      assert (head + tail)[1..] == head[1..] + tail;
      CStrAfter(head[1..], tail);
      assert head == [head[0]] + head[1..];
    }
  }

  lemma {:induction false} CStrCut(head: string, tail: string)
    requires '\0' in head
    ensures CStr(head + tail) == CStr(head)
  {
    if head[0] != '\0' {
      assert (head + tail)[1..] == head[1..] + tail;
      assert '\0' in head[1..];
      CStrCut(head[1..], tail);
    }
  }

  lemma NameWithoutNul(t: DataType)
    requires !t.Timestamp? && !t.Dictionary? && !t.Union?
    ensures '\0' !in TypeName(t)
  {
    hide TypeName;
    if t.Decimal128? || t.Decimal256? || t.FixedSizeBinary? || t.FixedSizeList? {
      NumberNameWithoutNul(t);
    } else {
      FixedNameWithoutNul(t);
    }
  }

  lemma FixedNameWithoutNul(t: DataType)
    requires !t.Timestamp? && !t.Dictionary? && !t.Union?
    requires !t.Decimal128? && !t.Decimal256? && !t.FixedSizeBinary? && !t.FixedSizeList?
    ensures '\0' !in TypeName(t)
  {
    hide IntText;
  }

  lemma NumberNameWithoutNul(t: DataType)
    requires t.Decimal128? || t.Decimal256? || t.FixedSizeBinary? || t.FixedSizeList?
    ensures '\0' !in TypeName(t)
  {
    hide IntText;
    if t.Decimal128? || t.Decimal256? {
      IntTextCharacters(t.precision, '\0');
      IntTextCharacters(t.scale, '\0');
    } else {
      IntTextCharacters(if t.FixedSizeBinary? then t.byteWidth else t.listSize, '\0');
    }
  }

  lemma CutNameParses(t: DataType)
    ensures ParseTypeName(CStr(TypeName(t))).Ok? <==> NameSurvives(t)
    ensures NameSurvives(t) ==> ParseTypeName(CStr(TypeName(t))).value == Bare(t)
  {
    hide ParseTypeName, TypeName;
    if t.Timestamp? {
      CutTimestamp(t.unit, t.timezone);
    } else if t.Dictionary? || t.Union? {
      CutUnknown(t);
    } else {
      NameWithoutNul(t);
      CStrWithoutNul(TypeName(t));
      ParseInvertsName(t);
    }
  }

  lemma CutUnknown(t: DataType)
    requires t.Dictionary? || t.Union?
    ensures ParseTypeName(CStr(TypeName(t))).Err?
  {
    hide ParseTypeName, CStr, TypeName;
    if t.Dictionary? {
      DictionaryName(t);
      CutUnknownName("dictionary[", TypeName(t.index) + ", " + TypeName(t.dictionary) + "]");
    } else {
      UnionName(t);
      CutUnknownName(if t.sparse then "sparse_union<" else "dense_union<", t.detail);
    }
  }

  lemma CutUnknownName(head: string, tail: string)
    requires head == "dictionary[" || head == "sparse_union<" || head == "dense_union<"
    ensures ParseTypeName(CStr(head + tail)).Err?
  {
    hide ParseTypeName, CStr;
    CStrAfter(head, tail);
    assert head <= head + CStr(tail);
    UnknownBranch(head + CStr(tail));
  }

  lemma CutTimestamp(unit: TimeUnit, timezone: string)
    ensures var p := ParseTypeName(CStr(TypeName(Timestamp(unit, timezone))));
      if NameSurvives(Timestamp(unit, timezone)) then p == Ok(Rebuilt(Timestamp(unit, timezone))) else p.Err?
  {
    hide ParseTypeName, CStr, TypeName;
    CStrWithoutNul(timezone);
    if '\0' !in timezone {
      TimestampWithoutNul(unit, timezone);
      CStrWithoutNul(TypeName(Timestamp(unit, timezone)));
      TimestampName(unit, timezone);
    } else {
      CutZone(unit, timezone);
      ParseZonedTimestamp(unit, CStr(timezone));
    }
  }

  lemma TimestampWithoutNul(unit: TimeUnit, timezone: string)
    requires '\0' !in timezone
    ensures '\0' !in TypeName(Timestamp(unit, timezone))
  {
  }

  lemma CutZone(unit: TimeUnit, timezone: string)
    requires '\0' in timezone
    ensures CStr(TypeName(Timestamp(unit, timezone))) == "timestamp[" + UnitName(unit) + ", tz=" + CStr(timezone)
  {
    hide CStr;
    var head := "timestamp[" + UnitName(unit) + ", tz=";
    assert TypeName(Timestamp(unit, timezone)) == head + (timezone + "]");
    CStrAfter(head, timezone + "]");
    CStrCut(timezone, "]");
  }

  // Rebuilding

  /** Rebuilding a printed field succeeds exactly for the rebuildable types, and gives the rebuilt field. */
  lemma {:induction false} FieldRebuilds(rt: Runtime, f: Field)
    ensures HashField(rt, FieldInfo(f)).Ok? <==> Rebuildable(f.typ)
    ensures Rebuildable(f.typ) ==> HashField(rt, FieldInfo(f)).value == RebuiltField(f)
    decreases f
  {
    hide ParseTypeName, TypeName, CStr, WithChildren, Rebuilt, Bare, ChildInfos, HashField, Rebuildable, NameSurvives;
    ReadInfo(rt, f, ChildInfos(f.typ));
    CutNameParses(f.typ);
    RebuildableName(f.typ);
    if NameSurvives(f.typ) {
      ChildrenRebuild(rt, f.typ);
    }
  }

  /** Reading a printed field: its name, nullability and metadata always come back; the type is the parsed name with
      the children. */
  lemma ReadInfo(rt: Runtime, f: Field, children: seq<Value>)
    ensures var parsed := ParseTypeName(CStr(TypeName(f.typ)));
      HashField(rt, QHash(InfoHash(f, children)))
      == if parsed.Err? then Err(parsed.error)
         else
           var typ := WithChildren(rt, parsed.value, children);
           if typ.Err? then Err(typ.error)
           else Ok(Field(CStr(f.name), typ.value, f.nullable,
                         if f.metadata.Some? then Some(RebuiltPairs(f.metadata.value)) else None))
  {
    hide ParseTypeName, TypeName, CStr, InfoHash, WithChildren, MetadataHash, GetKey, RebuiltPairs, HashMetadata;
    InfoKeys(f, children);
    if f.metadata.Some? {
      MetadataRebuilt(rt, f.metadata.value);
    }
    var parsed := ParseTypeName(CStr(TypeName(f.typ)));
    if parsed.Ok? {
      NoChildren(rt, parsed.value);
    }
  }

  lemma NoChildren(rt: Runtime, parsed: DataType)
    ensures WithChildren(rt, parsed, []) == Ok(parsed)
  {
  }

  lemma RebuildableName(t: DataType)
    ensures Rebuildable(t) ==> NameSurvives(t)
  {
  }

  lemma {:induction false} ChildrenRebuild(rt: Runtime, t: DataType)
    requires NameSurvives(t)
    ensures WithChildren(rt, Bare(t), ChildInfos(t)).Ok? <==> Rebuildable(t)
    ensures Rebuildable(t) ==> WithChildren(rt, Bare(t), ChildInfos(t)).value == Rebuilt(t)
    decreases t
  {
    hide HashField, FieldInfo, InfoHash;
    if t.Struct? {
      StructRebuilds(rt, t);
    } else if t.List? || t.LargeList? || t.FixedSizeList? {
      FieldRebuilds(rt, t.child);
      assert ChildInfos(t) == [FieldInfo(t.child)];
    } else if t.Map? {
      assert |ChildInfos(t)| == 1;
    } else {
      assert ChildInfos(t) == [];
    }
  }

  lemma {:induction false} StructRebuilds(rt: Runtime, t: DataType)
    requires t.Struct?
    ensures WithChildren(rt, Struct([]), ChildInfos(t)).Ok? <==> Rebuildable(t)
    ensures Rebuildable(t) ==> WithChildren(rt, Struct([]), ChildInfos(t)).value == Rebuilt(t)
    decreases t, 0
  {
    hide HashField, FieldInfo, InfoHash, RebuiltField;
    var fs := t.fields;
    assert ChildInfos(t) == FieldInfos(fs);
    forall k | 0 <= k < |fs|
      ensures HashField(rt, FieldInfo(fs[k])).Ok? <==> Rebuildable(fs[k].typ)
      ensures Rebuildable(fs[k].typ) ==> HashField(rt, FieldInfo(fs[k])).value == RebuiltField(fs[k])
    {
      FieldRebuilds(rt, fs[k]);
    }
    FieldsRebuild(rt, fs, |fs|);
  }

  /** The loop over a list of printed fields. */
  lemma {:induction false} FieldsRebuild(rt: Runtime, fs: seq<Field>, n: nat)
    requires n <= |fs|
    requires forall k :: 0 <= k < |fs| ==> (HashField(rt, FieldInfo(fs[k])).Ok? <==> Rebuildable(fs[k].typ))
    requires forall k ::
      0 <= k < |fs| && Rebuildable(fs[k].typ) ==> HashField(rt, FieldInfo(fs[k])).value == RebuiltField(fs[k])
    ensures HashFields(rt, FieldInfos(fs), n).Ok? <==> forall k :: 0 <= k < n ==> Rebuildable(fs[k].typ)
    ensures HashFields(rt, FieldInfos(fs), n).Ok? ==>
      HashFields(rt, FieldInfos(fs), n).value == seq(n, k requires 0 <= k < n => RebuiltField(fs[k]))
  {
    hide HashField, FieldInfo, Rebuildable, RebuiltField;
    if n > 0 {
      FieldsRebuild(rt, fs, n - 1);
      assert FieldInfos(fs)[n - 1] == FieldInfo(fs[n - 1]);
    }
  }

  // What comes back unchanged

  /** The fields that come back as they were: texts without NUL, one metadata pair per key, no ']' in a time zone, and no
      map but map(utf8, utf8). */
  predicate Faithful(f: Field)
    decreases f
  {
    && '\0' !in f.name
    && (f.metadata.Some? ==> PlainPairs(f.metadata.value))
    && FaithfulType(f.typ)
  }

  predicate FaithfulType(t: DataType)
    decreases t
  {
    match t
    case Timestamp(_, timezone) => ']' !in timezone && '\0' !in timezone
    case List(child) => Faithful(child)
    case LargeList(child) => Faithful(child)
    case FixedSizeList(child, _) => Faithful(child)
    case Struct(fields) => forall k :: 0 <= k < |fields| ==> Faithful(fields[k])
    case Map(_, _) => t == MapOf(Utf8, Utf8)
    case Dictionary(_, _) => false
    case Union(_, _, _, _) => false
    case _ => true
  }

  predicate PlainPairs(pairs: seq<Pair>) {
    && (forall i :: 0 <= i < |pairs| ==> '\0' !in pairs[i].key && '\0' !in pairs[i].text)
    && DistinctPairs(pairs)
  }

  predicate DistinctPairs(pairs: seq<Pair>) {
    forall i, j :: 0 <= i < j < |pairs| ==> pairs[i].key != pairs[j].key
  }

  lemma {:induction false} MetadataHashIsUnique(pairs: seq<Pair>)
    ensures UniqueKeys(MetadataHash(pairs))
    ensures |MetadataHash(pairs)| <= |pairs|
  {
    if pairs != [] {
      var n := |pairs| - 1;
      MetadataHashIsUnique(pairs[..n]);
      SetKeyKeepsUnique(MetadataHash(pairs[..n]), pairs[n].key, QString(pairs[n].text));
      SetKeyPlaces(MetadataHash(pairs[..n]), pairs[n].key, QString(pairs[n].text));
    }
  }

  /** Distinct pairs make a hash with the same entries. */
  lemma {:induction false} MetadataHashOfDistinct(pairs: seq<Pair>)
    requires DistinctPairs(pairs)
    ensures |MetadataHash(pairs)| == |pairs|
    ensures forall i :: 0 <= i < |pairs| ==> MetadataHash(pairs)[i] == Entry(pairs[i].key, QString(pairs[i].text))
  {
    hide SetKey;
    if pairs != [] {
      var n := |pairs| - 1;
      MetadataHashOfDistinct(pairs[..n]);
      SetKeyPlaces(MetadataHash(pairs[..n]), pairs[n].key, QString(pairs[n].text));
      assert !HasKey(MetadataHash(pairs[..n]), pairs[n].key);
    }
  }

  lemma RebuiltPairsUnchanged(pairs: seq<Pair>)
    ensures RebuiltPairs(pairs) == pairs <==> PlainPairs(pairs)
  {
    hide MetadataHash, CStr;
    var h := MetadataHash(pairs);
    MetadataHashIsUnique(pairs);
    MetadataHashIsText(pairs);
    if DistinctPairs(pairs) {
      MetadataHashOfDistinct(pairs);
      PairsWithoutNul(pairs, h);
    } else if |h| == |pairs| {
      FullHashIsDistinct(pairs);
    }
  }

  /** A hash with as many entries as there were pairs had no key twice. */
  lemma {:induction false} FullHashIsDistinct(pairs: seq<Pair>)
    requires |MetadataHash(pairs)| == |pairs|
    ensures DistinctPairs(pairs)
  {
    hide SetKey;
    if pairs != [] {
      var n := |pairs| - 1;
      var h := MetadataHash(pairs[..n]);
      SetKeyPlaces(h, pairs[n].key, QString(pairs[n].text));
      MetadataHashIsUnique(pairs[..n]);
      FullHashIsDistinct(pairs[..n]);
      MetadataHashOfDistinct(pairs[..n]);
      forall i | 0 <= i < n
        ensures pairs[i].key != pairs[n].key
      {
        assert h[i].key == pairs[i].key;
      }
      forall i, j | 0 <= i < j < |pairs|
        ensures pairs[i].key != pairs[j].key
      {
        if j < n {
          assert pairs[..n][i].key != pairs[..n][j].key;
        }
      }
    }
  }

  lemma PairsWithoutNul(pairs: seq<Pair>, h: seq<Entry>)
    requires h == MetadataHash(pairs) && |h| == |pairs|
    requires forall i :: 0 <= i < |pairs| ==> h[i] == Entry(pairs[i].key, QString(pairs[i].text))
    ensures RebuiltPairs(pairs) == pairs
      <==> forall i :: 0 <= i < |pairs| ==> '\0' !in pairs[i].key && '\0' !in pairs[i].text
  {
    hide MetadataHash, CStr;
    forall i | 0 <= i < |pairs|
      ensures RebuiltPairs(pairs)[i] == pairs[i] <==> '\0' !in pairs[i].key && '\0' !in pairs[i].text
    {
      CStrWithoutNul(pairs[i].key);
      CStrWithoutNul(pairs[i].text);
    }
  }

  /** The rebuilt field is the field itself exactly when it is faithful, for the types that can be rebuilt. */
  lemma {:induction false} RebuiltUnchanged(f: Field)
    requires Rebuildable(f.typ)
    ensures RebuiltField(f) == f <==> Faithful(f)
    decreases f
  {
    hide RebuiltPairs, PlainPairs, CStr, Rebuilt, FaithfulType;
    CStrWithoutNul(f.name);
    if f.metadata.Some? {
      RebuiltPairsUnchanged(f.metadata.value);
    }
    RebuiltTypeUnchanged(f.typ);
  }

  lemma {:induction false} RebuiltTypeUnchanged(t: DataType)
    requires Rebuildable(t)
    ensures Rebuilt(t) == t <==> FaithfulType(t)
    decreases t
  {
    hide RebuiltField, Faithful, CStr, Find;
    if t.List? || t.LargeList? || t.FixedSizeList? {
      RebuiltUnchanged(t.child);
    } else if t.Struct? {
      forall k | 0 <= k < |t.fields|
        ensures RebuiltField(t.fields[k]) == t.fields[k] <==> Faithful(t.fields[k])
      {
        RebuiltUnchanged(t.fields[k]);
      }
    } else if t.Timestamp? {
      RebuiltZone(t.timezone);
    }
  }

  lemma RebuiltZone(timezone: string)
    ensures CStr(timezone)[..Find(CStr(timezone), ']')] == timezone <==> ']' !in timezone && '\0' !in timezone
  {
    hide CStr;
    var z := CStr(timezone);
    CStrWithoutNul(timezone);
    FindNone(z, ']');
    assert z[..|z|] == z;
  }

  /** A printed field is read back unchanged exactly when it is faithful. */
  lemma FieldRoundTrip(rt: Runtime, f: Field)
    ensures HashField(rt, FieldInfo(f)) == Ok(f) <==> Faithful(f)
  {
    hide HashField, FieldInfo, RebuiltField, Rebuildable;
    FieldRebuilds(rt, f);
    if Faithful(f) {
      FaithfulIsRebuildable(f);
    }
    if Rebuildable(f.typ) {
      RebuiltUnchanged(f);
    }
  }

  lemma {:induction false} FaithfulIsRebuildable(f: Field)
    requires Faithful(f)
    ensures Rebuildable(f.typ)
    decreases f
  {
    var t := f.typ;
    if t.List? || t.LargeList? || t.FixedSizeList? {
      FaithfulIsRebuildable(t.child);
    } else if t.Struct? {
      forall k | 0 <= k < |t.fields|
        ensures Rebuildable(t.fields[k].typ)
      {
        FaithfulIsRebuildable(t.fields[k]);
      }
    }
  }

  // Rebuilding twice

  /** No two metadata keys of the field or of its children, outside a map, become one when they are cut at a NUL. */
  predicate KeysStayDistinct(f: Field)
    decreases f
  {
    && (f.metadata.Some? ==> DistinctPairs(RebuiltPairs(f.metadata.value)))
    && (match f.typ
        case List(child) => KeysStayDistinct(child)
        case LargeList(child) => KeysStayDistinct(child)
        case FixedSizeList(child, _) => KeysStayDistinct(child)
        case Struct(fields) => forall k :: 0 <= k < |fields| ==> KeysStayDistinct(fields[k])
        case _ => true)
  }

  lemma KeysWithoutNulStayDistinct(pairs: seq<Pair>)
    requires forall i :: 0 <= i < |pairs| ==> '\0' !in pairs[i].key
    ensures DistinctPairs(RebuiltPairs(pairs))
  {
    hide CStr, MetadataHash;
    var h := MetadataHash(pairs);
    MetadataHashIsUnique(pairs);
    forall i | 0 <= i < |h|
      ensures CStr(h[i].key) == h[i].key
    {
      HashKeysArePairKeys(pairs, i);
      CStrWithoutNul(h[i].key);
    }
  }

  lemma {:induction false} HashKeysArePairKeys(pairs: seq<Pair>, i: nat)
    requires i < |MetadataHash(pairs)|
    ensures exists j :: 0 <= j < |pairs| && pairs[j].key == MetadataHash(pairs)[i].key
  {
    hide SetKey;
    var n := |pairs| - 1;
    var h := MetadataHash(pairs[..n]);
    SetKeyPlaces(h, pairs[n].key, QString(pairs[n].text));
    if i < |h| {
      HashKeysArePairKeys(pairs[..n], i);
      var j :| 0 <= j < n && pairs[..n][j].key == h[i].key;
      assert pairs[j].key == h[i].key;
    } else {
      assert pairs[n].key == MetadataHash(pairs)[i].key;
    }
  }

  lemma {:induction false} RebuiltIsFaithful(f: Field)
    requires Rebuildable(f.typ)
    ensures Faithful(RebuiltField(f)) <==> KeysStayDistinct(f)
    decreases f
  {
    hide RebuiltPairs, CStr, Find;
    var t := f.typ;
    CStrWithoutNul(f.name);
    if f.metadata.Some? {
      RebuiltPairsAreCut(f.metadata.value);
    }
    if t.List? || t.LargeList? || t.FixedSizeList? {
      RebuiltIsFaithful(t.child);
    } else if t.Struct? {
      forall k | 0 <= k < |t.fields|
        ensures Faithful(RebuiltField(t.fields[k])) <==> KeysStayDistinct(t.fields[k])
      {
        RebuiltIsFaithful(t.fields[k]);
      }
      StructFaithful(t);
    } else if t.Timestamp? {
      CStrWithoutNul(t.timezone);
      FindNone(CStr(t.timezone), ']');
    }
  }

  lemma StructFaithful(t: DataType)
    requires t.Struct?
    ensures FaithfulType(Rebuilt(t)) <==> forall k :: 0 <= k < |t.fields| ==> Faithful(RebuiltField(t.fields[k]))
  {
    hide Faithful, RebuiltField;
    var fs := Rebuilt(t).fields;
    assert |fs| == |t.fields| && forall k :: 0 <= k < |fs| ==> fs[k] == RebuiltField(t.fields[k]);
    if FaithfulType(Rebuilt(t)) {
      forall k | 0 <= k < |t.fields|
        ensures Faithful(RebuiltField(t.fields[k]))
      {
        assert Faithful(fs[k]);
      }
    }
  }

  lemma RebuiltPairsAreCut(pairs: seq<Pair>)
    ensures PlainPairs(RebuiltPairs(pairs)) <==> DistinctPairs(RebuiltPairs(pairs))
  {
    hide CStr, MetadataHash;
    var h := MetadataHash(pairs);
    MetadataHashIsText(pairs);
    forall i | 0 <= i < |h|
      ensures '\0' !in CStr(h[i].key) && '\0' !in CStr(h[i].value.text)
    {
      CStrWithoutNul(h[i].key);
      CStrWithoutNul(h[i].value.text);
    }
  }

  /** Printing and rebuilding what was rebuilt changes nothing more, exactly when no metadata keys merge. */
  lemma RebuildingIsIdempotent(rt: Runtime, f: Field)
    requires Rebuildable(f.typ)
    ensures HashField(rt, FieldInfo(RebuiltField(f))) == Ok(RebuiltField(f)) <==> KeysStayDistinct(f)
  {
    hide HashField, FieldInfo, RebuiltField, Faithful;
    RebuiltIsFaithful(f);
    FieldRoundTrip(rt, RebuiltField(f));
  }

  // Schemas

  /** The two arguments of hashToSchema, taken from the hash of a schema. */
  function ReadSchema(rt: Runtime, v: Value): Result<Schema, SchemaError>
    requires v.QHash? && GetKey(v.entries, "fields").QList?
  {
    var metadata := GetKey(v.entries, "metadata");
    HashSchema(rt, GetKey(v.entries, "fields").items, if metadata.QHash? then Some(metadata.entries) else None)
  }

  lemma SchemaKeys(s: Schema)
    ensures var h := SchemaHash(s).entries;
      && GetKey(h, "fields") == QList(FieldInfos(s.fields))
      && GetKey(h, "metadata") == (if s.metadata.Some? then QHash(MetadataHash(s.metadata.value)) else QNothing)
  {
    hide GetKey, SetKey, FieldInfos, MetadataHash;
    var fields := QList(FieldInfos(s.fields));
    NoKey("fields");
    NoKey("metadata");
    SetThenGet([], "fields", fields, "fields");
    SetThenGet([], "fields", fields, "metadata");
    if s.metadata.Some? {
      var metadata := QHash(MetadataHash(s.metadata.value));
      SetThenGet(SetKey([], "fields", fields), "metadata", metadata, "fields");
      SetThenGet(SetKey([], "fields", fields), "metadata", metadata, "metadata");
    }
  }

  function RebuiltSchema(s: Schema): Schema {
    Schema(seq(|s.fields|, k requires 0 <= k < |s.fields| => RebuiltField(s.fields[k])),
           if s.metadata.Some? then Some(RebuiltPairs(s.metadata.value)) else None)
  }

  /** hashToSchema on the fields and metadata of schemaToHash(s) rebuilds s, exactly when all its fields can be. */
  lemma SchemaRebuilds(rt: Runtime, s: Schema)
    ensures SchemaHash(s).QHash? && GetKey(SchemaHash(s).entries, "fields").QList?
    ensures ReadSchema(rt, SchemaHash(s)).Ok? <==> forall k :: 0 <= k < |s.fields| ==> Rebuildable(s.fields[k].typ)
    ensures ReadSchema(rt, SchemaHash(s)).Ok? ==> ReadSchema(rt, SchemaHash(s)).value == RebuiltSchema(s)
  {
    hide GetKey, SetKey, FieldInfo, MetadataHash, HashField, Rebuildable, RebuiltField, HashMetadata, RebuiltPairs;
    SchemaKeys(s);
    if s.metadata.Some? {
      MetadataRebuilt(rt, s.metadata.value);
    }
    forall k | 0 <= k < |s.fields|
      ensures HashField(rt, FieldInfo(s.fields[k])).Ok? <==> Rebuildable(s.fields[k].typ)
      ensures Rebuildable(s.fields[k].typ) ==> HashField(rt, FieldInfo(s.fields[k])).value == RebuiltField(s.fields[k])
    {
      FieldRebuilds(rt, s.fields[k]);
    }
    FieldsRebuild(rt, s.fields, |s.fields|);
  }

  /** A schema is read back unchanged exactly when its fields are faithful and its metadata is plain. */
  lemma SchemaRoundTrips(rt: Runtime, s: Schema)
    ensures GetKey(SchemaHash(s).entries, "fields").QList?
    ensures ReadSchema(rt, SchemaHash(s)) == Ok(s)
      <==> (forall k :: 0 <= k < |s.fields| ==> Faithful(s.fields[k])) && (s.metadata.Some? ==> PlainPairs(s.metadata.value))
  {
    hide SchemaHash, ReadSchema, Rebuildable, RebuiltField, Faithful, RebuiltPairs, PlainPairs;
    SchemaRebuilds(rt, s);
    if s.metadata.Some? {
      RebuiltPairsUnchanged(s.metadata.value);
    }
    forall k | 0 <= k < |s.fields|
      ensures Faithful(s.fields[k]) ==> Rebuildable(s.fields[k].typ)
      ensures Rebuildable(s.fields[k].typ) ==> (RebuiltField(s.fields[k]) == s.fields[k] <==> Faithful(s.fields[k]))
    {
      if Faithful(s.fields[k]) {
        FaithfulIsRebuildable(s.fields[k]);
      }
      if Rebuildable(s.fields[k].typ) {
        RebuiltUnchanged(s.fields[k]);
      }
    }
    if ReadSchema(rt, SchemaHash(s)) == Ok(s) {
      forall k | 0 <= k < |s.fields|
        ensures Faithful(s.fields[k])
      {
        assert RebuiltSchema(s).fields[k] == s.fields[k];
      }
    } else if forall k :: 0 <= k < |s.fields| ==> Faithful(s.fields[k]) {
      assert RebuiltSchema(s).fields == s.fields;
    }
  }

  /** A map of strings to integers comes back as a map of strings to strings. */
  lemma MapComesBackAsText(rt: Runtime)
    ensures var f := PlainField("m", MapOf(Utf8, Integer(W64, true)));
      HashField(rt, FieldInfo(f)) == Ok(PlainField("m", MapOf(Utf8, Utf8))) && HashField(rt, FieldInfo(f)) != Ok(f)
  {
    var f := PlainField("m", MapOf(Utf8, Integer(W64, true)));
    FieldRebuilds(rt, f);
    CStrWithoutNul("m");
    hide HashField, FieldInfo, CStr;
  }
}
