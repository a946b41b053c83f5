/** Schemas as Qore hashes, and back: fieldToHash, hashToField, and their metadata and schema forms. */
module SchemaInfo {
  import opened Wrappers
  import opened ArrowTypes
  import opened QoreValues
  import opened TypeNames

  datatype Schema = Schema(fields: seq<Field>, metadata: Option<seq<Pair>>)

  // Metadata

  /** metadataToHash: a repeated key keeps its place and takes the later value. */
  function MetadataHash(pairs: seq<Pair>): seq<Entry> {
    if pairs == [] then []
    else
      var last := pairs[|pairs| - 1];
      SetKey(MetadataHash(pairs[..|pairs| - 1]), last.key, QString(last.text))
  }

  /** hashToMetadata: keys and values pass through C strings. */
  function HashMetadata(rt: Runtime, h: seq<Entry>): (pairs: seq<Pair>)
    ensures |pairs| == |h|
  {
    seq(|h|, i requires 0 <= i < |h| => Pair(CStr(h[i].key), CStr(AsText(rt, h[i].value))))
  }

  method MetadataToHash(pairs: seq<Pair>) returns (h: seq<Entry>)
    ensures h == MetadataHash(pairs)
  {
    h := [];
    for i := 0 to |pairs|
      invariant h == MetadataHash(pairs[..i])
    {
      assert pairs[..i + 1][..i] == pairs[..i];
      h := SetKey(h, pairs[i].key, QString(pairs[i].text));
    }
    assert pairs[..|pairs|] == pairs;
  }

  method HashToMetadata(rt: Runtime, h: seq<Entry>) returns (pairs: seq<Pair>)
    ensures pairs == HashMetadata(rt, h)
  {
    pairs := [];
    for i := 0 to |h|
      invariant pairs == HashMetadata(rt, h)[..i]
    {
      pairs := pairs + [Pair(CStr(h[i].key), CStr(AsText(rt, h[i].value)))];
    }
  }

  // Fields to hashes

  /** The hash of one field, given the hashes of its children. */
  function InfoHash(f: Field, children: seq<Value>): seq<Entry> {
    var h := SetKey([], "name", QString(f.name));
    var h := SetKey(h, "type", QString(TypeName(f.typ)));
    var h := SetKey(h, "nullable", QBool(f.nullable));
    var h := if f.metadata.Some? then SetKey(h, "metadata", QHash(MetadataHash(f.metadata.value))) else h;
    if children == [] then h else SetKey(h, "children", QList(children))
  }

  /** fieldToHash. */
  function FieldInfo(f: Field): Value
    decreases f
  {
    QHash(InfoHash(f, ChildInfos(f.typ)))
  }

  function ChildInfos(t: DataType): (vs: seq<Value>)
    ensures |vs| == |ChildFields(t)|
    decreases t
  {
    if t.Map? then [QHash(InfoHash(EntriesField(t.key, t.item), [FieldInfo(t.key), FieldInfo(t.item)]))]
    else
      var fs := ChildFields(t);
      seq(|fs|, k requires 0 <= k < |fs| => FieldInfo(fs[k]))
  }

  lemma EntriesInfo(key: Field, item: Field)
    ensures ChildInfos(Map(key, item)) == [FieldInfo(EntriesField(key, item))]
  {
    assert ChildInfos(Struct([key, item])) == [FieldInfo(key), FieldInfo(item)];
  }

  // Hashes to fields

  /** hashToField. */
  function HashField(rt: Runtime, v: Value): Result<Field, SchemaError>
    decreases v
  {
    if !v.QHash? then Err(NullField)
    else
      var name, typeName := GetKey(v.entries, "name"), GetKey(v.entries, "type");
      if name.QNothing? then Err(MissingName)
      else if typeName.QNothing? then Err(MissingType)
      else
        var parsed :- ParseTypeName(CStr(AsText(rt, typeName)));
        var nullable := GetKey(v.entries, "nullable");
        var metadata := GetKey(v.entries, "metadata");
        var children := GetKey(v.entries, "children");
        var typ :- if children.QList? then WithChildren(rt, parsed, children.items) else Ok(parsed);
        Ok(Field(CStr(AsText(rt, name)), typ, nullable.QNothing? || AsBool(rt, nullable),
                 if metadata.QHash? then Some(HashMetadata(rt, metadata.entries)) else None))
  }

  /** The parsed type with the children that the hash lists, for the types that take them. */
  function WithChildren(rt: Runtime, parsed: DataType, children: seq<Value>): Result<DataType, SchemaError>
    decreases children
  {
    if children == [] then Ok(parsed)
    else if parsed.Struct? then
      var fields :- HashFields(rt, children, |children|);
      Ok(Struct(fields))
    else if parsed.List? then
      var child :- HashField(rt, children[0]);
      Ok(List(child))
    else if parsed.LargeList? then
      var child :- HashField(rt, children[0]);
      Ok(LargeList(child))
    else if parsed.FixedSizeList? then
      var child :- HashField(rt, children[0]);
      Ok(FixedSizeList(child, parsed.listSize))
    else if parsed.Map? && |children| >= 2 then
      var key :- HashField(rt, children[0]);
      var item :- HashField(rt, children[1]);
      Ok(MapOf(key.typ, item.typ))
    else Ok(parsed)
  }

  /** The first k fields of a list of hashes, or the first error. */
  function HashFields(rt: Runtime, vs: seq<Value>, k: nat): Result<seq<Field>, SchemaError>
    requires k <= |vs|
    decreases vs, 0, k
  {
    if k == 0 then Ok([])
    else
      var fields :- HashFields(rt, vs, k - 1);
      var field :- HashField(rt, vs[k - 1]);
      Ok(fields + [field])
  }

  /** fieldToHash. `root` only serves termination: it is the field's type, or the map type whose entries field this is. */
  method FieldToHash(f: Field, ghost root: DataType) returns (v: Value)
    requires f.typ == root || (root.Map? && f == EntriesField(root.key, root.item))
    ensures v == FieldInfo(f)
    decreases root, f.typ == root
  {
    hide FieldInfo, ChildInfos, SetKey, TypeName, MetadataHash;
    var h := SetKey([], "name", QString(f.name));
    h := SetKey(h, "type", QString(TypeName(f.typ)));
    h := SetKey(h, "nullable", QBool(f.nullable));
    if f.metadata.Some? {
      var metadata := MetadataToHash(f.metadata.value);
      h := SetKey(h, "metadata", QHash(metadata));
    }
    var fields := ChildFields(f.typ);
    if |fields| > 0 {
      var children: seq<Value> := [];
      for k := 0 to |fields|
        invariant |children| == k && forall j :: 0 <= j < k ==> children[j] == FieldInfo(fields[j])
      {
        hide InfoHash;
        var child := FieldToHash(fields[k], if f.typ.Map? then f.typ else fields[k].typ);
        children := children + [child];
      }
      ChildInfosAre(f.typ, children);
      h := SetKey(h, "children", QList(children));
    } else {
      ChildInfosAre(f.typ, []);
    }
    v := QHash(h);
    FieldInfoIs(f);
  }

  lemma FieldInfoIs(f: Field)
    ensures FieldInfo(f) == QHash(InfoHash(f, ChildInfos(f.typ)))
  {
    hide InfoHash, ChildInfos;
  }

  lemma ChildInfosAre(t: DataType, children: seq<Value>)
    requires |children| == |ChildFields(t)|
    requires forall j :: 0 <= j < |children| ==> children[j] == FieldInfo(ChildFields(t)[j])
    ensures children == ChildInfos(t)
  {
    if t.Map? {
      EntriesInfo(t.key, t.item);
    }
    hide FieldInfo, InfoHash;
  }

  /** hashToField. */
  method HashToField(rt: Runtime, v: Value) returns (r: Result<Field, SchemaError>)
    ensures r == HashField(rt, v)
    decreases v
  {
    hide ParseTypeName, CStr, WithChildren;
    if !v.QHash? {
      return Err(NullField);
    }
    var name := GetKey(v.entries, "name");
    if name.QNothing? {
      return Err(MissingName);
    }
    var typeName := GetKey(v.entries, "type");
    if typeName.QNothing? {
      return Err(MissingType);
    }
    var typ :- ParseTypeName(CStr(AsText(rt, typeName)));
    var nullable := true;
    var nullableVal := GetKey(v.entries, "nullable");
    if !nullableVal.QNothing? {
      nullable := AsBool(rt, nullableVal);
    }
    var metadata: Option<seq<Pair>> := None;
    var metaHash := GetKey(v.entries, "metadata");
    if metaHash.QHash? {
      var pairs := HashToMetadata(rt, metaHash.entries);
      metadata := Some(pairs);
    }
    var children := GetKey(v.entries, "children");
    if children.QList? {
      typ :- AddChildren(rt, typ, children.items);
    }
    r := Ok(Field(CStr(AsText(rt, name)), typ, nullable, metadata));
  }

  /** The part of hashToField that gives a nested type its children. */
  method AddChildren(rt: Runtime, parsed: DataType, children: seq<Value>) returns (r: Result<DataType, SchemaError>)
    ensures r == WithChildren(rt, parsed, children)
    decreases children
  {
    hide HashField;
    var typ := parsed;
    if |children| > 0 {
      if parsed.Struct? {
        var fields :- HashesToFields(rt, children);
        typ := Struct(fields);
      } else if parsed.List? {
        var child :- HashToField(rt, children[0]);
        typ := List(child);
      } else if parsed.LargeList? {
        var child :- HashToField(rt, children[0]);
        typ := LargeList(child);
      } else if parsed.FixedSizeList? {
        var child :- HashToField(rt, children[0]);
        typ := FixedSizeList(child, parsed.listSize);
      } else if parsed.Map? && |children| >= 2 {
        var key :- HashToField(rt, children[0]);
        var item :- HashToField(rt, children[1]);
        typ := MapOf(key.typ, item.typ);
      }
    }
    r := Ok(typ);
  }

  lemma {:induction false} FieldsErrorStays(rt: Runtime, vs: seq<Value>, m: nat, n: nat)
    requires m <= n <= |vs| && HashFields(rt, vs, m).Err?
    ensures HashFields(rt, vs, n) == HashFields(rt, vs, m)
  {
    hide HashField;
    if m < n {
      FieldsErrorStays(rt, vs, m, n - 1);
    }
  }

  /** The loop over a list of field hashes. */
  method HashesToFields(rt: Runtime, vs: seq<Value>) returns (r: Result<seq<Field>, SchemaError>)
    ensures r == HashFields(rt, vs, |vs|)
    decreases vs, 0
  {
    hide HashField;
    var fields: seq<Field> := [];
    for k := 0 to |vs|
      invariant HashFields(rt, vs, k) == Ok(fields)
    {
      var field := HashToField(rt, vs[k]);
      if field.Err? {
        FieldsErrorStays(rt, vs, k + 1, |vs|);
        return Err(field.error);
      }
      fields := fields + [field.value];
    }
    r := Ok(fields);
  }

  // Schemas

  /** schemaToHash. */
  function SchemaHash(s: Schema): Value {
    var h := SetKey([], "fields", QList(FieldInfos(s.fields)));
    QHash(if s.metadata.Some? then SetKey(h, "metadata", QHash(MetadataHash(s.metadata.value))) else h)
  }

  function FieldInfos(fields: seq<Field>): (vs: seq<Value>)
    ensures |vs| == |fields|
  {
    seq(|fields|, k requires 0 <= k < |fields| => FieldInfo(fields[k]))
  }

  /** hashToSchema, given the list of fields and the optional metadata hash. */
  function HashSchema(rt: Runtime, fields: seq<Value>, metadata: Option<seq<Entry>>): Result<Schema, SchemaError> {
    var fs :- HashFields(rt, fields, |fields|);
    Ok(Schema(fs, if metadata.Some? then Some(HashMetadata(rt, metadata.value)) else None))
  }

  method SchemaToHash(s: Schema) returns (v: Value)
    ensures v == SchemaHash(s)
  {
    hide FieldInfo;
    var fields: seq<Value> := [];
    for k := 0 to |s.fields|
      invariant fields == FieldInfos(s.fields)[..k]
    {
      var field := FieldToHash(s.fields[k], s.fields[k].typ);
      fields := fields + [field];
    }
    assert fields == FieldInfos(s.fields);
    var h := SetKey([], "fields", QList(fields));
    if s.metadata.Some? {
      var metadata := MetadataToHash(s.metadata.value);
      h := SetKey(h, "metadata", QHash(metadata));
    }
    v := QHash(h);
  }

  method HashToSchema(rt: Runtime, fields: seq<Value>, metadata: Option<seq<Entry>>)
    returns (r: Result<Schema, SchemaError>)
    ensures r == HashSchema(rt, fields, metadata)
  {
    var fs :- HashesToFields(rt, fields);
    var pairs: Option<seq<Pair>> := None;
    if metadata.Some? {
      var p := HashToMetadata(rt, metadata.value);
      pairs := Some(p);
    }
    r := Ok(Schema(fs, pairs));
  }
}
