/** ArrowRecordBatch: building from columns and from rows, and reading back in either form. */
module RecordBatches {
  import opened Wrappers
  import opened ArrowTypes
  import opened QoreValues
  import opened Scalars
  import opened ArrowArrays
  import opened ArrowReader
  import opened BuilderColumns
  import opened ColumnMeaning
  import opened ColumnRoundTrip
  import opened NormalForms
  import opened ArrowBuilders

  datatype RecordBatch = RecordBatch(fields: seq<Field>, numRows: int, columns: seq<Array>)

  datatype BatchError =
    | MissingColumn(name: string)
    | RowCount(name: string, rows: nat, expected: int)
    | Conversion(error: ConvertError)

  /** One column of the schema's type for every field, all of num_rows slots. */
  predicate BatchSized(b: RecordBatch) {
    && |b.columns| == |b.fields| && b.numRows >= 0
    && forall k :: 0 <= k < |b.columns| ==>
         b.columns[k].data.typ == b.fields[k].typ && b.columns[k].length == b.numRows
  }

  /** Moreover, every column obeys the Arrow layout. */
  ghost predicate BatchOk(b: RecordBatch) {
    BatchSized(b) && forall k :: 0 <= k < |b.columns| ==> WellFormed(b.columns[k])
  }

  // Building

  /** The arrays of the first k columns and the row count so far, which is -1 before the first column. */
  datatype Partial = Partial(numRows: int, columns: seq<Array>)

  ghost function ColumnsUpTo(rt: Runtime, fields: seq<Field>, h: seq<Entry>, k: nat): Result<Partial, BatchError>
    requires k <= |fields|
  {
    if k == 0 then Ok(Partial(-1, []))
    else
      var p :- ColumnsUpTo(rt, fields, h, k - 1);
      AddColumn(rt, p, fields[k - 1], GetKey(h, CStr(fields[k - 1].name)))
  }

  ghost function AddColumn(rt: Runtime, p: Partial, field: Field, v: Value): Result<Partial, BatchError> {
    if !v.QList? then Err(MissingColumn(field.name))
    else if p.numRows >= 0 && |v.items| != p.numRows then Err(RowCount(field.name, |v.items|, p.numRows))
    else
      var built := Build(rt, field.typ, v.items);
      if built.Err? then Err(Conversion(built.error)) else Ok(Partial(|v.items|, p.columns + [built.value]))
  }

  /** ArrowRecordBatch::constructor(ArrowSchema schema, hash<auto> columns). */
  ghost function FromColumns(rt: Runtime, fields: seq<Field>, h: seq<Entry>): Result<RecordBatch, BatchError> {
    var p :- ColumnsUpTo(rt, fields, h, |fields|);
    Ok(RecordBatch(fields, if p.numRows < 0 then 0 else p.numRows, p.columns))
  }

  /** The entries of a row; a row that is not a hash has none. */
  function RowEntries(row: Value): seq<Entry> {
    if row.QHash? then row.entries else []
  }

  /** The values of all rows under one name. */
  function RowColumn(rows: seq<Value>, name: string): (vs: seq<Value>)
    ensures |vs| == |rows|
  {
    seq(|rows|, r requires 0 <= r < |rows| => GetKey(RowEntries(rows[r]), CStr(name)))
  }

  ghost function RowsUpTo(rt: Runtime, fields: seq<Field>, rows: seq<Value>, k: nat): Result<seq<Array>, BatchError>
    requires k <= |fields|
  {
    if k == 0 then Ok([])
    else
      var arrays :- RowsUpTo(rt, fields, rows, k - 1);
      var built := Build(rt, fields[k - 1].typ, RowColumn(rows, fields[k - 1].name));
      if built.Err? then Err(Conversion(built.error)) else Ok(arrays + [built.value])
  }

  /** ArrowRecordBatch::constructor(ArrowSchema schema, list<hash<auto>> rows). */
  ghost function FromRows(rt: Runtime, fields: seq<Field>, rows: seq<Value>): Result<RecordBatch, BatchError> {
    var arrays :- RowsUpTo(rt, fields, rows, |fields|);
    Ok(RecordBatch(fields, |rows|, arrays))
  }

  method BatchFromColumns(rt: Runtime, fields: seq<Field>, h: seq<Entry>) returns (r: Result<RecordBatch, BatchError>)
    ensures r == FromColumns(rt, fields, h)
  {
    hide Build, GetKey, CStr;
    var numRows := -1;
    var columns: seq<Array> := [];
    for k := 0 to |fields|
      invariant ColumnsUpTo(rt, fields, h, k) == Ok(Partial(numRows, columns))
    {
      var v := GetKey(h, CStr(fields[k].name));
      if !v.QList? {
        ColumnsErrorStays(rt, fields, h, k + 1, |fields|);
        return Err(MissingColumn(fields[k].name));
      }
      if numRows < 0 {
        numRows := |v.items|;
      } else if |v.items| != numRows {
        ColumnsErrorStays(rt, fields, h, k + 1, |fields|);
        return Err(RowCount(fields[k].name, |v.items|, numRows));
      }
      var built := ListToArray(rt, fields[k].typ, v.items);
      if built.Err? {
        ColumnsErrorStays(rt, fields, h, k + 1, |fields|);
        return Err(Conversion(built.error));
      }
      columns := columns + [built.value];
    }
    if numRows < 0 {
      numRows := 0;
    }
    r := Ok(RecordBatch(fields, numRows, columns));
  }

  lemma {:induction false} ColumnsErrorStays(rt: Runtime, fields: seq<Field>, h: seq<Entry>, m: nat, n: nat)
    requires m <= n <= |fields| && ColumnsUpTo(rt, fields, h, m).Err?
    ensures ColumnsUpTo(rt, fields, h, n) == ColumnsUpTo(rt, fields, h, m)
  {
    hide AddColumn, GetKey, CStr;
    if m < n {
      ColumnsErrorStays(rt, fields, h, m, n - 1);
    }
  }

  method BatchFromRows(rt: Runtime, fields: seq<Field>, rows: seq<Value>) returns (r: Result<RecordBatch, BatchError>)
    ensures r == FromRows(rt, fields, rows)
  {
    hide Build;
    var arrays: seq<Array> := [];
    for k := 0 to |fields|
      invariant RowsUpTo(rt, fields, rows, k) == Ok(arrays)
    {
      var column: seq<Value> := [];
      for i := 0 to |rows|
        invariant column == RowColumn(rows, fields[k].name)[..i]
      {
        var v := if rows[i].QHash? then GetKey(rows[i].entries, CStr(fields[k].name)) else QNothing;
        column := column + [v];
      }
      assert column == RowColumn(rows, fields[k].name);
      var built := ListToArray(rt, fields[k].typ, column);
      if built.Err? {
        RowsErrorStays(rt, fields, rows, k + 1, |fields|);
        return Err(Conversion(built.error));
      }
      arrays := arrays + [built.value];
    }
    r := Ok(RecordBatch(fields, |rows|, arrays));
  }

  lemma {:induction false} RowsErrorStays(rt: Runtime, fields: seq<Field>, rows: seq<Value>, m: nat, n: nat)
    requires m <= n <= |fields| && RowsUpTo(rt, fields, rows, m).Err?
    ensures RowsUpTo(rt, fields, rows, n) == RowsUpTo(rt, fields, rows, m)
  {
    hide Build, RowColumn;
    if m < n {
      RowsErrorStays(rt, fields, rows, m, n - 1);
    }
  }

  // Reading

  type Lists = seq<seq<Value>>

  /** The converted columns: the values of the first k, or the first error. */
  ghost function ListsUpTo(rt: Runtime, b: RecordBatch, k: nat): (r: Result<Lists, ConvertError>)
    requires BatchOk(b) && k <= |b.columns|
    ensures r.Ok? ==> |r.value| == k && forall c :: 0 <= c < k ==> |r.value[c]| == b.numRows
  {
    if k == 0 then Ok([])
    else
      var lists :- ListsUpTo(rt, b, k - 1);
      var list :- Values(rt, b.columns[k - 1]);
      Ok(lists + [list])
  }

  /** The hash that has value c of `row` under the name of field c. */
  function NamedUpTo(fields: seq<Field>, row: seq<Value>, k: nat): seq<Entry>
    requires k <= |fields| && k <= |row|
  {
    if k == 0 then [] else SetKey(NamedUpTo(fields, row, k - 1), fields[k - 1].name, row[k - 1])
  }

  function Row(lists: Lists, r: nat): seq<Value>
    requires forall c :: 0 <= c < |lists| ==> r < |lists[c]|
  {
    seq(|lists|, c requires 0 <= c < |lists| => lists[c][r])
  }

  function ListValues(lists: Lists): seq<Value> {
    seq(|lists|, c requires 0 <= c < |lists| => QList(lists[c]))
  }

  /** toColumns. */
  ghost function ToColumns(rt: Runtime, b: RecordBatch): Result<seq<Entry>, ConvertError>
    requires BatchOk(b)
  {
    var lists :- ListsUpTo(rt, b, |b.columns|);
    Ok(NamedUpTo(b.fields, ListValues(lists), |b.fields|))
  }

  /** toRows. */
  ghost function ToRows(rt: Runtime, b: RecordBatch): Result<seq<Value>, ConvertError>
    requires BatchOk(b)
  {
    var lists :- ListsUpTo(rt, b, |b.columns|);
    Ok(seq(b.numRows, r requires 0 <= r < b.numRows => QHash(NamedUpTo(b.fields, Row(lists, r), |b.fields|))))
  }

  lemma {:induction false} ListsErrorStays(rt: Runtime, b: RecordBatch, m: nat, n: nat)
    requires BatchOk(b) && m <= n <= |b.columns| && ListsUpTo(rt, b, m).Err?
    ensures ListsUpTo(rt, b, n) == ListsUpTo(rt, b, m)
  {
    hide BatchOk, Values;
    if m < n {
      ListsErrorStays(rt, b, m, n - 1);
    }
  }

  lemma {:induction false} NamedOfPrefix(fields: seq<Field>, row: seq<Value>, more: seq<Value>, k: nat)
    requires k <= |fields| && k <= |row|
    ensures NamedUpTo(fields, row + more, k) == NamedUpTo(fields, row, k)
  {
    hide SetKey;
    if k > 0 {
      NamedOfPrefix(fields, row, more, k - 1);
    }
  }

  lemma OneMoreNamed(fields: seq<Field>, lists: Lists, list: seq<Value>)
    requires |lists| < |fields|
    ensures var n := |lists|;
      |ListValues(lists)| == n && |ListValues(lists + [list])| == n + 1
      && NamedUpTo(fields, ListValues(lists + [list]), n + 1)
         == SetKey(NamedUpTo(fields, ListValues(lists), n), fields[n].name, QList(list))
  {
    hide SetKey;
    assert ListValues(lists + [list]) == ListValues(lists) + [QList(list)];
    NamedOfPrefix(fields, ListValues(lists), [QList(list)], |lists|);
  }

  method BatchToColumns(rt: Runtime, b: RecordBatch) returns (r: Result<seq<Entry>, ConvertError>)
    requires BatchOk(b)
    ensures r == ToColumns(rt, b)
  {
    hide Values, WellFormed, SetKey, NamedUpTo, ListValues, ListsUpTo, BatchOk, BatchSized;
    ghost var lists: Lists := [];
    var h: seq<Entry> := [];
    NoColumns(rt, b);
    for c := 0 to |b.columns|
      invariant |lists| == c == |ListValues(lists)| <= |b.fields|
      invariant ListsUpTo(rt, b, c) == Ok(lists)
      invariant h == NamedUpTo(b.fields, ListValues(lists), c)
    {
      ColumnStep(rt, b, c);
      var list := ArrayToList(rt, b.columns[c]);
      if list.Err? {
        ListsErrorStays(rt, b, c + 1, |b.columns|);
        return Err(list.error);
      }
      OneMoreNamed(b.fields, lists, list.value);
      h := SetKey(h, b.fields[c].name, QList(list.value));
      lists := lists + [list.value];
    }
    BatchColumns(b);
    r := Ok(h);
  }

  lemma NoColumns(rt: Runtime, b: RecordBatch)
    requires BatchOk(b)
    ensures ListsUpTo(rt, b, 0) == Ok([]) && ListValues([]) == [] && NamedUpTo(b.fields, [], 0) == []
  {
  }

  lemma ColumnStep(rt: Runtime, b: RecordBatch, c: nat)
    requires BatchOk(b) && c < |b.columns|
    ensures c < |b.fields| && WellFormed(b.columns[c])
    ensures var before, list := ListsUpTo(rt, b, c), Values(rt, b.columns[c]);
      ListsUpTo(rt, b, c + 1)
      == if before.Err? then before else if list.Err? then Err(list.error) else Ok(before.value + [list.value])
  {
    hide Values, WellFormed;
  }

  method BatchToRows(rt: Runtime, b: RecordBatch) returns (r: Result<seq<Value>, ConvertError>)
    requires BatchOk(b)
    ensures r == ToRows(rt, b)
  {
    hide Values, WellFormed, SetKey;
    var lists: Lists := [];
    for c := 0 to |b.columns|
      invariant ListsUpTo(rt, b, c) == Ok(lists)
    {
      var list := ArrayToList(rt, b.columns[c]);
      if list.Err? {
        ListsErrorStays(rt, b, c + 1, |b.columns|);
        return Err(list.error);
      }
      lists := lists + [list.value];
    }
    var rows: seq<Value> := [];
    for i := 0 to b.numRows
      invariant |rows| == i
      invariant forall j :: 0 <= j < i ==> rows[j] == QHash(NamedUpTo(b.fields, Row(lists, j), |b.fields|))
    {
      var row: seq<Entry> := [];
      for c := 0 to |b.columns|
        invariant row == NamedUpTo(b.fields, Row(lists, i), c)
      {
        row := SetKey(row, b.fields[c].name, lists[c][i]);
      }
      rows := rows + [QHash(row)];
    }
    assert rows == ToRows(rt, b).value;
    r := Ok(rows);
  }

  // What a batch built from rows or columns holds

  /** The arrays are the built lists of one row count each. */
  ghost predicate Holds(rt: Runtime, fields: seq<Field>, columns: seq<Array>, lists: Lists, n: int) {
    && |columns| == |lists| <= |fields|
    && forall k :: 0 <= k < |columns| ==> |lists[k]| == n && HoldsList(rt, fields[k].typ, columns[k], lists[k])
  }

  ghost predicate HoldsList(rt: Runtime, t: DataType, a: Array, vs: seq<Value>) {
    && a.data.typ == t && a.length == |vs|
    && (forall i :: 0 <= i < |vs| ==> Accepts(rt, t, vs[i]))
    && (TrueColumn(t, vs) ==> WellFormed(a) && Values(rt, a) == NormalItems(rt, t, vs))
  }

  /** No list of a wrong size hides in the columns. */
  predicate TrueLists(fields: seq<Field>, lists: Lists) {
    |lists| <= |fields| && forall c :: 0 <= c < |lists| ==> TrueColumn(fields[c].typ, lists[c])
  }

  function RowColumns(fields: seq<Field>, rows: seq<Value>, k: nat): Lists
    requires k <= |fields|
  {
    seq(k, c requires 0 <= c < k => RowColumn(rows, fields[c].name))
  }

  lemma BuiltHolds(rt: Runtime, t: DataType, vs: seq<Value>)
    ensures Build(rt, t, vs).Ok? <==> forall i :: 0 <= i < |vs| ==> Accepts(rt, t, vs[i])
    ensures Build(rt, t, vs).Ok? ==> HoldsList(rt, t, Build(rt, t, vs).value, vs)
  {
    BuildThenRead(rt, t, vs);
  }

  /** The values of one column of every row are accepted. */
  ghost predicate ColumnAccepted(rt: Runtime, field: Field, rows: seq<Value>) {
    forall r :: 0 <= r < |rows| ==> Accepts(rt, field.typ, RowColumn(rows, field.name)[r])
  }

  lemma {:induction false} RowsHold(rt: Runtime, fields: seq<Field>, rows: seq<Value>, k: nat)
    requires k <= |fields|
    ensures RowsUpTo(rt, fields, rows, k).Ok? <==> forall c :: 0 <= c < k ==> ColumnAccepted(rt, fields[c], rows)
    ensures RowsUpTo(rt, fields, rows, k).Ok? ==>
              Holds(rt, fields, RowsUpTo(rt, fields, rows, k).value, RowColumns(fields, rows, k), |rows|)
  {
    hide HoldsList, Build, Accepts, TrueColumn, GetKey;
    if k > 0 {
      RowsHold(rt, fields, rows, k - 1);
      var vs := RowColumn(rows, fields[k - 1].name);
      BuiltHolds(rt, fields[k - 1].typ, vs);
      assert ColumnAccepted(rt, fields[k - 1], rows) <==> Build(rt, fields[k - 1].typ, vs).Ok?;
      hide RowColumn, ColumnAccepted;
      assert RowColumns(fields, rows, k) == RowColumns(fields, rows, k - 1) + [vs];
    }
  }

  lemma {:induction false} ListsHold(rt: Runtime, b: RecordBatch, lists: Lists, k: nat)
    requires BatchOk(b) && Holds(rt, b.fields, b.columns, lists, b.numRows) && k <= |b.columns|
    requires TrueLists(b.fields, lists)
    ensures ListsUpTo(rt, b, k).Ok? <==> forall c :: 0 <= c < k ==> NormalItems(rt, b.fields[c].typ, lists[c]).Ok?
    ensures ListsUpTo(rt, b, k).Ok? ==>
              forall c :: 0 <= c < k ==> NormalItems(rt, b.fields[c].typ, lists[c]) == Ok(ListsUpTo(rt, b, k).value[c])
  {
    hide BatchOk, Values, NormalItems;
    if k > 0 {
      ListsHold(rt, b, lists, k - 1);
      assert HoldsList(rt, b.fields[k - 1].typ, b.columns[k - 1], lists[k - 1]);
    }
  }

  /** A row read back is the row seen as a struct value of the schema's fields, in normal form. */
  lemma {:induction false} RowIsNormal(rt: Runtime, fields: seq<Field>, row: seq<Value>, h: seq<Entry>, k: nat)
    requires k <= |fields| == |row|
    requires forall c :: 0 <= c < |fields| ==>
               NormalForm(rt, fields[c].typ, FieldValue(Struct(fields), h, c)) == Ok(row[c])
    ensures NormalFields(rt, Struct(fields), h, k) == Ok(NamedUpTo(fields, row, k))
  {
    hide NormalForm, FieldValue, SetKey;
    if k > 0 {
      RowIsNormal(rt, fields, row, h, k - 1);
    }
  }

  lemma HoldsBatch(rt: Runtime, b: RecordBatch, lists: Lists)
    requires |b.columns| == |b.fields| && b.numRows >= 0 && Holds(rt, b.fields, b.columns, lists, b.numRows)
    ensures BatchSized(b)
    ensures TrueLists(b.fields, lists) ==> BatchOk(b)
  {
    hide WellFormed, TrueColumn;
    assert forall k :: 0 <= k < |b.columns| ==> HoldsList(rt, b.fields[k].typ, b.columns[k], lists[k]);
  }

  /** Rows in, rows out. The row constructor succeeds exactly when every row is accepted as a struct value of the
      schema, and the batch then has one slot per row in every column. Unless a list of a wrong size got through the
      length check, toRows succeeds exactly when every row has a normal form, and gives those. */
  lemma RowsRoundTrip(rt: Runtime, fields: seq<Field>, rows: seq<Value>)
    ensures FromRows(rt, fields, rows).Ok?
       <==> forall r :: 0 <= r < |rows| ==> Accepts(rt, Struct(fields), QHash(RowEntries(rows[r])))
    ensures FromRows(rt, fields, rows).Ok? ==>
              var b := FromRows(rt, fields, rows).value;
              BatchSized(b) && b.numRows == |rows| && b.fields == fields
    ensures FromRows(rt, fields, rows).Ok? && TrueLists(fields, RowColumns(fields, rows, |fields|)) ==>
              var b := FromRows(rt, fields, rows).value;
              && BatchOk(b)
              && (ToRows(rt, b).Ok? <==> forall r :: 0 <= r < |rows| ==> RowForm(rt, fields, rows[r]).Ok?)
              && (ToRows(rt, b).Ok? ==>
                    && |ToRows(rt, b).value| == |rows|
                    && forall r :: 0 <= r < |rows| ==> Ok(ToRows(rt, b).value[r]) == RowForm(rt, fields, rows[r]))
  {
    hide RowsUpTo, Holds, BatchSized, BatchOk, ToRows, RowForm, TrueLists;
    RowsHold(rt, fields, rows, |fields|);
    RowsAccepted(rt, fields, rows);
    if FromRows(rt, fields, rows).Ok? {
      var b := FromRows(rt, fields, rows).value;
      var lists := RowColumns(fields, rows, |fields|);
      RowsBuilt(rt, fields, rows);
      HoldsBatch(rt, b, lists);
      if TrueLists(fields, lists) {
        RowsReadable(rt, b, rows);
        if ToRows(rt, b).Ok? {
          RowsAreRead(rt, b, rows);
        }
      }
    }
  }

  /** A row as a struct value of the schema, in normal form. */
  function RowForm(rt: Runtime, fields: seq<Field>, row: Value): Reading {
    NormalForm(rt, Struct(fields), QHash(RowEntries(row)))
  }

  lemma {:induction false} RowsBuilt(rt: Runtime, fields: seq<Field>, rows: seq<Value>)
    requires FromRows(rt, fields, rows).Ok?
    ensures var b := FromRows(rt, fields, rows).value; |b.columns| == |fields| && b.numRows == |rows| && b.fields == fields
  {
    RowsHold(rt, fields, rows, |fields|);
    hide HoldsList;
  }

  lemma RowsAreRead(rt: Runtime, b: RecordBatch, rows: seq<Value>)
    requires BatchOk(b) && b.numRows == |rows| && ToRows(rt, b).Ok?
    requires var lists := RowColumns(b.fields, rows, |b.fields|);
      Holds(rt, b.fields, b.columns, lists, |rows|) && TrueLists(b.fields, lists)
    ensures |ToRows(rt, b).value| == |rows|
    ensures forall r :: 0 <= r < |rows| ==> Ok(ToRows(rt, b).value[r]) == RowForm(rt, b.fields, rows[r])
  {
    assert |ToRows(rt, b).value| == |rows|;
    forall r | 0 <= r < |rows|
      ensures Ok(ToRows(rt, b).value[r]) == RowForm(rt, b.fields, rows[r])
    {
      hide BatchOk, Holds, TrueLists, ToRows;
      RowReadBack(rt, b, rows, r);
    }
  }

  /** Reading the rows fails exactly when some row has no normal form. */
  lemma RowsReadable(rt: Runtime, b: RecordBatch, rows: seq<Value>)
    requires BatchOk(b) && b.numRows == |rows|
    requires var lists := RowColumns(b.fields, rows, |b.fields|);
      Holds(rt, b.fields, b.columns, lists, |rows|) && TrueLists(b.fields, lists)
    ensures ToRows(rt, b).Ok? <==> forall r :: 0 <= r < |rows| ==> RowForm(rt, b.fields, rows[r]).Ok?
  {
    hide BatchOk, BatchSized, Holds, TrueLists, NormalItems, NormalForm, RowForm;
    var lists := RowColumns(b.fields, rows, |b.fields|);
    BatchColumns(b);
    ListsHold(rt, b, lists, |b.columns|);
    forall c | 0 <= c < |b.fields|
      ensures NormalItems(rt, b.fields[c].typ, lists[c]).Ok?
         <==> forall r :: 0 <= r < |rows| ==> NormalForm(rt, b.fields[c].typ, lists[c][r]).Ok?
    {
      NormalItemsOk(rt, b.fields[c].typ, lists[c]);
    }
    forall r | 0 <= r < |rows|
      ensures RowForm(rt, b.fields, rows[r]).Ok?
         <==> forall c :: 0 <= c < |b.fields| ==> NormalForm(rt, b.fields[c].typ, lists[c][r]).Ok?
    {
      RowFormOk(rt, b.fields, rows, r);
    }
  }

  lemma BatchColumns(b: RecordBatch)
    requires BatchOk(b)
    ensures |b.columns| == |b.fields|
  {
  }

  lemma {:induction false} NormalItemsOk(rt: Runtime, t: DataType, vs: seq<Value>)
    ensures NormalItems(rt, t, vs).Ok? <==> forall i :: 0 <= i < |vs| ==> NormalForm(rt, t, vs[i]).Ok?
    decreases |vs|
  {
    hide NormalForm;
    if vs != [] {
      var n := |vs| - 1;
      NormalItemsOk(rt, t, vs[..n]);
      assert forall i :: 0 <= i < n ==> vs[..n][i] == vs[i];
    }
  }

  lemma RowFormOk(rt: Runtime, fields: seq<Field>, rows: seq<Value>, r: nat)
    requires r < |rows|
    ensures RowForm(rt, fields, rows[r]).Ok?
       <==> forall c :: 0 <= c < |fields| ==> NormalForm(rt, fields[c].typ, RowColumns(fields, rows, |fields|)[c][r]).Ok?
  {
    var h := RowEntries(rows[r]);
    NormalFieldsOk(rt, Struct(fields), h, |fields|);
    hide NormalFields, CStr, GetKey, RowEntries;
    forall c | 0 <= c < |fields|
      ensures FieldValue(Struct(fields), h, c) == RowColumns(fields, rows, |fields|)[c][r]
    {
    }
    hide FieldValue, RowColumns;
    assert RowForm(rt, fields, rows[r]) == HashValue(NormalFields(rt, Struct(fields), h, |fields|));
    hide NormalForm;
  }

  lemma {:induction false} NormalFieldsOk(rt: Runtime, t: DataType, h: seq<Entry>, k: nat)
    requires t.Struct? && k <= |t.fields|
    ensures NormalFields(rt, t, h, k).Ok?
       <==> forall c :: 0 <= c < k ==> NormalForm(rt, t.fields[c].typ, FieldValue(t, h, c)).Ok?
    decreases k
  {
    hide NormalForm, FieldValue;
    if k > 0 {
      NormalFieldsOk(rt, t, h, k - 1);
    }
  }

  lemma RowsAccepted(rt: Runtime, fields: seq<Field>, rows: seq<Value>)
    ensures (forall c :: 0 <= c < |fields| ==> ColumnAccepted(rt, fields[c], rows))
       <==> forall r :: 0 <= r < |rows| ==> Accepts(rt, Struct(fields), QHash(RowEntries(rows[r])))
  {
    forall r | 0 <= r < |rows|
      ensures Accepts(rt, Struct(fields), QHash(RowEntries(rows[r])))
         <==> forall c :: 0 <= c < |fields| ==> Accepts(rt, fields[c].typ, RowColumn(rows, fields[c].name)[r])
    {
      RowAccepted(rt, fields, rows, r);
    }
    hide Accepts, RowColumn, RowEntries;
  }

  lemma RowAccepted(rt: Runtime, fields: seq<Field>, rows: seq<Value>, r: nat)
    requires r < |rows|
    ensures Accepts(rt, Struct(fields), QHash(RowEntries(rows[r])))
       <==> forall c :: 0 <= c < |fields| ==> Accepts(rt, fields[c].typ, RowColumn(rows, fields[c].name)[r])
  {
    hide CStr, GetKey, RowEntries, Encode;
    assert forall c :: 0 <= c < |fields| ==>
      FieldValue(Struct(fields), RowEntries(rows[r]), c) == RowColumn(rows, fields[c].name)[r];
    hide FieldValue, RowColumn;
  }

  lemma RowReadBack(rt: Runtime, b: RecordBatch, rows: seq<Value>, r: nat)
    requires BatchOk(b) && b.numRows == |rows| && r < |rows| && ToRows(rt, b).Ok?
    requires var lists := RowColumns(b.fields, rows, |b.fields|);
      Holds(rt, b.fields, b.columns, lists, |rows|) && TrueLists(b.fields, lists)
    ensures Ok(ToRows(rt, b).value[r]) == RowForm(rt, b.fields, rows[r])
  {
    hide BatchOk, BatchSized, Holds, TrueLists, NormalItems, NormalForm, ListsUpTo, NamedUpTo, RowEntries, NormalFields;
    var lists := RowColumns(b.fields, rows, |b.fields|);
    BatchColumns(b);
    ListsHold(rt, b, lists, |b.columns|);
    var read := ListsUpTo(rt, b, |b.columns|).value;
    var h := RowEntries(rows[r]);
    forall c | 0 <= c < |b.fields|
      ensures NormalForm(rt, b.fields[c].typ, FieldValue(Struct(b.fields), h, c)) == Ok(Row(read, r)[c])
    {
      hide GetKey, CStr;
      NormalItemsAt(rt, b.fields[c].typ, lists[c], r);
    }
    RowIsNormal(rt, b.fields, Row(read, r), h, |b.fields|);
    RowFormIs(rt, b.fields, rows[r]);
  }

  lemma RowFormIs(rt: Runtime, fields: seq<Field>, row: Value)
    ensures RowForm(rt, fields, row) == HashValue(NormalFields(rt, Struct(fields), RowEntries(row), |fields|))
  {
    hide NormalFields, RowEntries;
  }

  /** The lists a hash of columns gives for the first k fields. */
  function ColumnLists(fields: seq<Field>, h: seq<Entry>, k: nat): Lists
    requires k <= |fields|
  {
    seq(k, c requires 0 <= c < k => ColumnList(h, fields[c].name))
  }

  function ColumnList(h: seq<Entry>, name: string): seq<Value> {
    var v := GetKey(h, CStr(name));
    if v.QList? then v.items else []
  }

  /** A hash of columns fits the schema: a list for every field, all as long as the first, all values accepted. */
  ghost predicate ColumnsFit(rt: Runtime, fields: seq<Field>, h: seq<Entry>, k: nat)
    requires k <= |fields|
  {
    forall c :: 0 <= c < k ==> ColumnFits(rt, fields[c], h, |ColumnList(h, fields[0].name)|)
  }

  ghost predicate ColumnFits(rt: Runtime, field: Field, h: seq<Entry>, n: nat) {
    && GetKey(h, CStr(field.name)).QList?
    && |ColumnList(h, field.name)| == n
    && forall i :: 0 <= i < n ==> Accepts(rt, field.typ, ColumnList(h, field.name)[i])
  }

  lemma {:induction false} ColumnsHold(rt: Runtime, fields: seq<Field>, h: seq<Entry>, k: nat)
    requires k <= |fields|
    ensures ColumnsUpTo(rt, fields, h, k).Ok? <==> ColumnsFit(rt, fields, h, k)
    ensures ColumnsUpTo(rt, fields, h, k).Ok? ==>
              var p := ColumnsUpTo(rt, fields, h, k).value;
              && p.numRows == (if k == 0 then -1 else |ColumnList(h, fields[0].name)|)
              && Holds(rt, fields, p.columns, ColumnLists(fields, h, k), if k == 0 then 0 else p.numRows)
  {
    hide HoldsList, Build, Accepts, GetKey, TrueColumn, CStr, Holds, ColumnsFit;
    if k == 0 {
      EmptyHolds(rt, fields, h);
    } else {
      ColumnsHold(rt, fields, h, k - 1);
      var vs := ColumnList(h, fields[k - 1].name);
      BuiltHolds(rt, fields[k - 1].typ, vs);
      ColumnsFitStep(rt, fields, h, k);
      var p := ColumnsUpTo(rt, fields, h, k);
      if p.Ok? {
        assert ColumnLists(fields, h, k) == ColumnLists(fields, h, k - 1) + [vs];
        var before := ColumnsUpTo(rt, fields, h, k - 1).value;
        OneMoreColumn(rt, fields, before.columns, ColumnLists(fields, h, k - 1), Build(rt, fields[k - 1].typ, vs).value, vs);
      }
    }
  }

  lemma EmptyHolds(rt: Runtime, fields: seq<Field>, h: seq<Entry>)
    ensures Holds(rt, fields, [], ColumnLists(fields, h, 0), 0)
    ensures ColumnsFit(rt, fields, h, 0)
  {
  }

  lemma OneMoreColumn(rt: Runtime, fields: seq<Field>, columns: seq<Array>, lists: Lists, a: Array, vs: seq<Value>)
    requires |lists| < |fields| && HoldsList(rt, fields[|lists|].typ, a, vs)
    requires Holds(rt, fields, columns, lists, if lists == [] then 0 else |vs|)
    ensures Holds(rt, fields, columns + [a], lists + [vs], |vs|)
  {
    hide HoldsList;
  }

  lemma ColumnsFitStep(rt: Runtime, fields: seq<Field>, h: seq<Entry>, k: nat)
    requires 0 < k <= |fields|
    ensures ColumnsFit(rt, fields, h, k)
       <==> ColumnsFit(rt, fields, h, k - 1) && ColumnFits(rt, fields[k - 1], h, |ColumnList(h, fields[0].name)|)
  {
    hide ColumnFits, ColumnList;
  }

  /** Columns in, columns out. The column constructor succeeds exactly when the hash fits the schema, and every column
      of the batch then has num_rows slots. Unless a list of a wrong size got through the length check, toColumns
      succeeds exactly when every list has a normal form, and gives those. */
  lemma ColumnsRoundTrip(rt: Runtime, fields: seq<Field>, h: seq<Entry>)
    ensures FromColumns(rt, fields, h).Ok? <==> ColumnsFit(rt, fields, h, |fields|)
    ensures FromColumns(rt, fields, h).Ok? ==>
              var b := FromColumns(rt, fields, h).value;
              && BatchSized(b) && b.fields == fields
              && b.numRows == (if fields == [] then 0 else |ColumnList(h, fields[0].name)|)
    ensures FromColumns(rt, fields, h).Ok? && TrueLists(fields, ColumnLists(fields, h, |fields|)) ==>
              var b := FromColumns(rt, fields, h).value;
              && BatchOk(b)
              && (ToColumns(rt, b).Ok? <==> forall c :: 0 <= c < |fields| ==> ColumnForm(rt, fields[c], h).Ok?)
              && (ToColumns(rt, b).Ok? ==>
                    forall c :: 0 <= c < |fields| && (forall d :: c < d < |fields| ==> fields[d].name != fields[c].name) ==>
                      ColumnForm(rt, fields[c], h).Ok?
                      && GetKey(ToColumns(rt, b).value, fields[c].name) == QList(ColumnForm(rt, fields[c], h).value))
  {
    hide ColumnsUpTo, Holds, BatchSized, BatchOk, ColumnsFit, NormalItems, ToColumns, TrueLists, GetKey;
    ColumnsHold(rt, fields, h, |fields|);
    if FromColumns(rt, fields, h).Ok? {
      var b, lists := FromColumns(rt, fields, h).value, ColumnLists(fields, h, |fields|);
      HoldsLength(rt, fields, b.columns, lists, if fields == [] then 0 else b.numRows);
      HoldsBatch(rt, b, lists);
      if TrueLists(fields, lists) {
        ColumnsAreRead(rt, b, h);
      }
    }
  }

  /** The list under the name of a field, in normal form. */
  function ColumnForm(rt: Runtime, field: Field, h: seq<Entry>): Result<seq<Value>, ConvertError> {
    NormalItems(rt, field.typ, ColumnList(h, field.name))
  }

  lemma ColumnsAreRead(rt: Runtime, b: RecordBatch, h: seq<Entry>)
    requires var lists := ColumnLists(b.fields, h, |b.fields|);
      BatchOk(b) && Holds(rt, b.fields, b.columns, lists, b.numRows) && TrueLists(b.fields, lists)
    ensures ToColumns(rt, b).Ok? <==> forall c :: 0 <= c < |b.fields| ==> ColumnForm(rt, b.fields[c], h).Ok?
    ensures ToColumns(rt, b).Ok? ==>
      forall c :: 0 <= c < |b.fields| && (forall d :: c < d < |b.fields| ==> b.fields[d].name != b.fields[c].name) ==>
        ColumnForm(rt, b.fields[c], h).Ok?
        && GetKey(ToColumns(rt, b).value, b.fields[c].name) == QList(ColumnForm(rt, b.fields[c], h).value)
  {
    hide Holds, BatchOk, BatchSized, NormalItems, TrueLists, GetKey, ListsUpTo, NamedUpTo;
    var lists := ColumnLists(b.fields, h, |b.fields|);
    BatchColumns(b);
    ListsHold(rt, b, lists, |b.columns|);
    if ToColumns(rt, b).Ok? {
      forall c | 0 <= c < |b.fields| && (forall d :: c < d < |b.fields| ==> b.fields[d].name != b.fields[c].name)
        ensures ColumnForm(rt, b.fields[c], h).Ok?
          && GetKey(ToColumns(rt, b).value, b.fields[c].name) == QList(ColumnForm(rt, b.fields[c], h).value)
      {
        ColumnReadBack(rt, b, lists, c);
      }
    }
  }

  /** A key that names no field changes nothing: hashes with other names than the schema are not refused for them. */
  lemma ExtraKeyIgnored(rt: Runtime, fields: seq<Field>, h: seq<Entry>, key: string, v: Value)
    requires forall c :: 0 <= c < |fields| ==> CStr(fields[c].name) != key
    ensures FromColumns(rt, fields, SetKey(h, key, v)) == FromColumns(rt, fields, h)
  {
    hide ColumnsUpTo;
    ExtraKeyUpTo(rt, fields, h, key, v, |fields|);
  }

  lemma {:induction false} ExtraKeyUpTo(rt: Runtime, fields: seq<Field>, h: seq<Entry>, key: string, v: Value, k: nat)
    requires k <= |fields| && forall c :: 0 <= c < |fields| ==> CStr(fields[c].name) != key
    ensures ColumnsUpTo(rt, fields, SetKey(h, key, v), k) == ColumnsUpTo(rt, fields, h, k)
    decreases k
  {
    hide AddColumn, GetKey, SetKey, CStr;
    if k > 0 {
      ExtraKeyUpTo(rt, fields, h, key, v, k - 1);
      SetThenGet(h, key, v, CStr(fields[k - 1].name));
    }
  }

  /** The first column that is missing: the ones before it fit. */
  ghost predicate MissesFirst(rt: Runtime, fields: seq<Field>, h: seq<Entry>, c: int) {
    0 <= c < |fields| && ColumnsFit(rt, fields, h, c) && !GetKey(h, CStr(fields[c].name)).QList?
  }

  /** A hash is refused for its names exactly when a field's name has no list, and all columns before it fit. */
  lemma MissingColumnExactly(rt: Runtime, fields: seq<Field>, h: seq<Entry>, name: string)
    ensures FromColumns(rt, fields, h) == Err(MissingColumn(name))
       <==> exists c :: MissesFirst(rt, fields, h, c) && fields[c].name == name
  {
    hide ColumnsUpTo, ColumnsFit;
    MissingUpTo(rt, fields, h, |fields|, name);
  }

  lemma {:induction false} MissingUpTo(rt: Runtime, fields: seq<Field>, h: seq<Entry>, k: nat, name: string)
    requires k <= |fields|
    ensures ColumnsUpTo(rt, fields, h, k) == Err(MissingColumn(name))
       <==> exists c :: c < k && MissesFirst(rt, fields, h, c) && fields[c].name == name
    decreases k
  {
    hide ColumnsFit, ColumnsUpTo, GetKey, CStr, Holds;
    if k == 0 {
      assert ColumnsUpTo(rt, fields, h, 0).Ok? by { ColumnsHold(rt, fields, h, 0); EmptyHolds(rt, fields, h); }
    } else {
      MissingUpTo(rt, fields, h, k - 1, name);
      ColumnsHold(rt, fields, h, k - 1);
      MissingStep(rt, fields, h, k, name);
      if ColumnsUpTo(rt, fields, h, k - 1).Ok? {
        ListsOfFit(rt, fields, h, k - 1);
      }
      assert MissesFirst(rt, fields, h, k - 1)
        <==> ColumnsUpTo(rt, fields, h, k - 1).Ok? && !GetKey(h, CStr(fields[k - 1].name)).QList?;
    }
  }

  lemma MissingStep(rt: Runtime, fields: seq<Field>, h: seq<Entry>, k: nat, name: string)
    requires 0 < k <= |fields|
    ensures var before := ColumnsUpTo(rt, fields, h, k - 1);
      ColumnsUpTo(rt, fields, h, k) == Err(MissingColumn(name))
      <==> if before.Err? then before == Err(MissingColumn(name))
           else !GetKey(h, CStr(fields[k - 1].name)).QList? && fields[k - 1].name == name
  {
    hide Build, GetKey, CStr;
  }

  lemma ListsOfFit(rt: Runtime, fields: seq<Field>, h: seq<Entry>, k: nat)
    requires k <= |fields| && ColumnsFit(rt, fields, h, k)
    ensures forall c :: 0 <= c < k ==> GetKey(h, CStr(fields[c].name)).QList?
  {
    hide GetKey, CStr, ColumnList, Accepts;
    forall c | 0 <= c < k
      ensures GetKey(h, CStr(fields[c].name)).QList?
    {
      assert ColumnFits(rt, fields[c], h, |ColumnList(h, fields[0].name)|);
    }
  }

  lemma HoldsLength(rt: Runtime, fields: seq<Field>, columns: seq<Array>, lists: Lists, n: int)
    requires Holds(rt, fields, columns, lists, n)
    ensures |columns| == |lists|
  {
  }

  lemma ColumnReadBack(rt: Runtime, b: RecordBatch, lists: Lists, c: nat)
    requires BatchOk(b) && Holds(rt, b.fields, b.columns, lists, b.numRows) && |lists| == |b.fields|
    requires TrueLists(b.fields, lists)
    requires c < |b.fields| && forall d :: c < d < |b.fields| ==> b.fields[d].name != b.fields[c].name
    requires ToColumns(rt, b).Ok?
    ensures var list := NormalItems(rt, b.fields[c].typ, lists[c]);
      list.Ok? && GetKey(ToColumns(rt, b).value, b.fields[c].name) == QList(list.value)
  {
    hide BatchOk, Holds, NormalItems, GetKey, NamedUpTo, ListsUpTo;
    HoldsLength(rt, b.fields, b.columns, lists, b.numRows);
    ListsHold(rt, b, lists, |b.columns|);
    var read := ListsUpTo(rt, b, |b.columns|).value;
    NamedGet(b.fields, ListValues(read), |b.fields|, b.fields[c].name);
  }

  // Rows and columns are transposes of each other

  /** The last of the first k fields with this name, or k when there is none. */
  function LastNamed(fields: seq<Field>, name: string, k: nat): (j: nat)
    requires k <= |fields|
    ensures j < k ==> fields[j].name == name
    ensures forall i :: j < i < k ==> fields[i].name != name
    ensures j == k || j < k
    ensures j == k ==> forall i :: 0 <= i < k ==> fields[i].name != name
  {
    if k == 0 then 0
    else if fields[k - 1].name == name then k - 1
    else
      var j := LastNamed(fields, name, k - 1);
      if j == k - 1 then k else j
  }

  lemma {:induction false} NamedGet(fields: seq<Field>, row: seq<Value>, k: nat, name: string)
    requires k <= |fields| && k <= |row|
    ensures GetKey(NamedUpTo(fields, row, k), name)
         == (if LastNamed(fields, name, k) < k then row[LastNamed(fields, name, k)] else QNothing)
  {
    hide SetKey;
    if k > 0 {
      NamedGet(fields, row, k - 1, name);
      SetThenGet(NamedUpTo(fields, row, k - 1), fields[k - 1].name, row[k - 1], name);
    }
  }

  /** Row r and the column under the name of field c hold the same value. */
  ghost predicate SameCell(rows: seq<Value>, h: seq<Entry>, name: string, r: nat)
    requires r < |rows|
  {
    var column := GetKey(h, name);
    && column.QList? && |column.items| == |rows| && rows[r].QHash?
    && GetKey(rows[r].entries, name) == column.items[r]
  }

  /** toRows is the transpose of toColumns: both succeed or raise the same error, and value r of the column under a
      name is the value under that name in row r. */
  lemma RowsAreTransposedColumns(rt: Runtime, b: RecordBatch)
    requires BatchOk(b)
    ensures ToRows(rt, b).Err? ==> ToColumns(rt, b) == Err(ToRows(rt, b).error)
    ensures ToRows(rt, b).Ok? ==>
              && ToColumns(rt, b).Ok? && |ToRows(rt, b).value| == b.numRows
              && forall r, c :: 0 <= r < b.numRows && 0 <= c < |b.fields| ==>
                   SameCell(ToRows(rt, b).value, ToColumns(rt, b).value, b.fields[c].name, r)
  {
    if ToRows(rt, b).Ok? {
      forall r, c | 0 <= r < b.numRows && 0 <= c < |b.fields|
        ensures SameCell(ToRows(rt, b).value, ToColumns(rt, b).value, b.fields[c].name, r)
      {
        CellTransposed(rt, b, r, c);
      }
    }
  }

  lemma BothFromLists(rt: Runtime, b: RecordBatch, r: nat)
    requires BatchOk(b) && ToRows(rt, b).Ok? && r < b.numRows
    ensures var lists := ListsUpTo(rt, b, |b.columns|);
      && lists.Ok? && |lists.value| == |b.fields| && (forall c :: 0 <= c < |lists.value| ==> |lists.value[c]| == b.numRows)
      && |ToRows(rt, b).value| == b.numRows
      && ToRows(rt, b).value[r] == QHash(NamedUpTo(b.fields, Row(lists.value, r), |b.fields|))
      && ToColumns(rt, b) == Ok(NamedUpTo(b.fields, ListValues(lists.value), |b.fields|))
  {
    hide WellFormed, ListsUpTo, NamedUpTo;
  }

  lemma CellTransposed(rt: Runtime, b: RecordBatch, r: nat, c: nat)
    requires BatchOk(b) && ToRows(rt, b).Ok? && r < b.numRows && c < |b.fields|
    ensures ToColumns(rt, b).Ok?
    ensures SameCell(ToRows(rt, b).value, ToColumns(rt, b).value, b.fields[c].name, r)
  {
    hide WellFormed, ListsUpTo, NamedUpTo, BatchOk, ToRows, ToColumns, GetKey, LastNamed;
    BothFromLists(rt, b, r);
    var lists := ListsUpTo(rt, b, |b.columns|).value;
    NamedGet(b.fields, Row(lists, r), |b.fields|, b.fields[c].name);
    NamedGet(b.fields, ListValues(lists), |b.fields|, b.fields[c].name);
  }

  /** The hash of columns that holds the same data as a list of rows, for the first k fields. */
  function Transposed(fields: seq<Field>, rows: seq<Value>, k: nat): seq<Entry>
    requires k <= |fields|
  {
    if k == 0 then []
    else
      var name := fields[k - 1].name;
      SetKey(Transposed(fields, rows, k - 1), CStr(name), QList(RowColumn(rows, name)))
  }

  lemma {:induction false} TransposedColumn(fields: seq<Field>, rows: seq<Value>, k: nat, c: nat)
    requires c < k <= |fields|
    ensures GetKey(Transposed(fields, rows, k), CStr(fields[c].name)) == QList(RowColumn(rows, fields[c].name))
  {
    hide GetKey, SetKey, CStr;
    var last := fields[k - 1].name;
    SetThenGet(Transposed(fields, rows, k - 1), CStr(last), QList(RowColumn(rows, last)), CStr(fields[c].name));
    if CStr(last) == CStr(fields[c].name) {
      assert RowColumn(rows, last) == RowColumn(rows, fields[c].name);
    } else {
      TransposedColumn(fields, rows, k - 1, c);
    }
  }

  /** Building from rows is building from the transposed columns, the same batch or the same error, except that without
      fields the column constructor cannot count the rows. */
  lemma RowsAsColumns(rt: Runtime, fields: seq<Field>, rows: seq<Value>)
    ensures FromRows(rt, fields, rows) == FromColumns(rt, fields, Transposed(fields, rows, |fields|))
       <==> fields != [] || rows == []
  {
    hide RowsUpTo, ColumnsUpTo, Transposed;
    RowsAsColumnsUpTo(rt, fields, rows, |fields|);
    var r := RowsUpTo(rt, fields, rows, |fields|);
    var p := ColumnsUpTo(rt, fields, Transposed(fields, rows, |fields|), |fields|);
    if fields == [] {
      NoFields(rt, rows);
    } else if r.Err? {
      assert p == Err(r.error);
      assert FromRows(rt, fields, rows) == Err(r.error);
    } else {
      assert p == Ok(Partial(|rows|, r.value));
      assert FromColumns(rt, fields, Transposed(fields, rows, |fields|)) == Ok(RecordBatch(fields, |rows|, r.value));
    }
  }

  lemma NoFields(rt: Runtime, rows: seq<Value>)
    ensures FromRows(rt, [], rows) == Ok(RecordBatch([], |rows|, []))
    ensures FromColumns(rt, [], Transposed([], rows, 0)) == Ok(RecordBatch([], 0, []))
  {
  }

  lemma {:induction false} RowsAsColumnsUpTo(rt: Runtime, fields: seq<Field>, rows: seq<Value>, k: nat)
    requires k <= |fields|
    ensures ColumnsUpTo(rt, fields, Transposed(fields, rows, |fields|), k)
         == (var r := RowsUpTo(rt, fields, rows, k);
             if r.Err? then Err(r.error) else Ok(Partial(if k == 0 then -1 else |rows|, r.value)))
  {
    hide Transposed, GetKey, CStr, Build;
    if k > 0 {
      RowsAsColumnsUpTo(rt, fields, rows, k - 1);
      TransposedColumn(fields, rows, |fields|, k - 1);
    }
  }
}
