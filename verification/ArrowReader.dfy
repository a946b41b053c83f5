/** The reading loops of scalarToQore and arrayToList, proved against the specification in ArrowArrays. */
module ArrowReader {
  import opened Wrappers
  import opened QoreValues
  import opened Scalars
  import opened ArrowArrays

  // The first error of a loop is the error of the whole loop.

  lemma {:induction false} RangeErrorStays(rt: Runtime, a: Array, start: nat, m: nat, n: nat)
    requires WellFormed(a) && start + n <= a.length && m <= n
    requires ReadRange(rt, a, start, m).Err?
    ensures ReadRange(rt, a, start, n) == ReadRange(rt, a, start, m)
  {
    hide WellFormed, Read;
    if m < n {
      RangeErrorStays(rt, a, start, m, n - 1);
    }
  }

  lemma {:induction false} FieldsErrorStays(rt: Runtime, a: Array, i: nat, m: nat, n: nat)
    requires WellFormed(a) && i < a.length
    requires a.data.typ.Struct? && m <= n <= |a.data.typ.fields|
    requires ReadFields(rt, a, i, m).Err?
    ensures ReadFields(rt, a, i, n) == ReadFields(rt, a, i, m)
  {
    hide WellFormed, ReadKid;
    StructKids(a);
    if m < n {
      FieldsErrorStays(rt, a, i, m, n - 1);
    }
  }

  lemma {:induction false} EntriesErrorStays(rt: Runtime, d: Buffers, start: nat, m: nat, n: nat)
    requires KidsOk(d) && d.typ.Map?
    requires start + n <= d.kids[0].length && start + n <= d.kids[1].length && m <= n
    requires ReadEntries(rt, d, start, m).Err?
    ensures ReadEntries(rt, d, start, n) == ReadEntries(rt, d, start, m)
  {
    hide KidsOk, WellFormed, Read;
    MapKids(d);
    if m < n {
      EntriesErrorStays(rt, d, start, m, n - 1);
    }
  }

  /** scalarToQore. */
  method ScalarToQore(rt: Runtime, a: Array, i: nat) returns (r: Reading)
    requires WellFormed(a) && i < a.length
    ensures r == Read(rt, a, i)
    decreases a.data.typ, 1
  {
    var d, p := a.data, a.offset + i;
    assert KidsOk(d);
    if IsNull(d, p) {
      return Ok(QNothing);
    }
    assert SlotOk(d, p);
    if IsList(d.typ) {
      var vs := ScalarRange(rt, d.kids[0], WindowStart(d, p), WindowLength(d, p));
      r := ListValue(vs);
    } else if d.typ.Map? {
      var h := ScalarEntries(rt, d, WindowStart(d, p), WindowLength(d, p));
      r := HashValue(h);
    } else if d.typ.Struct? {
      var h := ScalarFields(rt, a, i);
      r := HashValue(h);
    } else if d.typ.Dictionary? {
      r := ScalarOfDictionary(rt, a, i);
    } else if d.typ.Union? {
      r := ScalarOfUnion(rt, a, i);
    } else {
      r := Decode(rt, d.typ, d.cells[p]);
    }
  }

  /** The value an index into a dictionary stands for. */
  method ScalarOfDictionary(rt: Runtime, a: Array, i: nat) returns (r: Reading)
    requires WellFormed(a) && i < a.length && a.data.typ.Dictionary? && !IsNull(a.data, a.offset + i)
    ensures r == Read(rt, a, i)
    decreases a.data.typ, 0
  {
    var d, p := a.data, a.offset + i;
    assert KidsOk(d) && SlotOk(d, p);
    var found := Decode(rt, d.typ.index, d.cells[p]);
    if found.Err? {
      return found;
    }
    var k := AsBigInt(rt, found.value);
    hide Decode, AsBigInt, SlotOk;
    if k < 0 || k >= d.kids[0].length {
      return Err(DictionaryIndex(k));
    }
    r := ScalarToQore(rt, d.kids[0], k);
  }

  /** The value of the child a union slot chooses. */
  method ScalarOfUnion(rt: Runtime, a: Array, i: nat) returns (r: Reading)
    requires WellFormed(a) && i < a.length && a.data.typ.Union? && !IsNull(a.data, a.offset + i)
    ensures r == Read(rt, a, i)
    decreases a.data.typ, 0
  {
    var d, p := a.data, a.offset + i;
    assert KidsOk(d) && SlotOk(d, p);
    var id := ChildId(d.typ.codes, d.cells[p].n);
    if d.typ.sparse {
      SliceWellFormed(d.kids[id], a.offset, a.length);
      r := ScalarToQore(rt, Slice(d.kids[id], a.offset, a.length), i);
    } else {
      r := ScalarToQore(rt, d.kids[id], d.offsets[p]);
    }
  }

  /** The loop over the fields of a struct value. */
  method ScalarFields(rt: Runtime, a: Array, i: nat) returns (r: Result<seq<Entry>, ConvertError>)
    requires WellFormed(a) && i < a.length && a.data.typ.Struct?
    ensures r == ReadFields(rt, a, i, |a.data.typ.fields|)
    decreases a.data.typ, 0
  {
    hide WellFormed, KidsOk, Read;
    StructKids(a);
    var h: seq<Entry> := [];
    for k := 0 to |a.data.typ.fields|
      invariant ReadFields(rt, a, i, k) == Ok(h)
    {
      WindowedKid(a, k);
      var v := ScalarToQore(rt, Slice(a.data.kids[k], a.offset, a.length), i);
      assert v == ReadKid(rt, a, k, i);
      if v.Err? {
        FieldsErrorStays(rt, a, i, k + 1, |a.data.typ.fields|);
        return Err(v.error);
      }
      h := SetKey(h, a.data.typ.fields[k].name, v.value);
    }
    r := Ok(h);
  }

  /** The loop over the elements of a list value, and over the slots of a whole column. */
  method ScalarRange(rt: Runtime, a: Array, start: nat, n: nat) returns (r: Result<seq<Value>, ConvertError>)
    requires WellFormed(a) && start + n <= a.length
    ensures r == ReadRange(rt, a, start, n)
    decreases a.data.typ, 2
  {
    hide WellFormed, Read;
    var vs: seq<Value> := [];
    for k := 0 to n
      invariant ReadRange(rt, a, start, k) == Ok(vs)
    {
      var v := ScalarToQore(rt, a, start + k);
      if v.Err? {
        RangeErrorStays(rt, a, start, k + 1, n);
        return Err(v.error);
      }
      vs := vs + [v.value];
    }
    r := Ok(vs);
  }

  /** The loop over the keys and items of a map value. */
  method ScalarEntries(rt: Runtime, d: Buffers, start: nat, n: nat) returns (r: Result<seq<Entry>, ConvertError>)
    requires KidsOk(d) && d.typ.Map?
    requires start + n <= d.kids[0].length && start + n <= d.kids[1].length
    ensures r == ReadEntries(rt, d, start, n)
    decreases d.typ, 0
  {
    hide KidsOk, WellFormed, Read, ChildTypes;
    MapKids(d);
    var h: seq<Entry> := [];
    for k := 0 to n
      invariant ReadEntries(rt, d, start, k) == Ok(h)
    {
      var key := ScalarToQore(rt, d.kids[0], start + k);
      if key.Err? {
        EntriesErrorStays(rt, d, start, k + 1, n);
        return Err(key.error);
      }
      var item := ScalarToQore(rt, d.kids[1], start + k);
      var next := AddEntry(rt, Ok(h), key, item);
      assert ReadEntries(rt, d, start, k + 1) == next;
      if next.Err? {
        EntriesErrorStays(rt, d, start, k + 1, n);
        return next;
      }
      h := next.value;
    }
    r := Ok(h);
  }

  /** arrayToList: the values of the array in order, or an error and no list. */
  method ArrayToList(rt: Runtime, a: Array) returns (r: Result<seq<Value>, ConvertError>)
    requires WellFormed(a)
    ensures r == Values(rt, a)
    ensures r.Ok? ==> |r.value| == a.length
  {
    r := ScalarRange(rt, a, 0, a.length);
  }
}
