/** The length check of a fixed-size list casts the length to 32 bits. This is exactly what lets a builder tree lose its
    shape: it stays well formed if and only if every list that passes the check has the declared size. */
module ListSizes {
  import opened ArrowTypes
  import opened QoreValues
  import opened Scalars
  import opened ArrowArrays
  import opened BuilderColumns
  import opened ColumnMeaning
  import opened ColumnGrowth
  import opened ColumnRoundTrip

  /** Somewhere in the tree a fixed-size list has more elements below it than its slots account for. */
  ghost predicate Overfull(c: Column)
    decreases c
  {
    || (c.typ.FixedSizeList? && |c.kids| > 0 && Len(c.kids[0]) > Len(c) * c.typ.listSize)
    || exists k :: 0 <= k < |c.kids| && Overfull(c.kids[k])
  }

  lemma {:induction false} OverfullIsUnbalanced(c: Column)
    requires Overfull(c)
    ensures !Balanced(c)
    decreases c
  {
    if Balanced(c) {
      BalancedNode(c);
      var k :| 0 <= k < |c.kids| && Overfull(c.kids[k]);
      OverfullIsUnbalanced(c.kids[k]);
    }
  }

  // The loops over fields and entries, child by child

  lemma {:induction false} FieldsEach(rt: Runtime, t: DataType, kids: seq<Column>, h: seq<Entry>, k: nat)
    requires t.Struct? && KidsShaped(t, kids) && k <= |kids| == |t.fields|
    ensures var s := AppendFields(rt, t, kids, h, k);
      s.error.None? ==>
        && |s.kids| == |kids|
        && (forall j :: k <= j < |kids| ==> s.kids[j] == kids[j])
        && forall j :: 0 <= j < k ==> Shaped(kids[j]) && FieldAppended(rt, t, kids[j], s.kids[j], h, j)
    decreases k
  {
    hide AppendField, Shaped, FieldAppended, KidsShaped;
    if k > 0 {
      FieldsEach(rt, t, kids, h, k - 1);
      var s := AppendFields(rt, t, kids, h, k - 1);
      if s.error.None? {
        FieldEach(rt, t, kids, s.kids, h, k - 1);
      }
    }
  }

  lemma FieldEach(rt: Runtime, t: DataType, kids: seq<Column>, before: seq<Column>, h: seq<Entry>, j: nat)
    requires t.Struct? && KidsShaped(t, before) && j < |t.fields| == |before| == |kids| && before[j] == kids[j]
    ensures Shaped(kids[j])
    ensures var s := AppendField(rt, t, before, h, j);
      s.error.None? ==>
        && |s.kids| == |before| && (forall i :: 0 <= i < |before| && i != j ==> s.kids[i] == before[i])
        && FieldAppended(rt, t, kids[j], s.kids[j], h, j)
  {
    hide Append, FieldValue, Shaped;
  }

  ghost predicate FieldAppended(rt: Runtime, t: DataType, kid: Column, after: Column, h: seq<Entry>, j: nat)
    requires t.Struct? && j < |t.fields| && Shaped(kid)
  {
    var one := Append(rt, kid, FieldValue(t, h, j));
    one.error.None? && after == one.col
  }

  function KeysOf(h: seq<Entry>): (vs: seq<Value>)
    ensures |vs| == |h|
  {
    seq(|h|, i requires 0 <= i < |h| => QString(CStr(h[i].key)))
  }

  function ItemsOf(h: seq<Entry>): (vs: seq<Value>)
    ensures |vs| == |h|
  {
    seq(|h|, i requires 0 <= i < |h| => h[i].value)
  }

  lemma {:induction false} EntriesEach(rt: Runtime, t: DataType, kids: seq<Column>, h: seq<Entry>)
    requires t.Map? && KidsShaped(t, kids)
    ensures |kids| == 2 && Shaped(kids[0]) && Shaped(kids[1])
    ensures var s := AppendEntries(rt, t, kids, h);
      s.error.None? ==>
        var keys, items := AppendAll(rt, kids[0], KeysOf(h)), AppendAll(rt, kids[1], ItemsOf(h));
        keys.error.None? && items.error.None? && s.kids == [keys.col, items.col]
    decreases |h|
  {
    hide Append, Shaped, CStr;
    if h != [] {
      var n := |h| - 1;
      EntriesEach(rt, t, kids, h[..n]);
      assert KeysOf(h)[..n] == KeysOf(h[..n]) && ItemsOf(h)[..n] == ItemsOf(h[..n]);
    }
  }

  // What is overfull stays overfull

  lemma KidIsShaped(c: Column, k: nat)
    requires Shaped(c) && k < |c.kids|
    ensures KidsShaped(c.typ, c.kids) && Shaped(c.kids[k]) && |c.kids| == |BuilderTypes(c.typ)|
    ensures c.kids[k].typ == BuilderTypes(c.typ)[k]
  {
  }

  lemma {:induction false} BlankKeeps(c: Column, ok: bool)
    requires Shaped(c) && Overfull(c)
    ensures Overfull(Blank(c, ok))
    decreases c.typ, 0, 0
  {
    var d := Blank(c, ok);
    if k :| 0 <= k < |c.kids| && Overfull(c.kids[k]) {
      KidIsShaped(c, k);
      if c.typ.Struct? {
        BlankKeeps(c.kids[k], true);
        assert Overfull(d.kids[k]);
      } else if c.typ.FixedSizeList? {
        BlanksKeep(c.kids[k], if c.typ.listSize < 0 then 0 else c.typ.listSize);
        assert Overfull(d.kids[k]);
      } else {
        assert Overfull(d.kids[k]);
      }
    } else {
      KidIsShaped(c, 0);
      BlanksLength(c.kids[0], if c.typ.listSize < 0 then 0 else c.typ.listSize);
      assert (Len(c) + 1) * c.typ.listSize == Len(c) * c.typ.listSize + c.typ.listSize;
    }
  }

  lemma {:induction false} BlanksKeep(c: Column, n: nat)
    requires Shaped(c) && Overfull(c)
    ensures Overfull(Blanks(c, n))
    decreases c.typ, 1, n
  {
    hide Blank, Overfull, Shaped;
    if n > 0 {
      BlanksKeep(c, n - 1);
      BlankKeeps(Blanks(c, n - 1), true);
    }
  }

  lemma KidOverfull(c: Column, k: nat)
    requires k < |c.kids| && Overfull(c.kids[k])
    ensures Overfull(c)
  {
  }

  /** No successful append takes an overfull builder back. */
  lemma {:induction false} AppendKeeps(rt: Runtime, c: Column, v: Value)
    requires Shaped(c) && Overfull(c) && Append(rt, c, v).error.None?
    ensures Overfull(Append(rt, c, v).col)
    decreases c.typ, 2, 0
  {
    hide AppendAll, AppendFields, AppendEntries, Blank, Encode, Overfull, Shaped;
    var d := Append(rt, c, v).col;
    OverfullParts(c);
    if IsNothing(v) {
      BlankKeeps(c, false);
    } else if c.typ.Struct? || c.typ.Map? {
      var k :| 0 <= k < |c.kids| && Overfull(c.kids[k]);
      if c.typ.Struct? {
        StructKeeps(rt, c, v, k);
      } else {
        MapKeeps(rt, c, v, k);
      }
    } else if IsList(c.typ) {
      ListKeeps(rt, c, v);
    } else if Encode(rt, c.typ, v).value.None? {
      BlankKeeps(c, false);
    } else {
      NoKids(c);
    }
  }

  lemma NoKids(c: Column)
    requires Shaped(c) && !Nested(c.typ)
    ensures c.kids == [] && !Overfull(c)
  {
  }

  lemma OverfullParts(c: Column)
    ensures Overfull(c) <==>
      (c.typ.FixedSizeList? && |c.kids| > 0 && Len(c.kids[0]) > Len(c) * c.typ.listSize)
      || exists k :: 0 <= k < |c.kids| && Overfull(c.kids[k])
  {
  }

  lemma {:induction false} StructKeeps(rt: Runtime, c: Column, v: Value, k: nat)
    requires Shaped(c) && c.typ.Struct? && v.QHash? && Append(rt, c, v).error.None?
    requires k < |c.kids| && Overfull(c.kids[k])
    ensures Overfull(Append(rt, c, v).col)
    decreases c.typ, 1, 0
  {
    hide Append, Overfull, Shaped, KidsShaped, FieldValue, AppendFields;
    KidIsShaped(c, k);
    StructAppended(rt, c, v);
    AppendKeeps(rt, c.kids[k], FieldValue(c.typ, v.entries, k));
    KidOverfull(Append(rt, c, v).col, k);
  }

  /** A struct append appends to every child by itself. */
  lemma StructAppended(rt: Runtime, c: Column, v: Value)
    requires Shaped(c) && c.typ.Struct? && v.QHash? && Append(rt, c, v).error.None?
    ensures |Append(rt, c, v).col.kids| == |c.kids| == |c.typ.fields|
    ensures forall j :: 0 <= j < |c.kids| ==>
      Shaped(c.kids[j]) && FieldAppended(rt, c.typ, c.kids[j], Append(rt, c, v).col.kids[j], v.entries, j)
  {
    hide FieldValue;
    FieldsEach(rt, c.typ, c.kids, v.entries, |c.kids|);
    hide AppendFields, FieldAppended;
  }

  lemma {:induction false} MapKeeps(rt: Runtime, c: Column, v: Value, k: nat)
    requires Shaped(c) && c.typ.Map? && v.QHash? && Append(rt, c, v).error.None?
    requires k < |c.kids| && Overfull(c.kids[k])
    ensures Overfull(Append(rt, c, v).col)
    decreases c.typ, 1, 0
  {
    hide Append, Overfull, Shaped, KidsShaped, AppendEntries, AppendAll;
    KidIsShaped(c, k);
    MapAppended(rt, c, v);
    AppendAllKeeps(rt, c.kids[k], if k == 0 then KeysOf(v.entries) else ItemsOf(v.entries));
    KidOverfull(Append(rt, c, v).col, k);
  }

  lemma MapAppended(rt: Runtime, c: Column, v: Value)
    requires Shaped(c) && c.typ.Map? && v.QHash? && !IsNothing(v) && Append(rt, c, v).error.None?
    ensures |c.kids| == 2 && Shaped(c.kids[0]) && Shaped(c.kids[1])
    ensures var keys, items := AppendAll(rt, c.kids[0], KeysOf(v.entries)), AppendAll(rt, c.kids[1], ItemsOf(v.entries));
      keys.error.None? && items.error.None? && Append(rt, c, v).col.kids == [keys.col, items.col]
  {
    EntriesEach(rt, c.typ, c.kids, v.entries);
    hide AppendAll, AppendEntries;
  }

  lemma {:induction false} ListKeeps(rt: Runtime, c: Column, v: Value)
    requires Shaped(c) && Overfull(c) && IsList(c.typ) && v.QList? && Append(rt, c, v).error.None?
    ensures Overfull(Append(rt, c, v).col)
    decreases c.typ, 1, 0
  {
    hide Append, Overfull, Shaped, AppendAll;
    ListAppended(rt, c, v);
    KidIsShaped(c, 0);
    OverfullParts(c);
    AppendAllLength(rt, c.kids[0], v.items);
    var d := Append(rt, c, v).col;
    if Overfull(c.kids[0]) {
      AppendAllKeeps(rt, c.kids[0], v.items);
      KidOverfull(d, 0);
    } else {
      CheckedLength(c.typ, v.items);
      assert (Len(c) + 1) * c.typ.listSize == Len(c) * c.typ.listSize + c.typ.listSize;
      OverfullParts(d);
    }
  }

  lemma ListAppended(rt: Runtime, c: Column, v: Value)
    requires Shaped(c) && IsList(c.typ) && v.QList? && Append(rt, c, v).error.None?
    ensures |c.kids| == 1 && Shaped(c.kids[0]) && AppendAll(rt, c.kids[0], v.items).error.None?
    ensures var d := Append(rt, c, v).col;
      d.typ == c.typ && d.kids == [AppendAll(rt, c.kids[0], v.items).col] && Len(d) == Len(c) + 1
    ensures c.typ.FixedSizeList? ==> Narrow(W32, true, |v.items|) == c.typ.listSize
  {
    hide AppendAll;
  }

  /** A list that passes the length check is never shorter than declared. */
  lemma CheckedLength(t: DataType, items: seq<Value>)
    requires t.FixedSizeList? && Narrow(W32, true, |items|) == t.listSize
    ensures |items| >= t.listSize
  {
  }

  lemma {:induction false} AppendAllKeeps(rt: Runtime, c: Column, vs: seq<Value>)
    requires Shaped(c) && Overfull(c) && AppendAll(rt, c, vs).error.None?
    ensures Overfull(AppendAll(rt, c, vs).col)
    decreases c.typ, 3, |vs|
  {
    hide Append, Overfull, Shaped;
    if vs != [] {
      var n := |vs| - 1;
      AppendAllKeeps(rt, c, vs[..n]);
      AppendKeeps(rt, AppendAll(rt, c, vs[..n]).col, vs[n]);
    }
  }

  // An untrue size overfills

  lemma {:induction false} AppendBreaks(rt: Runtime, c: Column, v: Value)
    requires Balanced(c) && Shaped(c) && !TrueSizes(c.typ, v) && Append(rt, c, v).error.None?
    ensures Overfull(Append(rt, c, v).col)
    decreases c.typ, 2, 0
  {
    hide Append, Overfull, Shaped, Balanced;
    BalancedNode(c);
    if c.typ.Struct? {
      StructBreaks(rt, c, v);
    } else if c.typ.Map? {
      MapAppended(rt, c, v);
      MapBreaks(rt, c, v);
    } else {
      ListBreaks(rt, c, v);
    }
  }

  lemma {:induction false} StructBreaks(rt: Runtime, c: Column, v: Value)
    requires Balanced(c) && Shaped(c) && c.typ.Struct? && !TrueSizes(c.typ, v) && Append(rt, c, v).error.None?
    ensures Overfull(Append(rt, c, v).col)
    decreases c.typ, 1, 0
  {
    var k :| 0 <= k < |c.typ.fields| && !TrueSizes(c.typ.fields[k].typ, FieldValue(c.typ, v.entries, k));
    hide Append, Overfull, Shaped, KidsShaped, FieldValue, AppendFields, Balanced, TrueSizes;
    StructAppended(rt, c, v);
    KidIsShaped(c, k);
    BalancedNode(c);
    AppendBreaks(rt, c.kids[k], FieldValue(c.typ, v.entries, k));
    KidOverfull(Append(rt, c, v).col, k);
  }

  lemma {:induction false} MapBreaks(rt: Runtime, c: Column, v: Value)
    requires Balanced(c) && Shaped(c) && c.typ.Map? && !TrueSizes(c.typ, v) && Append(rt, c, v).error.None?
    requires v.QHash?
    ensures Overfull(Append(rt, c, v).col)
    decreases c.typ, 1, 0
  {
    var i :| 0 <= i < |v.entries| && !TrueSizes(c.typ.item.typ, v.entries[i].value);
    hide Append, Overfull, Shaped, KidsShaped, AppendEntries, AppendAll, Balanced, TrueSizes;
    MapAppended(rt, c, v);
    KidIsShaped(c, 1);
    BalancedNode(c);
    assert ItemsOf(v.entries)[i] == v.entries[i].value;
    AppendAllBreaks(rt, c.kids[1], ItemsOf(v.entries), i);
    KidOverfull(Append(rt, c, v).col, 1);
  }

  lemma {:induction false} ListBreaks(rt: Runtime, c: Column, v: Value)
    requires Balanced(c) && Shaped(c) && IsList(c.typ) && !TrueSizes(c.typ, v) && Append(rt, c, v).error.None?
    ensures Overfull(Append(rt, c, v).col)
    decreases c.typ, 1, 0
  {
    var t, items := c.typ.child.typ, v.items;
    hide Append, Overfull, Shaped, AppendAll, Balanced, TrueSizes;
    UntrueList(c.typ, v);
    ListAppended(rt, c, v);
    if i :| 0 <= i < |items| && !TrueSizes(t, items[i]) {
      KidIsShaped(c, 0);
      BalancedNode(c);
      AppendAllBreaks(rt, c.kids[0], items, i);
      KidOverfull(Append(rt, c, v).col, 0);
    } else {
      TooLong(rt, c, v);
    }
  }

  /** A list that passes the length check without having the declared size. */
  lemma TooLong(rt: Runtime, c: Column, v: Value)
    requires Balanced(c) && Shaped(c) && c.typ.FixedSizeList? && v.QList? && |v.items| != c.typ.listSize
    requires Append(rt, c, v).error.None?
    ensures Overfull(Append(rt, c, v).col)
  {
    hide Append, Overfull, Shaped, AppendAll, Balanced;
    ListAppended(rt, c, v);
    BalancedNode(c);
    AppendAllLength(rt, c.kids[0], v.items);
    CheckedLength(c.typ, v.items);
    assert (Len(c) + 1) * c.typ.listSize == Len(c) * c.typ.listSize + c.typ.listSize;
    OverfullParts(Append(rt, c, v).col);
  }

  predicate ListUntrue(t: DataType, v: Value)
    requires IsList(t)
  {
    && v.QList?
    && ((t.FixedSizeList? && |v.items| != t.listSize) || exists i :: 0 <= i < |v.items| && !TrueSizes(t.child.typ, v.items[i]))
  }

  lemma UntrueList(t: DataType, v: Value)
    requires IsList(t) && !TrueSizes(t, v)
    ensures ListUntrue(t, v)
  {
  }

  lemma {:induction false} AppendAllBreaks(rt: Runtime, c: Column, vs: seq<Value>, i: nat)
    requires Balanced(c) && Shaped(c) && i < |vs| && !TrueSizes(c.typ, vs[i]) && AppendAll(rt, c, vs).error.None?
    ensures Overfull(AppendAll(rt, c, vs).col)
    decreases c.typ, 3, |vs|
  {
    hide Append, Overfull, Shaped, Balanced, TrueSizes, NormalItems, SlotRange;
    var n := |vs| - 1;
    var before := AppendAll(rt, c, vs[..n]).col;
    if j :| 0 <= j < n && !TrueSizes(c.typ, vs[j]) {
      assert vs[..n][j] == vs[j];
      AppendAllBreaks(rt, c, vs[..n], j);
      AppendKeeps(rt, before, vs[n]);
    } else {
      AppendAllGrows(rt, c, vs[..n]);
      assert Balanced(before);
      AppendBreaks(rt, before, vs[n]);
    }
  }

  // The exact condition

  /** A successful append keeps the builder tree well formed exactly when every list in the value that passes the length
      check of a fixed-size list has its declared size. */
  lemma AppendBalancedExactly(rt: Runtime, c: Column, v: Value)
    requires Balanced(c)
    ensures Shaped(c)
    ensures Append(rt, c, v).error.None? ==> (Balanced(Append(rt, c, v).col) <==> TrueSizes(c.typ, v))
  {
    hide Append, Overfull, Shaped, Balanced, TrueSizes, NormalForm;
    BalancedIsShaped(c);
    if Append(rt, c, v).error.None? {
      if TrueSizes(c.typ, v) {
        AppendGrows(rt, c, v);
      } else {
        AppendBreaks(rt, c, v);
        OverfullIsUnbalanced(Append(rt, c, v).col);
      }
    }
  }

  /** What one append does, for every value: it fails exactly when the value is not accepted, and otherwise adds exactly
      one slot; with true sizes, and only then, the tree keeps its shape, and all earlier slots keep their meaning while
      the new one means the normal form of the value. */
  lemma AppendOutcome(rt: Runtime, c: Column, v: Value)
    requires Balanced(c)
    ensures Shaped(c) && (Append(rt, c, v).error.None? <==> Accepts(rt, c.typ, v))
    ensures Append(rt, c, v).error.None? ==>
      var d := Append(rt, c, v).col;
      && Len(d) == Len(c) + 1
      && (Balanced(d) <==> TrueSizes(c.typ, v))
      && (TrueSizes(c.typ, v) ==> Kept(rt, c, d) && Slot(rt, d, Len(c)) == NormalForm(rt, c.typ, v))
  {
    hide Append, Shaped, Balanced, TrueSizes, NormalForm, Slot, Accepts;
    AppendBalancedExactly(rt, c, v);
    AppendFailsExactly(rt, c, v);
    AppendLength(rt, c, v);
    if TrueSizes(c.typ, v) {
      AppendGrows(rt, c, v);
    }
  }

  /** The same for the loop over the elements of a list or the values of a column. */
  lemma AppendAllOutcome(rt: Runtime, c: Column, vs: seq<Value>)
    requires Balanced(c)
    ensures Shaped(c)
    ensures AppendAll(rt, c, vs).error.None? <==> forall i :: 0 <= i < |vs| ==> Accepts(rt, c.typ, vs[i])
    ensures AppendAll(rt, c, vs).error.None? ==>
      var d := AppendAll(rt, c, vs).col;
      && Len(d) == Len(c) + |vs|
      && (Balanced(d) <==> forall i :: 0 <= i < |vs| ==> TrueSizes(c.typ, vs[i]))
      && (Balanced(d) ==>
            && Kept(rt, c, d)
            && forall i :: 0 <= i < |vs| ==> Slot(rt, d, Len(c) + i) == NormalForm(rt, c.typ, vs[i]))
  {
    hide AppendAll, Shaped, Balanced, TrueSizes, NormalForm, Slot, Accepts, Overfull;
    BalancedIsShaped(c);
    AppendAllFailsExactly(rt, c, vs);
    AppendAllLength(rt, c, vs);
    var s := AppendAll(rt, c, vs);
    if s.error.None? {
      if i :| 0 <= i < |vs| && !TrueSizes(c.typ, vs[i]) {
        AppendAllBreaks(rt, c, vs, i);
        OverfullIsUnbalanced(s.col);
      } else {
        AppendAllKept(rt, c, vs);
      }
    }
  }

  lemma AppendAllKept(rt: Runtime, c: Column, vs: seq<Value>)
    requires Balanced(c) && forall i :: 0 <= i < |vs| ==> TrueSizes(c.typ, vs[i])
    requires Shaped(c) && AppendAll(rt, c, vs).error.None?
    ensures var d := AppendAll(rt, c, vs).col;
      && Balanced(d) && Kept(rt, c, d) && Len(d) == Len(c) + |vs|
      && forall i :: 0 <= i < |vs| ==> Slot(rt, d, Len(c) + i) == NormalForm(rt, c.typ, vs[i])
  {
    hide AppendAll, Shaped, Balanced, TrueSizes, NormalForm, Slot, NormalItems, SlotRange;
    AppendAllGrows(rt, c, vs);
    forall i | 0 <= i < |vs|
      ensures Slot(rt, AppendAll(rt, c, vs).col, Len(c) + i) == NormalForm(rt, c.typ, vs[i])
    {
      AppendAllSlot(rt, c, vs, i);
    }
  }

  /** The builders of a whole column stay well formed exactly when all its values have true sizes. */
  lemma ColumnBalancedExactly(rt: Runtime, t: DataType, vs: seq<Value>)
    requires Buildable(t)
    ensures Shaped(Empty(t))
    ensures var s := AppendAll(rt, Empty(t), vs);
      s.error.None? ==> (Balanced(s.col) <==> forall i :: 0 <= i < |vs| ==> TrueSizes(t, vs[i]))
  {
    hide AppendAll, Overfull, Shaped, Balanced, TrueSizes, NormalItems, SlotRange, Empty;
    EmptyBalanced(t);
    EmptyShaped(t);
    var s := AppendAll(rt, Empty(t), vs);
    if s.error.None? {
      if i :| 0 <= i < |vs| && !TrueSizes(t, vs[i]) {
        AppendAllBreaks(rt, Empty(t), vs, i);
        OverfullIsUnbalanced(s.col);
      } else {
        AppendAllGrows(rt, Empty(t), vs);
      }
    }
  }

  /** The smallest failing family: a list 2^32 elements longer than declared is accepted. */
  lemma OversizedListPasses(rt: Runtime, c: Column, v: Value)
    requires Balanced(c) && c.typ.FixedSizeList? && v.QList? && |v.items| == c.typ.listSize + 0x1_0000_0000
    requires forall i :: 0 <= i < |v.items| ==> Accepts(rt, c.typ.child.typ, v.items[i])
    ensures Shaped(c) && Append(rt, c, v).error.None? && !Balanced(Append(rt, c, v).col)
  {
    hide Append, Balanced, Shaped;
    BalancedNode(c);
    OversizedAccepted(rt, c.typ, v);
    hide Accepts, TrueSizes;
    AppendBalancedExactly(rt, c, v);
    AppendFailsExactly(rt, c, v);
  }

  lemma OversizedAccepted(rt: Runtime, t: DataType, v: Value)
    requires t.FixedSizeList? && t.listSize >= 0 && v.QList? && |v.items| == t.listSize + 0x1_0000_0000
    requires forall i :: 0 <= i < |v.items| ==> Accepts(rt, t.child.typ, v.items[i])
    ensures Accepts(rt, t, v) && !TrueSizes(t, v)
  {
    assert Narrow(W32, true, |v.items|) == t.listSize;
  }
}
