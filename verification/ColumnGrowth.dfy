/** Appending: every successful call adds exactly one slot, the slot means the normal form of the value,
    every earlier slot keeps its meaning, and the builder tree stays balanced. */
module ColumnGrowth {
  import opened Wrappers
  import opened ArrowTypes
  import opened QoreValues
  import opened Scalars
  import opened ArrowArrays
  import opened BuilderColumns
  import opened ColumnMeaning

  /** d is c with slots added at the end. */
  ghost predicate Kept(rt: Runtime, c: Column, d: Column) {
    && Balanced(c) && Balanced(d) && c.typ == d.typ && Len(c) <= Len(d)
    && forall i :: 0 <= i < Len(c) ==> Slot(rt, d, i) == Slot(rt, c, i)
  }

  ghost predicate KidsKept(rt: Runtime, kids: seq<Column>, after: seq<Column>) {
    |kids| == |after| && forall k :: 0 <= k < |kids| ==> Kept(rt, kids[k], after[k])
  }

  lemma {:induction false} RangeKept(rt: Runtime, c: Column, d: Column, start: nat, n: nat)
    requires Kept(rt, c, d) && start + n <= Len(c)
    ensures SlotRange(rt, d, start, n) == SlotRange(rt, c, start, n)
  {
    hide Balanced, Slot;
    if n > 0 {
      RangeKept(rt, c, d, start, n - 1);
    }
  }

  lemma FieldNode(c: Column)
    requires Balanced(c) && c.typ.Struct?
    ensures |c.kids| == |c.typ.fields|
    ensures forall k :: 0 <= k < |c.kids| ==> Balanced(c.kids[k]) && Len(c.kids[k]) == Len(c)
  {
    assert NodeBalanced(c) && KidsBalanced(c.kids);
  }

  lemma {:induction false} FieldsKept(rt: Runtime, c: Column, d: Column, i: nat, k: nat)
    requires Balanced(c) && Balanced(d) && c.typ == d.typ && c.typ.Struct?
    requires i < Len(c) && i < Len(d) && k <= |c.kids|
    requires KidsKept(rt, c.kids, d.kids)
    ensures SlotFields(rt, d, i, k) == SlotFields(rt, c, i, k)
  {
    hide Balanced, Slot;
    FieldNode(c);
    FieldNode(d);
    if k > 0 {
      FieldsKept(rt, c, d, i, k - 1);
      assert Kept(rt, c.kids[k - 1], d.kids[k - 1]);
    }
  }

  lemma EntryNode(c: Column)
    requires Balanced(c) && c.typ.Map?
    ensures |c.kids| == 2 && Balanced(c.kids[0]) && Balanced(c.kids[1]) && Len(c.kids[1]) == Len(c.kids[0])
  {
    assert NodeBalanced(c) && KidsBalanced(c.kids);
  }

  lemma {:induction false} EntriesKept(rt: Runtime, c: Column, d: Column, start: nat, n: nat)
    requires Balanced(c) && Balanced(d) && c.typ == d.typ && c.typ.Map?
    requires KidsKept(rt, c.kids, d.kids)
    requires start + n <= Len(c.kids[0]) && start + n <= Len(d.kids[0])
    ensures SlotEntries(rt, d, start, n) == SlotEntries(rt, c, start, n)
  {
    hide Balanced, Slot;
    EntryNode(c);
    EntryNode(d);
    if n > 0 {
      EntriesKept(rt, c, d, start, n - 1);
      assert Kept(rt, c.kids[0], d.kids[0]) && Kept(rt, c.kids[1], d.kids[1]);
    }
  }

  /** One more slot in a builder whose own data only grew at the end: the slots before it read the same. */
  lemma GrownNodeKeeps(rt: Runtime, c: Column, d: Column)
    requires Balanced(c) && Balanced(d) && c.typ == d.typ
    requires Len(d) == Len(c) + 1 && c.valid <= d.valid && c.cells <= d.cells && c.starts <= d.starts
    requires KidsKept(rt, c.kids, d.kids)
    requires Growing(c.typ) ==> d.starts[Len(c)] == Len(c.kids[0])
    ensures Kept(rt, c, d)
  {
    forall i | 0 <= i < Len(c)
      ensures Slot(rt, d, i) == Slot(rt, c, i)
    {
      SlotKept(rt, c, d, i);
    }
  }

  lemma SlotKept(rt: Runtime, c: Column, d: Column, i: nat)
    requires Balanced(c) && Balanced(d) && c.typ == d.typ && i < Len(c)
    requires Len(d) == Len(c) + 1 && c.valid <= d.valid && c.cells <= d.cells && c.starts <= d.starts
    requires KidsKept(rt, c.kids, d.kids)
    requires Growing(c.typ) ==> d.starts[Len(c)] == Len(c.kids[0])
    ensures Slot(rt, d, i) == Slot(rt, c, i)
  {
    hide Balanced, KidsBalanced, KidsKept, CellOk, SlotRange, SlotEntries, SlotFields;
    BalancedNode(c);
    BalancedNode(d);
    assert d.valid[i] == c.valid[i];
    if c.typ.Struct? {
      FieldsKept(rt, c, d, i, |c.kids|);
    } else if IsList(c.typ) || c.typ.Map? {
      WindowInChild(c, i);
      WindowInChild(d, i);
      WindowKept(c, d, i);
      WindowValuesKept(rt, c, d, From(c, i), To(c, i) - From(c, i));
    } else {
      assert d.cells[i] == c.cells[i];
    }
  }

  lemma WindowKept(c: Column, d: Column, i: nat)
    requires NodeBalanced(c) && NodeBalanced(d) && c.typ == d.typ && i < Len(c)
    requires Growing(c.typ) || c.typ.FixedSizeList?
    requires Len(d) == Len(c) + 1 && c.starts <= d.starts
    requires Growing(c.typ) ==> d.starts[Len(c)] == Len(c.kids[0])
    ensures From(d, i) == From(c, i) && To(d, i) == To(c, i)
  {
    if Growing(c.typ) {
      assert d.starts[i] == c.starts[i];
      assert i + 1 < Len(c) ==> d.starts[i + 1] == c.starts[i + 1];
    }
  }

  lemma WindowValuesKept(rt: Runtime, c: Column, d: Column, start: nat, n: nat)
    requires Balanced(c) && Balanced(d) && c.typ == d.typ && (Growing(c.typ) || c.typ.FixedSizeList?)
    requires KidsKept(rt, c.kids, d.kids) && start + n <= Len(c.kids[0])
    ensures start + n <= Len(d.kids[0])
    ensures SlotRange(rt, d.kids[0], start, n) == SlotRange(rt, c.kids[0], start, n)
    ensures c.typ.Map? ==> SlotEntries(rt, d, start, n) == SlotEntries(rt, c, start, n)
  {
    assert NodeBalanced(c) && NodeBalanced(d) && Kept(rt, c.kids[0], d.kids[0]);
    hide Balanced, KidsBalanced, SlotRange, SlotEntries, Slot;
    RangeKept(rt, c.kids[0], d.kids[0], start, n);
    if c.typ.Map? {
      EntriesKept(rt, c, d, start, n);
    }
  }

  lemma KeptTransitive(rt: Runtime, a: Column, b: Column, c: Column)
    requires Kept(rt, a, b) && Kept(rt, b, c)
    ensures Kept(rt, a, c)
  {
    hide Balanced, Slot;
  }

  // Nulls and empty values

  lemma {:induction false} BlankGrows(rt: Runtime, c: Column, ok: bool)
    requires Balanced(c)
    ensures Shaped(c)
    ensures var d := Blank(c, ok);
      && Kept(rt, c, d) && Len(d) == Len(c) + 1
      && (!ok ==> Slot(rt, d, Len(c)) == Ok(QNothing))
    decreases c.typ, 0, 0
  {
    BalancedIsShaped(c);
    var d := Blank(c, ok);
    assert KidsBalanced(c.kids);
    if c.typ.Struct? {
      forall k | 0 <= k < |c.kids|
        ensures Kept(rt, c.kids[k], d.kids[k]) && Len(d.kids[k]) == Len(c) + 1
      {
        BlankGrows(rt, c.kids[k], true);
      }
    } else if c.typ.FixedSizeList? {
      BlanksGrow(rt, c.kids[0], c.typ.listSize);
    }
    BlankBalanced(rt, c, d, ok);
    GrownNodeKeeps(rt, c, d);
  }

  lemma BlankBalanced(rt: Runtime, c: Column, d: Column, ok: bool)
    requires Balanced(c) && Shaped(c) && d == Blank(c, ok)
    requires c.typ.Struct? ==>
      |d.kids| == |c.kids| && forall k :: 0 <= k < |c.kids| ==> Kept(rt, c.kids[k], d.kids[k]) && Len(d.kids[k]) == Len(c) + 1
    requires c.typ.FixedSizeList? ==>
      |d.kids| == 1 && Kept(rt, c.kids[0], d.kids[0]) && Len(d.kids[0]) == Len(c.kids[0]) + c.typ.listSize
    ensures Balanced(d) && KidsKept(rt, c.kids, d.kids)
  {
    assert KidsBalanced(c.kids) && NodeBalanced(c) && KidsShaped(c.typ, c.kids);
    if c.typ.Struct? || c.typ.FixedSizeList? {
    } else {
      assert d.kids == c.kids;
    }
    assert KidsKept(rt, c.kids, d.kids);
    assert KidsBalanced(d.kids) by { hide NodeBalanced, Blank; }
    assert NodeBalanced(d) by { hide Kept, KidsBalanced; BlankNode(c, d, ok); }
  }

  lemma BlankNode(c: Column, d: Column, ok: bool)
    requires NodeBalanced(c) && Shaped(c) && d == Blank(c, ok)
    requires |d.kids| == |c.kids| && forall k :: 0 <= k < |c.kids| ==> d.kids[k].typ == c.kids[k].typ
    requires c.typ.Struct? ==> forall k :: 0 <= k < |c.kids| ==> Len(d.kids[k]) == Len(c) + 1
    requires c.typ.FixedSizeList? ==> Len(d.kids[0]) == Len(c.kids[0]) + c.typ.listSize
    ensures NodeBalanced(d)
  {
    hide Shaped;
  }

  lemma {:induction false} BlanksGrow(rt: Runtime, c: Column, n: nat)
    requires Balanced(c)
    ensures Shaped(c)
    ensures Kept(rt, c, Blanks(c, n)) && Len(Blanks(c, n)) == Len(c) + n
    decreases c.typ, 1, n
  {
    BalancedIsShaped(c);
    if n > 0 {
      BlanksGrow(rt, c, n - 1);
      BlankGrows(rt, Blanks(c, n - 1), true);
      KeptTransitive(rt, c, Blanks(c, n - 1), Blanks(c, n));
    }
  }

  // Values

  /** d is c with slots added that read as vs. */
  ghost predicate Grown(rt: Runtime, c: Column, d: Column, n: nat, vs: Result<seq<Value>, ConvertError>) {
    Kept(rt, c, d) && Len(d) == Len(c) + n && SlotRange(rt, d, Len(c), n) == vs
  }

  // Lengths need no balance

  lemma BlankLength(c: Column, ok: bool)
    requires Shaped(c)
    ensures Len(Blank(c, ok)) == Len(c) + 1
  {
  }

  lemma {:induction false} BlanksLength(c: Column, n: nat)
    requires Shaped(c)
    ensures Len(Blanks(c, n)) == Len(c) + n
  {
    hide Blank, Shaped;
    if n > 0 {
      BlanksLength(c, n - 1);
      BlankLength(Blanks(c, n - 1), true);
    }
  }

  lemma AppendLength(rt: Runtime, c: Column, v: Value)
    requires Shaped(c)
    ensures Append(rt, c, v).error.None? ==> Len(Append(rt, c, v).col) == Len(c) + 1
  {
    hide Encode, Narrow, AppendAll, AppendFields, AppendEntries, Blank;
    BlankLength(c, false);
  }

  lemma {:induction false} AppendAllLength(rt: Runtime, c: Column, vs: seq<Value>)
    requires Shaped(c)
    ensures AppendAll(rt, c, vs).error.None? ==> Len(AppendAll(rt, c, vs).col) == Len(c) + |vs|
    decreases |vs|
  {
    hide Append, Shaped;
    if vs != [] {
      AppendAllLength(rt, c, vs[..|vs| - 1]);
      AppendLength(rt, AppendAll(rt, c, vs[..|vs| - 1]).col, vs[|vs| - 1]);
    }
  }

  // The main property of appendToBuilder

  lemma {:induction false} AppendGrows(rt: Runtime, c: Column, v: Value)
    requires Balanced(c) && TrueSizes(c.typ, v)
    ensures Shaped(c)
    ensures var s := Append(rt, c, v);
      s.error.None? ==>
        && Kept(rt, c, s.col) && Len(s.col) == Len(c) + 1
        && Slot(rt, s.col, Len(c)) == NormalForm(rt, c.typ, v)
    decreases c.typ, 2, 0
  {
    BalancedIsShaped(c);
    assert KidsBalanced(c.kids) && NodeBalanced(c) && KidsShaped(c.typ, c.kids);
    var s := Append(rt, c, v);
    if s.error.Some? {
    } else if IsNothing(v) {
      BlankGrows(rt, c, false);
    } else if c.typ.Struct? {
      AppendFieldsGrow(rt, c.typ, c.kids, v.entries, |c.kids|, Len(c));
      StructGrows(rt, c, s.col, v.entries);
    } else if IsList(c.typ) {
      AppendAllGrows(rt, c.kids[0], v.items);
      ListGrows(rt, c, s.col, v.items);
    } else if c.typ.Map? {
      AppendEntriesGrow(rt, c.typ, c.kids, v.entries);
      MapGrows(rt, c, s.col, v.entries);
    } else if Encode(rt, c.typ, v).value.None? {
      BlankGrows(rt, c, false);
    } else {
      CellGrows(rt, c, s.col, v);
    }
  }

  lemma {:induction false} AppendAllGrows(rt: Runtime, c: Column, vs: seq<Value>)
    requires Balanced(c) && forall i :: 0 <= i < |vs| ==> TrueSizes(c.typ, vs[i])
    ensures Shaped(c)
    ensures var s := AppendAll(rt, c, vs);
      s.error.None? ==> Grown(rt, c, s.col, |vs|, NormalItems(rt, c.typ, vs))
    decreases c.typ, 3, |vs|
  {
    hide Append, NormalForm, Slot, Balanced, Shaped, TrueSizes;
    BalancedIsShaped(c);
    if vs != [] {
      var n := |vs| - 1;
      AppendAllGrows(rt, c, vs[..n]);
      var s := AppendAll(rt, c, vs[..n]);
      if s.error.None? {
        AppendGrows(rt, s.col, vs[n]);
        var d := Append(rt, s.col, vs[n]).col;
        if Append(rt, s.col, vs[n]).error.None? {
          KeptTransitive(rt, c, s.col, d);
          RangeKept(rt, s.col, d, Len(c), n);
        }
      }
    }
  }

  /** Each appended value has its own slot. */
  lemma {:induction false} AppendAllSlot(rt: Runtime, c: Column, vs: seq<Value>, i: nat)
    requires Balanced(c) && i < |vs| && forall i :: 0 <= i < |vs| ==> TrueSizes(c.typ, vs[i])
    ensures Shaped(c)
    ensures var s := AppendAll(rt, c, vs);
      s.error.None? ==>
        Kept(rt, c, s.col) && Len(s.col) == Len(c) + |vs| && Slot(rt, s.col, Len(c) + i) == NormalForm(rt, c.typ, vs[i])
    decreases |vs|
  {
    hide Append, NormalForm, Slot, Balanced, Shaped, SlotRange, TrueSizes;
    BalancedIsShaped(c);
    var n := |vs| - 1;
    AppendAllGrows(rt, c, vs);
    AppendAllGrows(rt, c, vs[..n]);
    var s := AppendAll(rt, c, vs[..n]);
    if s.error.None? {
      AppendGrows(rt, s.col, vs[n]);
      if i < n {
        AppendAllSlot(rt, c, vs[..n], i);
      }
    }
  }

  /** After k fields of a struct value: the first k children have grown by the value of their field. */
  ghost predicate FieldsGrown(rt: Runtime, t: DataType, kids: seq<Column>, after: seq<Column>, h: seq<Entry>, k: nat,
                              n: nat)
    requires t.Struct?
  {
    && |after| == |kids| == |t.fields| && k <= |kids|
    && (forall j :: 0 <= j < k ==> FieldGrown(rt, t, kids[j], after[j], h, j, n))
    && (forall j :: k <= j < |kids| ==> after[j] == kids[j])
  }

  ghost predicate FieldGrown(rt: Runtime, t: DataType, kid: Column, after: Column, h: seq<Entry>, j: nat, n: nat)
    requires t.Struct? && j < |t.fields|
  {
    && Kept(rt, kid, after) && Len(kid) == n && Len(after) == n + 1
    && Slot(rt, after, n) == NormalForm(rt, t.fields[j].typ, FieldValue(t, h, j))
  }

  lemma {:induction false} AppendFieldsGrow(rt: Runtime, t: DataType, kids: seq<Column>, h: seq<Entry>, k: nat, n: nat)
    requires t.Struct? && KidsShaped(t, kids) && KidsBalanced(kids) && k <= |kids|
    requires forall j :: 0 <= j < |kids| ==> Len(kids[j]) == n
    requires forall j :: 0 <= j < |t.fields| ==> TrueSizes(t.fields[j].typ, FieldValue(t, h, j))
    ensures var s := AppendFields(rt, t, kids, h, k);
      s.error.None? ==> FieldsGrown(rt, t, kids, s.kids, h, k, n)
    decreases t, 1, k
  {
    hide Append, NormalForm, Slot, Balanced, Shaped, FieldValue;
    if k > 0 {
      AppendFieldsGrow(rt, t, kids, h, k - 1, n);
      var s := AppendFields(rt, t, kids, h, k - 1);
      if s.error.None? {
        assert s.kids[k - 1] == kids[k - 1];
        AppendGrows(rt, kids[k - 1], FieldValue(t, h, k - 1));
        var one := Append(rt, kids[k - 1], FieldValue(t, h, k - 1));
        if one.error.None? {
          hide FieldsGrown, Kept, KidsShaped;
          OneMoreField(rt, t, kids, s.kids, one.col, h, k, n);
        }
      }
    }
  }

  lemma OneMoreField(rt: Runtime, t: DataType, kids: seq<Column>, after: seq<Column>, one: Column, h: seq<Entry>,
                     k: nat, n: nat)
    requires t.Struct? && 0 < k <= |kids| && FieldsGrown(rt, t, kids, after, h, k - 1, n)
    requires FieldGrown(rt, t, kids[k - 1], one, h, k - 1, n)
    ensures FieldsGrown(rt, t, kids, after[k - 1 := one], h, k, n)
  {
    hide FieldGrown;
  }

  lemma {:induction false} StructGrows(rt: Runtime, c: Column, d: Column, h: seq<Entry>)
    requires Balanced(c) && Shaped(d) && c.typ.Struct?
    requires d == Open(c).(kids := d.kids)
    requires FieldsGrown(rt, c.typ, c.kids, d.kids, h, |c.kids|, Len(c))
    ensures Kept(rt, c, d) && Len(d) == Len(c) + 1
    ensures Slot(rt, d, Len(c)) == NormalForm(rt, c.typ, QHash(h))
  {
    StructBalanced(rt, c, d, h);
    hide Balanced, Kept, KidsKept, FieldsGrown, NormalFields, NodeBalanced;
    GrownNodeKeeps(rt, c, d);
    StructSlot(rt, c, d, h, |c.kids|);
  }

  lemma StructBalanced(rt: Runtime, c: Column, d: Column, h: seq<Entry>)
    requires Balanced(c) && Shaped(d) && c.typ.Struct?
    requires d == Open(c).(kids := d.kids)
    requires FieldsGrown(rt, c.typ, c.kids, d.kids, h, |c.kids|, Len(c))
    ensures Balanced(d) && KidsKept(rt, c.kids, d.kids) && NodeBalanced(c) && NodeBalanced(d)
  {
    assert NodeBalanced(c) && KidsShaped(d.typ, d.kids);
    assert forall k :: 0 <= k < |c.kids| ==> FieldGrown(rt, c.typ, c.kids[k], d.kids[k], h, k, Len(c));
    hide Slot, Shaped;
    assert KidsBalanced(d.kids) && NodeBalanced(d);
  }

  lemma {:induction false} StructSlot(rt: Runtime, c: Column, d: Column, h: seq<Entry>, k: nat)
    requires Balanced(d) && c.typ.Struct? && d.typ == c.typ && Len(d) == Len(c) + 1 && k <= |d.kids|
    requires FieldsGrown(rt, c.typ, c.kids, d.kids, h, |c.kids|, Len(c))
    ensures SlotFields(rt, d, Len(c), k) == NormalFields(rt, c.typ, h, k)
  {
    hide Balanced, Slot, NormalForm, FieldValue;
    if k > 0 {
      StructSlot(rt, c, d, h, k - 1);
      assert FieldGrown(rt, c.typ, c.kids[k - 1], d.kids[k - 1], h, k - 1, Len(c));
    }
  }

  lemma ListGrows(rt: Runtime, c: Column, d: Column, vs: seq<Value>)
    requires Balanced(c) && IsList(c.typ) && (c.typ.FixedSizeList? ==> |vs| == c.typ.listSize)
    requires |d.kids| == 1 && d == Open(c).(kids := d.kids)
    requires Grown(rt, c.kids[0], d.kids[0], |vs|, NormalItems(rt, c.typ.child.typ, vs))
    ensures Kept(rt, c, d) && Len(d) == Len(c) + 1
    ensures Slot(rt, d, Len(c)) == NormalForm(rt, c.typ, QList(vs))
  {
    hide Balanced, KidsBalanced, Kept, KidsKept, NormalItems, SlotRange, CellOk;
    ListBalanced(rt, c, d, vs);
    GrownNodeKeeps(rt, c, d);
    assert From(d, Len(c)) == Len(c.kids[0]) && To(d, Len(c)) == Len(c.kids[0]) + |vs|;
  }

  lemma ListBalanced(rt: Runtime, c: Column, d: Column, vs: seq<Value>)
    requires Balanced(c) && IsList(c.typ) && (c.typ.FixedSizeList? ==> |vs| == c.typ.listSize)
    requires |d.kids| == 1 && d == Open(c).(kids := d.kids)
    requires Kept(rt, c.kids[0], d.kids[0]) && Len(d.kids[0]) == Len(c.kids[0]) + |vs|
    ensures Balanced(d) && KidsKept(rt, c.kids, d.kids)
    ensures NodeBalanced(c) && NodeBalanced(d)
  {
    hide Slot, CellOk, Shaped, NodeBalanced, Kept, KidsBalanced;
    ListKidOf(c);
    KeptParts(rt, c.kids[0], d.kids[0]);
    KeptType(rt, c.kids[0], d.kids[0]);
    ListNode(c, d, |vs|);
    OneKidKept(rt, c, d);
  }

  lemma ListKidOf(c: Column)
    requires Balanced(c) && IsList(c.typ)
    ensures NodeBalanced(c) && |c.kids| == 1 && c.kids[0].typ == c.typ.child.typ
  {
    BalancedNode(c);
    hide CellOk;
  }

  lemma KeptType(rt: Runtime, c: Column, d: Column)
    requires Kept(rt, c, d)
    ensures c.typ == d.typ
  {
    hide Balanced, Slot;
  }

  lemma OneKidKept(rt: Runtime, c: Column, d: Column)
    requires |c.kids| == 1 == |d.kids| && Kept(rt, c.kids[0], d.kids[0]) && NodeBalanced(d)
    ensures Balanced(d) && KidsKept(rt, c.kids, d.kids)
  {
    hide NodeBalanced, Slot;
  }

  lemma ListNode(c: Column, d: Column, n: nat)
    requires NodeBalanced(c) && IsList(c.typ) && |d.kids| == 1 && d == Open(c).(kids := d.kids)
    requires d.kids[0].typ == c.kids[0].typ && Len(d.kids[0]) == Len(c.kids[0]) + n
    requires c.typ.FixedSizeList? ==> n == c.typ.listSize
    ensures NodeBalanced(d)
  {
    hide CellOk;
    if c.typ.FixedSizeList? {
      assert (Len(c) + 1) * n == Len(c) * n + n;
    }
  }

  lemma CellGrows(rt: Runtime, c: Column, d: Column, v: Value)
    requires Balanced(c) && !Nested(c.typ) && !IsNothing(v)
    requires Encode(rt, c.typ, v).Ok? && Encode(rt, c.typ, v).value.Some?
    requires d == c.(valid := c.valid + [CanHold(c.typ)], cells := c.cells + [Encode(rt, c.typ, v).value.value])
    ensures Kept(rt, c, d) && Len(d) == Len(c) + 1
    ensures Slot(rt, d, Len(c)) == NormalForm(rt, c.typ, v)
  {
    assert NodeBalanced(c) && CanHold(c.typ);
    assert Balanced(d);
    GrownNodeKeeps(rt, c, d);
  }

  /** After the entries of a map value: both columns have grown by the entries. */
  ghost predicate EntriesGrown(rt: Runtime, t: DataType, kids: seq<Column>, after: seq<Column>, h: seq<Entry>)
    requires t.Map?
  {
    && |kids| == 2 && KidsKept(rt, kids, after)
    && Len(kids[0]) == Len(kids[1])
    && Len(after[0]) == Len(kids[0]) + |h| == Len(after[1])
    && PairRange(rt, after[0], after[1], Len(kids[0]), |h|) == NormalEntries(rt, t, h)
  }

  /** The hash read from n slots of a key and an item column. */
  ghost function PairRange(rt: Runtime, keys: Column, items: Column, start: nat, n: nat)
    : Result<seq<Entry>, ConvertError>
    requires Balanced(keys) && Balanced(items) && start + n <= Len(keys) && start + n <= Len(items)
  {
    if n == 0 then Ok([])
    else
      AddEntry(rt, PairRange(rt, keys, items, start, n - 1), Slot(rt, keys, start + n - 1), Slot(rt, items, start + n - 1))
  }

  lemma {:induction false} PairRangeKept(rt: Runtime, keys: Column, items: Column, keys': Column, items': Column,
                                         start: nat, n: nat)
    requires Kept(rt, keys, keys') && Kept(rt, items, items')
    requires start + n <= Len(keys) && start + n <= Len(items)
    ensures PairRange(rt, keys', items', start, n) == PairRange(rt, keys, items, start, n)
  {
    hide Balanced, Slot;
    if n > 0 {
      PairRangeKept(rt, keys, items, keys', items', start, n - 1);
    }
  }

  lemma {:induction false} PairRangeIsEntries(rt: Runtime, c: Column, start: nat, n: nat)
    requires Balanced(c) && c.typ.Map? && start + n <= Len(c.kids[0])
    ensures Balanced(c.kids[0]) && Balanced(c.kids[1]) && Len(c.kids[1]) == Len(c.kids[0])
    ensures PairRange(rt, c.kids[0], c.kids[1], start, n) == SlotEntries(rt, c, start, n)
  {
    hide Slot, Balanced, KidsBalanced;
    EntryNode(c);
    if n > 0 {
      PairRangeIsEntries(rt, c, start, n - 1);
    }
  }

  lemma {:induction false} AppendEntriesGrow(rt: Runtime, t: DataType, kids: seq<Column>, h: seq<Entry>)
    requires t.Map? && KidsShaped(t, kids) && KidsBalanced(kids) && Len(kids[0]) == Len(kids[1])
    requires forall i :: 0 <= i < |h| ==> TrueSizes(t.item.typ, h[i].value)
    ensures var s := AppendEntries(rt, t, kids, h);
      s.error.None? ==> EntriesGrown(rt, t, kids, s.kids, h)
    decreases t, 1, |h|
  {
    hide AppendEntry, EntriesGrown, KidsShaped, KidsBalanced, TrueSizes;
    if h == [] {
      NoEntriesGrown(rt, t, kids);
    } else {
      var n := |h| - 1;
      AppendEntriesGrow(rt, t, kids, h[..n]);
      var s := AppendEntries(rt, t, kids, h[..n]);
      if s.error.None? {
        AppendEntryGrows(rt, t, kids, s.kids, h);
      }
    }
  }

  lemma NoEntriesGrown(rt: Runtime, t: DataType, kids: seq<Column>)
    requires t.Map? && KidsShaped(t, kids) && KidsBalanced(kids) && Len(kids[0]) == Len(kids[1])
    ensures EntriesGrown(rt, t, kids, kids, [])
  {
    hide Slot, Balanced, Shaped;
  }

  /** One more entry after those before it. */
  lemma {:induction false} AppendEntryGrows(rt: Runtime, t: DataType, kids: seq<Column>, after: seq<Column>, h: seq<Entry>)
    requires t.Map? && h != [] && KidsShaped(t, after) && EntriesGrown(rt, t, kids, after, h[..|h| - 1])
    requires TrueSizes(t.item.typ, h[|h| - 1].value)
    ensures var s := AppendEntry(rt, t, after, h[|h| - 1]);
      s.error.None? ==> EntriesGrown(rt, t, kids, s.kids, h)
    decreases t, 0, 0
  {
    hide Append, NormalForm, Slot, Balanced, Shaped, CStr, Kept, TrueSizes, EntriesGrown;
    var n := |h| - 1;
    EntriesGrownParts(rt, t, kids, after, h[..n]);
    assert after[0].typ == t.key.typ && after[1].typ == t.item.typ;
    var key := QString(CStr(h[n].key));
    TextHasTrueSizes(t.key.typ, CStr(h[n].key));
    AppendGrows(rt, after[0], key);
    AppendGrows(rt, after[1], h[n].value);
    var first, second := Append(rt, after[0], key), Append(rt, after[1], h[n].value);
    assert after[0 := first.col][1 := second.col] == [first.col, second.col];
    if first.error.None? && second.error.None? {
      OneMoreEntry(rt, t, kids, after, first.col, second.col, h);
    }
  }

  lemma TextHasTrueSizes(t: DataType, text: string)
    ensures TrueSizes(t, QString(text))
  {
  }

  lemma OneMoreEntry(rt: Runtime, t: DataType, kids: seq<Column>, after: seq<Column>, key: Column, item: Column,
                     h: seq<Entry>)
    requires t.Map? && h != [] && EntriesGrown(rt, t, kids, after, h[..|h| - 1])
    requires Kept(rt, after[0], key) && Len(key) == Len(after[0]) + 1
    requires Kept(rt, after[1], item) && Len(item) == Len(after[1]) + 1
    requires Slot(rt, key, Len(after[0])) == NormalForm(rt, t.key.typ, QString(CStr(h[|h| - 1].key)))
    requires Slot(rt, item, Len(after[1])) == NormalForm(rt, t.item.typ, h[|h| - 1].value)
    ensures EntriesGrown(rt, t, kids, [key, item], h)
  {
    hide NormalForm, Slot, Balanced, CStr, PairRange, NormalEntries, Kept;
    var n := |h| - 1;
    EntriesGrownParts(rt, t, kids, after, h[..n]);
    KeptTransitive(rt, kids[0], after[0], key);
    KeptTransitive(rt, kids[1], after[1], item);
    KeptParts(rt, after[0], key);
    KeptParts(rt, after[1], item);
    PairRangeKept(rt, after[0], after[1], key, item, Len(kids[0]), n);
    PairStep(rt, key, item, Len(kids[0]), n + 1);
    EntriesStep(rt, t, h);
  }

  lemma EntriesGrownParts(rt: Runtime, t: DataType, kids: seq<Column>, after: seq<Column>, h: seq<Entry>)
    requires t.Map? && EntriesGrown(rt, t, kids, after, h)
    ensures |kids| == 2 == |after| && Kept(rt, kids[0], after[0]) && Kept(rt, kids[1], after[1])
    ensures Len(kids[0]) == Len(kids[1]) && Len(after[0]) == Len(kids[0]) + |h| == Len(after[1])
    ensures Balanced(after[0]) && Balanced(after[1])
    ensures PairRange(rt, after[0], after[1], Len(kids[0]), |h|) == NormalEntries(rt, t, h)
  {
    hide Balanced, PairRange, NormalEntries;
  }

  lemma KeptParts(rt: Runtime, c: Column, d: Column)
    requires Kept(rt, c, d)
    ensures Balanced(c) && Balanced(d) && Len(c) <= Len(d)
  {
    hide Balanced;
  }

  lemma PairStep(rt: Runtime, keys: Column, items: Column, start: nat, n: nat)
    requires Balanced(keys) && Balanced(items) && 0 < n && start + n <= Len(keys) && start + n <= Len(items)
    ensures PairRange(rt, keys, items, start, n)
      == AddEntry(rt, PairRange(rt, keys, items, start, n - 1), Slot(rt, keys, start + n - 1), Slot(rt, items, start + n - 1))
  {
    hide Balanced, Slot;
  }

  lemma EntriesStep(rt: Runtime, t: DataType, h: seq<Entry>)
    requires t.Map? && h != []
    ensures var e := h[|h| - 1];
      NormalEntries(rt, t, h)
      == AddEntry(rt, NormalEntries(rt, t, h[..|h| - 1]),
                  NormalForm(rt, t.key.typ, QString(CStr(e.key))), NormalForm(rt, t.item.typ, e.value))
  {
    hide NormalForm;
  }

  lemma MapGrows(rt: Runtime, c: Column, d: Column, h: seq<Entry>)
    requires Balanced(c) && c.typ.Map?
    requires d == Open(c).(kids := d.kids)
    requires EntriesGrown(rt, c.typ, c.kids, d.kids, h)
    ensures Kept(rt, c, d) && Len(d) == Len(c) + 1
    ensures Slot(rt, d, Len(c)) == NormalForm(rt, c.typ, QHash(h))
  {
    hide Balanced, NodeBalanced, KidsBalanced, Kept, KidsKept, NormalEntries, CellOk, SlotEntries;
    MapBalanced(rt, c, d, h);
    MapStarts(rt, c, d, h);
    GrownNodeKeeps(rt, c, d);
    LastMapSlot(rt, d, Len(c), |h|);
    PairRangeIsEntries(rt, d, Len(c.kids[0]), |h|);
  }

  lemma MapStarts(rt: Runtime, c: Column, d: Column, h: seq<Entry>)
    requires c.typ.Map? && NodeBalanced(c) && NodeBalanced(d)
    requires d == Open(c).(kids := d.kids)
    requires EntriesGrown(rt, c.typ, c.kids, d.kids, h)
    ensures Len(d) == Len(c) + 1 && |c.kids| == 2 && KidsKept(rt, c.kids, d.kids) && |d.kids| == 2
    ensures |d.starts| == Len(d) && d.starts[Len(c)] == Len(c.kids[0]) && d.valid[Len(c)]
    ensures Len(d.kids[0]) == Len(c.kids[0]) + |h| == Len(d.kids[1])
  {
    hide CellOk, Kept, PairRange, NormalEntries;
  }

  /** The last slot of a map column holds all entries from its start on. */
  lemma LastMapSlot(rt: Runtime, d: Column, i: nat, n: nat)
    requires d.typ.Map? && Balanced(d) && |d.kids| == 2 && i + 1 == Len(d) == |d.starts| && d.valid[i]
    requires Len(d.kids[0]) == d.starts[i] + n == Len(d.kids[1])
    ensures Slot(rt, d, i) == HashValue(SlotEntries(rt, d, d.starts[i], n))
  {
    hide Balanced, SlotEntries;
  }

  lemma MapBalanced(rt: Runtime, c: Column, d: Column, h: seq<Entry>)
    requires Balanced(c) && c.typ.Map?
    requires d == Open(c).(kids := d.kids)
    requires EntriesGrown(rt, c.typ, c.kids, d.kids, h)
    ensures Balanced(d) && NodeBalanced(c) && NodeBalanced(d)
  {
    hide Slot, PairRange, CellOk, NormalEntries, Balanced, Kept, KidsKept, NodeBalanced;
    BalancedNode(c);
    EntriesGrownParts(rt, c.typ, c.kids, d.kids, h);
    KeptType(rt, c.kids[0], d.kids[0]);
    KeptType(rt, c.kids[1], d.kids[1]);
    MapNode(c, d);
    NodeIsBalanced(d);
  }

  lemma MapNode(c: Column, d: Column)
    requires NodeBalanced(c) && c.typ.Map? && |c.kids| == 2 == |d.kids| && d == Open(c).(kids := d.kids)
    requires c.kids[0].typ == d.kids[0].typ && c.kids[1].typ == d.kids[1].typ
    requires Len(c.kids[0]) <= Len(d.kids[0]) == Len(d.kids[1])
    ensures NodeBalanced(d)
  {
    hide CellOk;
  }

  lemma NodeIsBalanced(c: Column)
    requires NodeBalanced(c) && forall k :: 0 <= k < |c.kids| ==> Balanced(c.kids[k])
    ensures Balanced(c)
  {
    hide NodeBalanced;
  }
}
