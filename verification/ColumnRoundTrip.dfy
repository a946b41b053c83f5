/** Building a column and reading it back: the result for every buildable type and every list of values. */
module ColumnRoundTrip {
  import opened Wrappers
  import opened ArrowTypes
  import opened QoreValues
  import opened Scalars
  import opened ArrowArrays
  import opened BuilderColumns
  import opened ColumnMeaning
  import opened ColumnGrowth

  // Finish

  lemma {:induction false} NullArrayWellFormed(t: DataType, n: nat)
    ensures WellFormed(NullArray(t, n))
  {
    var a := NullArray(t, n);
    forall k | 0 <= k < |a.data.kids|
      ensures a.data.kids[k] == NullArray(ChildTypes(t)[k], n) && WellFormed(a.data.kids[k])
    {
      NullArrayWellFormed(ChildTypes(t)[k], n);
    }
    assert KidsOk(a.data);
    hide SlotOk, KidsOk;
  }

  lemma FinishKids(c: Column)
    requires NodeBalanced(c)
    ensures CanHold(c.typ) ==>
      |Finish(c).data.kids| == |c.kids| && forall k :: 0 <= k < |c.kids| ==> Finish(c).data.kids[k] == Finish(c.kids[k])
    ensures !CanHold(c.typ) ==>
      Finish(c).data.kids == NullArray(c.typ, if Windowed(c.typ) then Len(c) else 0).data.kids
  {
    hide CellOk;
  }

  lemma {:induction false} FinishWellFormed(c: Column)
    requires Balanced(c)
    ensures WellFormed(Finish(c))
    ensures Finish(c).data.typ == c.typ && Finish(c).offset == 0 && Finish(c).length == Len(c)
    decreases c, 1
  {
    assert NodeBalanced(c);
    FinishKidsOk(c);
    hide KidsOk, Balanced, KidsBalanced;
    forall p | 0 <= p < Len(c) && c.valid[p]
      ensures SlotOk(Finish(c).data, p)
    {
      FinishSlotOk(c, p);
    }
    FinishWindow(c);
    hide SlotOk, Finish;
    FinishData(c);
  }

  lemma FinishData(c: Column)
    ensures var a := Finish(c);
      && a.offset == 0 && a.length == Len(c)
      && a.data.typ == c.typ && a.data.valid == Some(c.valid) && a.data.cells == c.cells
  {
  }

  lemma {:induction false} FinishKidsOk(c: Column)
    requires Balanced(c)
    ensures KidsOk(Finish(c).data)
    decreases c, 0
  {
    assert KidsBalanced(c.kids) && NodeBalanced(c);
    FinishKids(c);
    if CanHold(c.typ) {
      forall k | 0 <= k < |c.kids|
        ensures WellFormed(Finish(c.kids[k])) && Finish(c.kids[k]).data.typ == c.kids[k].typ
      {
        FinishWellFormed(c.kids[k]);
      }
      hide WellFormed, Finish, Balanced;
      FinishData(c);
    } else {
      var n := if Windowed(c.typ) then Len(c) else 0;
      NullArrayWellFormed(c.typ, n);
      assert KidsOk(NullArray(c.typ, n).data);
    }
  }

  lemma FinishWindow(c: Column)
    requires NodeBalanced(c)
    ensures Windowed(c.typ) ==>
      forall k :: 0 <= k < |Finish(c).data.kids| ==> Finish(c).data.kids[k].length >= Len(c)
  {
    FinishKids(c);
    if c.typ.Struct? {
      forall k | 0 <= k < |c.kids| { FinishData(c.kids[k]); }
    }
  }

  /** The closed offsets of a finished list or map give every slot the window it had in the builder. */
  lemma FinishedWindow(c: Column, p: nat)
    requires NodeBalanced(c) && p < Len(c) && (Growing(c.typ) || c.typ.FixedSizeList?)
    ensures HasOffsets(Finish(c).data, p)
    ensures WindowStart(Finish(c).data, p) == From(c, p)
    ensures WindowLength(Finish(c).data, p) == To(c, p) - From(c, p)
  {
    assert c.kids != [];
    hide CellOk, BuilderTypes;
  }

  lemma FinishSlotOk(c: Column, p: nat)
    requires NodeBalanced(c) && p < Len(c) && c.valid[p]
    ensures SlotOk(Finish(c).data, p)
  {
    FinishKids(c);
    FinishData(c);
    forall k | 0 <= k < |c.kids| { FinishData(c.kids[k]); }
    hide Finish, CellOk;
    if Growing(c.typ) || c.typ.FixedSizeList? {
      FinishedWindow(c, p);
      WindowInChild(c, p);
    }
  }

  // Reading what was built

  lemma FinishFacts(c: Column)
    requires Balanced(c)
    ensures WellFormed(Finish(c)) && KidsOk(Finish(c).data) && NodeBalanced(c) && KidsBalanced(c.kids)
    ensures var a := Finish(c);
      && a.offset == 0 && a.length == Len(c)
      && a.data.typ == c.typ && a.data.valid == Some(c.valid) && a.data.cells == c.cells
    ensures CanHold(c.typ) ==>
      && |Finish(c).data.kids| == |c.kids|
      && forall k :: 0 <= k < |c.kids| ==> Finish(c).data.kids[k] == Finish(c.kids[k]) && Balanced(c.kids[k])
  {
    FinishWellFormed(c);
    FinishKidsOk(c);
    FinishData(c);
    FinishKids(c);
  }

  /** A finished array reads, slot by slot, what the builder meant. */
  lemma {:induction false} FinishReads(rt: Runtime, c: Column, i: nat)
    requires Balanced(c) && i < Len(c)
    ensures WellFormed(Finish(c)) && Finish(c).length == Len(c)
    ensures Read(rt, Finish(c), i) == Slot(rt, c, i)
    decreases c, 1, 0
  {
    hide Finish, WellFormed, Balanced, KidsOk, KidsBalanced, CellOk, Read, Slot;
    FinishFacts(c);
    if c.valid[i] && c.typ.Struct? {
      FinishFields(rt, c, i, |c.kids|);
      StructReads(rt, c, i);
    } else if c.valid[i] && IsList(c.typ) {
      WindowInChild(c, i);
      FinishRange(rt, c.kids[0], From(c, i), To(c, i) - From(c, i));
      ListReads(rt, c, i);
    } else if c.valid[i] && c.typ.Map? {
      WindowInChild(c, i);
      FinishEntries(rt, c, From(c, i), To(c, i) - From(c, i));
      MapReads(rt, c, i);
    } else {
      CellReads(rt, c, i);
    }
  }

  lemma StructReads(rt: Runtime, c: Column, i: nat)
    requires Balanced(c) && i < Len(c) && c.valid[i] && c.typ.Struct?
    requires WellFormed(Finish(c)) && |c.kids| == |c.typ.fields|
    requires ReadFields(rt, Finish(c), i, |c.kids|) == SlotFields(rt, c, i, |c.kids|)
    ensures Read(rt, Finish(c), i) == Slot(rt, c, i)
  {
    hide Finish, WellFormed, Balanced, ReadFields, SlotFields;
    FinishFacts(c);
  }

  lemma ListReads(rt: Runtime, c: Column, i: nat)
    requires Balanced(c) && i < Len(c) && c.valid[i] && IsList(c.typ)
    requires NodeBalanced(c) && 0 <= From(c, i) <= To(c, i) <= Len(c.kids[0]) && Balanced(c.kids[0])
    requires WellFormed(Finish(c.kids[0])) && Finish(c.kids[0]).length == Len(c.kids[0])
    requires ReadRange(rt, Finish(c.kids[0]), From(c, i), To(c, i) - From(c, i))
          == SlotRange(rt, c.kids[0], From(c, i), To(c, i) - From(c, i))
    ensures WellFormed(Finish(c)) && Finish(c).length == Len(c)
    ensures Read(rt, Finish(c), i) == Slot(rt, c, i)
  {
    hide Finish, WellFormed, Balanced, ReadRange, SlotRange, KidsOk, KidsBalanced;
    FinishFacts(c);
    FinishedWindow(c, i);
    hide From, To, WindowStart, WindowLength;
  }

  lemma MapReads(rt: Runtime, c: Column, i: nat)
    requires Balanced(c) && i < Len(c) && c.valid[i] && c.typ.Map?
    requires NodeBalanced(c) && 0 <= From(c, i) <= To(c, i) <= Len(c.kids[0])
    requires KidsOk(Finish(c).data) && Finish(c).data.typ == c.typ && |Finish(c).data.kids| == 2
    requires Finish(c).data.kids[0].length == Len(c.kids[0]) == Finish(c).data.kids[1].length
    requires ReadEntries(rt, Finish(c).data, From(c, i), To(c, i) - From(c, i))
          == SlotEntries(rt, c, From(c, i), To(c, i) - From(c, i))
    ensures WellFormed(Finish(c)) && Finish(c).length == Len(c)
    ensures Read(rt, Finish(c), i) == Slot(rt, c, i)
  {
    hide Finish, WellFormed, Balanced, ReadEntries, SlotEntries, KidsOk, KidsBalanced;
    FinishFacts(c);
    FinishedWindow(c, i);
    hide From, To, WindowStart, WindowLength;
  }

  lemma CellReads(rt: Runtime, c: Column, i: nat)
    requires Balanced(c) && i < Len(c) && (c.valid[i] ==> !Nested(c.typ))
    ensures WellFormed(Finish(c)) && Finish(c).length == Len(c)
    ensures Read(rt, Finish(c), i) == Slot(rt, c, i)
  {
    hide Finish, WellFormed, Balanced, KidsBalanced, KidsOk;
    FinishFacts(c);
  }

  lemma {:induction false} FinishRange(rt: Runtime, c: Column, start: nat, n: nat)
    requires Balanced(c) && start + n <= Len(c)
    ensures WellFormed(Finish(c)) && Finish(c).length == Len(c)
    ensures ReadRange(rt, Finish(c), start, n) == SlotRange(rt, c, start, n)
    decreases c, 2, n
  {
    hide WellFormed, Balanced, Finish, Read, Slot;
    FinishFacts(c);
    if n > 0 {
      FinishRange(rt, c, start, n - 1);
      FinishReads(rt, c, start + n - 1);
    }
  }

  lemma {:induction false} FinishFields(rt: Runtime, c: Column, i: nat, k: nat)
    requires Balanced(c) && c.typ.Struct? && i < Len(c) && k <= |c.kids|
    ensures WellFormed(Finish(c)) && Finish(c).length == Len(c) && Finish(c).data.typ == c.typ
    ensures |c.kids| == |c.typ.fields|
    ensures ReadFields(rt, Finish(c), i, k) == SlotFields(rt, c, i, k)
    decreases c, 0, k
  {
    hide Finish, Balanced, Slot, Read, WellFormed;
    FinishFacts(c);
    if k > 0 {
      FinishFields(rt, c, i, k - 1);
      var kid := c.kids[k - 1];
      FinishFacts(kid);
      FinishReads(rt, kid, i);
      assert Slice(Finish(kid), 0, Len(c)) == Finish(kid);
    }
  }

  lemma {:induction false} FinishEntries(rt: Runtime, c: Column, start: nat, n: nat)
    requires Balanced(c) && c.typ.Map? && start + n <= Len(c.kids[0])
    ensures KidsOk(Finish(c).data) && Finish(c).data.typ == c.typ && |Finish(c).data.kids| == 2
    ensures Finish(c).data.kids[0].length == Len(c.kids[0]) == Finish(c).data.kids[1].length
    ensures ReadEntries(rt, Finish(c).data, start, n) == SlotEntries(rt, c, start, n)
    decreases c, 0, n
  {
    hide Finish, Balanced, Slot, Read, WellFormed, KidsOk, ReadEntries, SlotEntries;
    FinishFacts(c);
    FinishFacts(c.kids[0]);
    FinishFacts(c.kids[1]);
    if n > 0 {
      FinishEntries(rt, c, start, n - 1);
      FinishReads(rt, c.kids[0], start + n - 1);
      FinishReads(rt, c.kids[1], start + n - 1);
    }
    ReadEntriesStep(rt, Finish(c).data, start, n);
    SlotEntriesStep(rt, c, start, n);
  }

  lemma ReadEntriesStep(rt: Runtime, d: Buffers, start: nat, n: nat)
    requires KidsOk(d) && d.typ.Map? && |d.kids| == 2 && WellFormed(d.kids[0]) && WellFormed(d.kids[1])
    requires start + n <= d.kids[0].length && start + n <= d.kids[1].length
    ensures ReadEntries(rt, d, start, n)
      == if n == 0 then Ok([])
         else AddEntry(rt, ReadEntries(rt, d, start, n - 1),
                       Read(rt, d.kids[0], start + n - 1), Read(rt, d.kids[1], start + n - 1))
  {
    hide KidsOk, WellFormed, Read;
  }

  lemma SlotEntriesStep(rt: Runtime, c: Column, start: nat, n: nat)
    requires Balanced(c) && c.typ.Map? && |c.kids| == 2 && Balanced(c.kids[0]) && Balanced(c.kids[1])
    requires Len(c.kids[0]) == Len(c.kids[1]) && start + n <= Len(c.kids[0])
    ensures SlotEntries(rt, c, start, n)
      == if n == 0 then Ok([])
         else AddEntry(rt, SlotEntries(rt, c, start, n - 1),
                       Slot(rt, c.kids[0], start + n - 1), Slot(rt, c.kids[1], start + n - 1))
  {
    hide Balanced, Slot;
  }

  // Which values are accepted

  /** appendToBuilder fails exactly on the values the column type does not accept, whatever the builder holds. */
  lemma {:induction false} AppendFailsExactly(rt: Runtime, c: Column, v: Value)
    requires Shaped(c)
    ensures Append(rt, c, v).error.None? <==> Accepts(rt, c.typ, v)
    decreases c.typ, 2, 0
  {
    assert KidsShaped(c.typ, c.kids);
    if IsNothing(v) {
    } else if c.typ.Struct? {
      if v.QHash? {
        AppendFieldsFailsExactly(rt, c.typ, c.kids, v.entries, |c.kids|);
      }
    } else if IsList(c.typ) {
      if v.QList? {
        AppendAllFailsExactly(rt, c.kids[0], v.items);
      }
    } else if c.typ.Map? {
      if v.QHash? {
        AppendEntriesFailsExactly(rt, c.typ, c.kids, v.entries);
      }
    }
  }

  lemma {:induction false} AppendAllFailsExactly(rt: Runtime, c: Column, vs: seq<Value>)
    requires Shaped(c)
    ensures AppendAll(rt, c, vs).error.None? <==> forall i :: 0 <= i < |vs| ==> Accepts(rt, c.typ, vs[i])
    decreases c.typ, 3, |vs|
  {
    hide Shaped, Append, Accepts;
    if vs != [] {
      var n := |vs| - 1;
      AppendAllFailsExactly(rt, c, vs[..n]);
      AppendFailsExactly(rt, AppendAll(rt, c, vs[..n]).col, vs[n]);
      assert forall i :: 0 <= i < n ==> vs[..n][i] == vs[i];
    }
  }

  lemma {:induction false} AppendFieldsFailsExactly(rt: Runtime, t: DataType, kids: seq<Column>, h: seq<Entry>, k: nat)
    requires t.Struct? && KidsShaped(t, kids) && k <= |kids| == |t.fields|
    ensures AppendFields(rt, t, kids, h, k).error.None?
       <==> forall j :: 0 <= j < k ==> Accepts(rt, t.fields[j].typ, FieldValue(t, h, j))
    decreases t, 1, k
  {
    hide KidsShaped, Shaped, Append, Accepts, FieldValue;
    if k > 0 {
      AppendFieldsFailsExactly(rt, t, kids, h, k - 1);
      var s := AppendFields(rt, t, kids, h, k - 1);
      FieldKid(t, s.kids, k - 1);
      AppendFailsExactly(rt, s.kids[k - 1], FieldValue(t, h, k - 1));
    }
  }

  lemma FieldKid(t: DataType, kids: seq<Column>, k: nat)
    requires t.Struct? && KidsShaped(t, kids) && k < |t.fields|
    ensures |kids| == |t.fields| && kids[k].typ == t.fields[k].typ && Shaped(kids[k])
  {
    hide Shaped;
  }

  lemma {:induction false} AppendEntriesFailsExactly(rt: Runtime, t: DataType, kids: seq<Column>, h: seq<Entry>)
    requires t.Map? && KidsShaped(t, kids)
    ensures AppendEntries(rt, t, kids, h).error.None?
       <==> forall i :: 0 <= i < |h| ==> AcceptsEntry(rt, t, h[i])
    decreases t, 1, |h|
  {
    hide Shaped, Append, Accepts;
    if h != [] {
      var n := |h| - 1;
      AppendEntriesFailsExactly(rt, t, kids, h[..n]);
      assert forall i :: 0 <= i < n ==> h[..n][i] == h[i];
      var s := AppendEntries(rt, t, kids, h[..n]);
      var key := Append(rt, s.kids[0], QString(CStr(h[n].key)));
      AppendFailsExactly(rt, s.kids[0], QString(CStr(h[n].key)));
      AppendFailsExactly(rt, s.kids[1], h[n].value);
      assert s.kids[0 := key.col][1] == s.kids[1];
    }
  }

  // The round trip

  lemma EmptyNode(t: DataType)
    requires Buildable(t)
    ensures NodeBalanced(Empty(t)) && Empty(t).typ == t && Len(Empty(t)) == 0
    ensures |Empty(t).kids| == |BuilderTypes(t)|
    ensures forall k :: 0 <= k < |BuilderTypes(t)| ==> Empty(t).kids[k] == Empty(BuilderTypes(t)[k])
  {
    hide CellOk;
    EmptyKids(t);
    hide Empty;
  }

  lemma EmptyKids(t: DataType)
    ensures var c := Empty(t);
      c.typ == t && c.valid == [] && c.cells == [] && c.starts == [] && |c.kids| == |BuilderTypes(t)|
    ensures forall k :: 0 <= k < |BuilderTypes(t)| ==>
      Empty(t).kids[k] == Empty(BuilderTypes(t)[k]) && Empty(t).kids[k].typ == BuilderTypes(t)[k] && Len(Empty(t).kids[k]) == 0
  {
  }

  lemma {:induction false} EmptyBalanced(t: DataType)
    requires Buildable(t)
    ensures Balanced(Empty(t)) && Empty(t).typ == t && Len(Empty(t)) == 0
  {
    hide Empty, NodeBalanced;
    EmptyNode(t);
    forall k | 0 <= k < |BuilderTypes(t)|
      ensures Balanced(Empty(BuilderTypes(t)[k]))
    {
      hide Balanced;
      EmptyBalanced(BuilderTypes(t)[k]);
    }
    BalancedKids(Empty(t));
  }

  lemma BalancedKids(c: Column)
    requires NodeBalanced(c) && forall k :: 0 <= k < |c.kids| ==> Balanced(c.kids[k])
    ensures Balanced(c)
  {
    hide NodeBalanced;
  }

  /** listToArray and arrayToList: building succeeds exactly when every value is accepted, and the array then has one
      slot per value. Unless a list of a wrong size got through the length check, the array obeys the Arrow layout and
      reads back as the normal form of every value in order. */
  lemma BuildThenRead(rt: Runtime, t: DataType, vs: seq<Value>)
    ensures Build(rt, t, vs).Ok? <==> forall i :: 0 <= i < |vs| ==> Accepts(rt, t, vs[i])
    ensures Build(rt, t, vs).Ok? ==>
              Build(rt, t, vs).value.data.typ == t && Build(rt, t, vs).value.length == |vs|
    ensures Build(rt, t, vs).Ok? && TrueColumn(t, vs) ==>
              var a := Build(rt, t, vs).value;
              && WellFormed(a) && Values(rt, a) == NormalItems(rt, t, vs)
              && forall i :: 0 <= i < |vs| ==> Read(rt, a, i) == NormalForm(rt, t, vs[i])
  {
    hide WellFormed, Finish, AppendAll, Accepts, TrueSizes, Shaped, Empty, ReadRange, NormalForm, Buildable;
    EmptyShaped(t);
    AppendAllFailsExactly(rt, Empty(t), vs);
    AppendAllLength(rt, Empty(t), vs);
    EmptyKids(t);
    var s := AppendAll(rt, Empty(t), vs);
    if s.error.None? {
      FinishLength(s.col);
      if TrueColumn(t, vs) {
        BuiltReads(rt, t, vs);
      }
    }
  }

  lemma FinishLength(c: Column)
    ensures Finish(c).data.typ == c.typ && Finish(c).length == Len(c)
  {
  }

  lemma BuiltReads(rt: Runtime, t: DataType, vs: seq<Value>)
    requires TrueColumn(t, vs) && Build(rt, t, vs).Ok?
    ensures var a := Build(rt, t, vs).value;
      && WellFormed(a) && a.length == |vs| && Values(rt, a) == NormalItems(rt, t, vs)
      && forall i :: 0 <= i < |vs| ==> Read(rt, a, i) == NormalForm(rt, t, vs[i])
  {
    hide WellFormed, Finish, Balanced, AppendAll, TrueSizes, Shaped, Empty, SlotRange, ReadRange, NormalForm, Buildable;
    EmptyBalanced(t);
    EmptyShaped(t);
    AppendAllGrows(rt, Empty(t), vs);
    var s := AppendAll(rt, Empty(t), vs);
    FinishWellFormed(s.col);
    FinishRange(rt, s.col, 0, |vs|);
    forall i | 0 <= i < |vs|
      ensures Read(rt, Finish(s.col), i) == NormalForm(rt, t, vs[i])
    {
      FinishReads(rt, s.col, i);
      AppendAllSlot(rt, Empty(t), vs, i);
    }
  }
}
