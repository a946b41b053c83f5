/** The builders themselves: a tree of mutable objects, filled in place by appendToBuilder.
    Every method is proved against the functions of BuilderColumns on the contents of the tree. */
module ArrowBuilders {
  import opened Wrappers
  import opened ArrowTypes
  import opened QoreValues
  import opened Scalars
  import opened ArrowArrays
  import opened BuilderColumns

  /** An arrow::ArrayBuilder. The tree of builders is fixed when it is made; only the buffers change. */
  class Builder {
    const typ: DataType
    const kids: seq<Builder>
    ghost const Repr: set<Builder>

    var valid: seq<bool>
    var cells: seq<Cell>
    var starts: seq<nat>

    constructor (t: DataType, kids: seq<Builder>)
      requires |kids| == |BuilderTypes(t)|
      requires forall k :: 0 <= k < |kids| ==> kids[k].typ == BuilderTypes(t)[k] && kids[k].Tree()
      requires forall j, k :: 0 <= j < k < |kids| ==> kids[j].Repr !! kids[k].Repr
      ensures Tree() && typ == t && this.kids == kids
      ensures forall b :: b in Repr ==> b == this || exists k :: 0 <= k < |kids| && b in kids[k].Repr
      ensures fresh(this) && valid == [] && cells == [] && starts == []
    {
      this.typ := t;
      this.kids := kids;
      this.Repr := {this} + set k, b | 0 <= k < |kids| && b in kids[k].Repr :: b;
      this.valid, this.cells, this.starts := [], [], [];
    }

    /** No builder occurs twice in the tree. */
    ghost predicate Tree()
      decreases typ
    {
      && this in Repr
      && |kids| == |BuilderTypes(typ)|
      && (forall k :: 0 <= k < |kids| ==>
            && kids[k].typ == BuilderTypes(typ)[k]
            && kids[k].Repr <= Repr && this !in kids[k].Repr
            && kids[k].Tree())
      && (forall j, k :: 0 <= j < k < |kids| ==> kids[j].Repr !! kids[k].Repr)
    }

    /** What the tree holds. */
    ghost function Contents(): (c: Column)
      requires Tree()
      reads Repr
      ensures c.typ == typ && Shaped(c)
      decreases typ
    {
      var columns := seq(|kids|, k requires 0 <= k < |kids| reads Repr => kids[k].Contents());
      assert KidsShaped(typ, columns);
      Column(typ, valid, cells, starts, columns)
    }

    /** AppendNull when ok is false, AppendEmptyValue when it is true. */
    method AppendBlank(ok: bool)
      requires Tree()
      modifies Repr
      ensures Contents() == Blank(old(Contents()), ok)
      decreases typ, 1, 0
    {
      hide Blank, Blanks, Shaped, BuilderTypes;
      ghost var before := Contents();
      BlankCases(before, ok);
      if typ.Struct? {
        AppendEmptyToKids();
        valid := valid + [ok && CanHold(typ)];
        assert Contents().kids == Blank(before, ok).kids;
      } else if typ.FixedSizeList? {
        OneKid(typ);
        kids[0].AppendEmptyValues(if typ.listSize < 0 then 0 else typ.listSize);
        valid := valid + [ok && CanHold(typ)];
        assert Contents().kids == Blank(before, ok).kids;
      } else if Growing(typ) {
        OneKid(typ);
        valid, starts := valid + [ok && CanHold(typ)], starts + [|kids[0].valid|];
        assert Contents().kids == before.kids;
      } else {
        valid, cells := valid + [ok && CanHold(typ)], cells + [ZeroCell(typ)];
        assert Contents().kids == before.kids;
      }
    }

    /** Each child of a struct gets one empty value. */
    method AppendEmptyToKids()
      requires Tree() && typ.Struct?
      modifies Repr
      ensures valid == old(valid) && cells == old(cells) && starts == old(starts)
      ensures forall j :: 0 <= j < |kids| ==> kids[j].Contents() == Blank(old(kids[j].Contents()), true)
      decreases typ, 0, 0
    {
      hide Blank, Shaped, BuilderTypes;
      for k := 0 to |kids|
        invariant valid == old(valid) && cells == old(cells) && starts == old(starts)
        invariant forall j :: 0 <= j < k ==> kids[j].Contents() == Blank(old(kids[j].Contents()), true)
        invariant forall j :: k <= j < |kids| ==> kids[j].Contents() == old(kids[j].Contents())
      {
        kids[k].AppendBlank(true);
      }
    }

    method AppendEmptyValues(n: nat)
      requires Tree()
      modifies Repr
      ensures Contents() == Blanks(old(Contents()), n)
      decreases typ, 2, n
    {
      for i := 0 to n
        invariant Contents() == Blanks(old(Contents()), i)
      {
        AppendBlank(true);
      }
    }
  }

  lemma OneKid(t: DataType)
    requires t.FixedSizeList? || Growing(t)
    ensures |BuilderTypes(t)| >= 1 && BuilderTypes(t)[0] < t
  {
  }

  /** A blank slot, case by case. */
  lemma BlankCases(c: Column, ok: bool)
    requires Shaped(c)
    ensures var d, valid := Blank(c, ok), c.valid + [ok && CanHold(c.typ)];
      && (c.typ.Struct? ==>
            && d == c.(valid := valid, kids := d.kids) && |d.kids| == |c.kids|
            && forall k :: 0 <= k < |c.kids| ==> Shaped(c.kids[k]) && d.kids[k] == Blank(c.kids[k], true))
      && (c.typ.FixedSizeList? ==>
            && |c.kids| == 1 && Shaped(c.kids[0])
            && d == c.(valid := valid, kids := [Blanks(c.kids[0], if c.typ.listSize < 0 then 0 else c.typ.listSize)]))
      && (Growing(c.typ) ==> |c.kids| >= 1 && d == c.(valid := valid, starts := c.starts + [Len(c.kids[0])]))
      && (!Nested(c.typ) ==> d == c.(valid := valid, cells := c.cells + [ZeroCell(c.typ)]))
  {
    hide Blanks;
  }

  // The first error ends a loop.

  lemma {:induction false} AllErrorStays(rt: Runtime, c: Column, vs: seq<Value>, m: nat)
    requires Shaped(c) && m <= |vs| && AppendAll(rt, c, vs[..m]).error.Some?
    ensures AppendAll(rt, c, vs) == AppendAll(rt, c, vs[..m])
    decreases |vs| - m
  {
    hide Shaped, Append;
    if m < |vs| {
      assert vs[..m + 1][..m] == vs[..m];
      AllErrorStays(rt, c, vs, m + 1);
    } else {
      assert vs[..m] == vs;
    }
  }

  lemma {:induction false} FieldsErrorStays(rt: Runtime, t: DataType, kids: seq<Column>, h: seq<Entry>, m: nat, n: nat)
    requires t.Struct? && KidsShaped(t, kids) && m <= n <= |kids| && AppendFields(rt, t, kids, h, m).error.Some?
    ensures AppendFields(rt, t, kids, h, n) == AppendFields(rt, t, kids, h, m)
  {
    hide KidsShaped, AppendField;
    if m < n {
      FieldsErrorStays(rt, t, kids, h, m, n - 1);
    }
  }

  lemma {:induction false} EntriesErrorStays(rt: Runtime, t: DataType, kids: seq<Column>, h: seq<Entry>, m: nat)
    requires t.Map? && KidsShaped(t, kids) && m <= |h| && AppendEntries(rt, t, kids, h[..m]).error.Some?
    ensures AppendEntries(rt, t, kids, h) == AppendEntries(rt, t, kids, h[..m])
    decreases |h| - m
  {
    hide KidsShaped, AppendEntry;
    if m < |h| {
      assert h[..m + 1][..m] == h[..m];
      EntriesErrorStays(rt, t, kids, h, m + 1);
    } else {
      assert h[..m] == h;
    }
  }

  /** appendToBuilder: the error it raised, if any, and exactly the state that Append describes, also after an error. */
  method AppendToBuilder(rt: Runtime, b: Builder, v: Value) returns (error: Option<ConvertError>)
    requires b.Tree()
    modifies b.Repr
    ensures Step(b.Contents(), error) == Append(rt, old(b.Contents()), v)
    decreases b.typ, 1, 0
  {
    hide Append, AppendAll, AppendFields, AppendEntries, Blank, Encode, Narrow, Shaped, BuilderTypes, Open;
    ghost var before := b.Contents();
    AppendCases(rt, before, v);
    error := None;
    if IsNothing(v) {
      b.AppendBlank(false);
    } else if b.typ.Struct? {
      if !v.QHash? {
        return Some(ExpectedHash);
      }
      b.valid := b.valid + [true];
      assert b.Contents().kids == before.kids;
      error := AppendStructFields(rt, b, v.entries);
    } else if IsList(b.typ) {
      if !v.QList? {
        return Some(ExpectedList);
      }
      if b.typ.FixedSizeList? && Narrow(W32, true, |v.items|) != b.typ.listSize {
        return Some(WrongListSize);
      }
      error := AppendListValue(rt, b, v.items);
    } else if b.typ.Map? {
      if !v.QHash? {
        return Some(ExpectedHash);
      }
      OneKid(b.typ);
      b.valid, b.starts := b.valid + [true], b.starts + [|b.kids[0].valid|];
      assert b.Contents().kids == before.kids;
      error := AppendMapEntries(rt, b, v.entries);
    } else {
      var stored := Encode(rt, b.typ, v);
      if stored.Err? {
        return Some(stored.error);
      }
      if stored.value.None? {
        b.AppendBlank(false);
      } else {
        b.valid, b.cells := b.valid + [CanHold(b.typ)], b.cells + [stored.value.value];
      }
    }
  }

  /** An append, case by case. */
  lemma AppendCases(rt: Runtime, c: Column, v: Value)
    requires Shaped(c)
    ensures KidsShaped(c.typ, c.kids)
    ensures var s, longer := Append(rt, c, v), c.(valid := c.valid + [true]);
      && (IsNothing(v) ==> s == Step(Blank(c, false), None))
      && (!IsNothing(v) && (c.typ.Struct? || c.typ.Map?) && !v.QHash? ==> s == Step(c, Some(ExpectedHash)))
      && (c.typ.Struct? && v.QHash? ==>
            var t := AppendFields(rt, c.typ, c.kids, v.entries, |c.kids|);
            s == Step(longer.(kids := t.kids), t.error))
      && (c.typ.Map? && v.QHash? ==>
            |c.kids| >= 1 && var t := AppendEntries(rt, c.typ, c.kids, v.entries);
            s == Step(longer.(starts := c.starts + [Len(c.kids[0])], kids := t.kids), t.error))
      && (!IsNothing(v) && !Nested(c.typ) ==>
            var stored := Encode(rt, c.typ, v);
            s == if stored.Err? then Step(c, Some(stored.error))
                 else if stored.value.None? then Step(Blank(c, false), None)
                 else Step(c.(valid := c.valid + [CanHold(c.typ)], cells := c.cells + [stored.value.value]), None))
    ensures IsList(c.typ) && !IsNothing(v) ==> ListCases(rt, c, v, Append(rt, c, v))
  {
    hide Append, AppendAll, AppendFields, AppendEntries, Blank, Encode, ListCases, Shaped;
    KidsAreShaped(c);
    if IsNothing(v) {
      AppendNothing(rt, c, v);
    } else if c.typ.Struct? {
      AppendStructCase(rt, c, v);
    } else if c.typ.Map? {
      AppendMapCase(rt, c, v);
    } else if IsList(c.typ) {
      AppendListCase(rt, c, v);
    } else {
      AppendLeafCase(rt, c, v);
    }
  }

  lemma KidsAreShaped(c: Column)
    requires Shaped(c)
    ensures KidsShaped(c.typ, c.kids)
  {
  }

  lemma AppendNothing(rt: Runtime, c: Column, v: Value)
    requires Shaped(c) && IsNothing(v)
    ensures Append(rt, c, v) == Step(Blank(c, false), None)
  {
    hide Blank;
  }

  lemma AppendStructCase(rt: Runtime, c: Column, v: Value)
    requires Shaped(c) && !IsNothing(v) && c.typ.Struct? && KidsShaped(c.typ, c.kids)
    ensures Append(rt, c, v)
      == if !v.QHash? then Step(c, Some(ExpectedHash))
         else
           var t := AppendFields(rt, c.typ, c.kids, v.entries, |c.kids|);
           Step(c.(valid := c.valid + [true], kids := t.kids), t.error)
  {
    hide AppendFields, Shaped, KidsShaped;
  }

  lemma AppendMapCase(rt: Runtime, c: Column, v: Value)
    requires Shaped(c) && !IsNothing(v) && c.typ.Map? && KidsShaped(c.typ, c.kids)
    ensures |c.kids| >= 1
    ensures Append(rt, c, v)
      == if !v.QHash? then Step(c, Some(ExpectedHash))
         else
           var t := AppendEntries(rt, c.typ, c.kids, v.entries);
           Step(c.(valid := c.valid + [true], starts := c.starts + [Len(c.kids[0])], kids := t.kids), t.error)
  {
    hide AppendEntries, Shaped;
  }

  lemma AppendListCase(rt: Runtime, c: Column, v: Value)
    requires Shaped(c) && !IsNothing(v) && IsList(c.typ)
    ensures ListCases(rt, c, v, Append(rt, c, v))
  {
    hide AppendAll, Shaped, Narrow;
    ListKid(c);
  }

  lemma AppendLeafCase(rt: Runtime, c: Column, v: Value)
    requires Shaped(c) && !IsNothing(v) && !Nested(c.typ)
    ensures var stored := Encode(rt, c.typ, v);
      Append(rt, c, v)
      == if stored.Err? then Step(c, Some(stored.error))
         else if stored.value.None? then Step(Blank(c, false), None)
         else Step(c.(valid := c.valid + [CanHold(c.typ)], cells := c.cells + [stored.value.value]), None)
  {
    hide Encode, Blank, Shaped;
  }

  ghost predicate ListCases(rt: Runtime, c: Column, v: Value, s: Step)
    requires Shaped(c) && IsList(c.typ)
  {
    if !v.QList? then s == Step(c, Some(ExpectedList))
    else if c.typ.FixedSizeList? && Narrow(W32, true, |v.items|) != c.typ.listSize then s == Step(c, Some(WrongListSize))
    else
      && |c.kids| == 1 && Shaped(c.kids[0])
      && var t := AppendAll(rt, c.kids[0], v.items);
         var starts := if Growing(c.typ) then c.starts + [Len(c.kids[0])] else c.starts;
         s == Step(c.(valid := c.valid + [true], starts := starts, kids := [t.col]), t.error)
  }

  /** A list slot is opened, and its elements go to the child. */
  method AppendListValue(rt: Runtime, b: Builder, items: seq<Value>) returns (error: Option<ConvertError>)
    requires b.Tree() && IsList(b.typ)
    requires !b.typ.FixedSizeList? || Narrow(W32, true, |items|) == b.typ.listSize
    modifies b.Repr
    ensures ListCases(rt, old(b.Contents()), QList(items), Step(b.Contents(), error))
    decreases b.typ, 0, 0
  {
    hide AppendAll, Shaped, BuilderTypes, Narrow;
    ghost var before := b.Contents();
    OneKid(b.typ);
    ListKid(before);
    if Growing(b.typ) {
      b.starts := b.starts + [|b.kids[0].valid|];
    }
    b.valid := b.valid + [true];
    error := AppendValues(rt, b.kids[0], items);
    assert b.Contents().kids == [b.kids[0].Contents()];
  }

  lemma ListKid(c: Column)
    requires Shaped(c) && IsList(c.typ)
    ensures |c.kids| == 1 && Shaped(c.kids[0])
  {
  }

  /** The loop over list elements, and over the values of a column. */
  method AppendValues(rt: Runtime, b: Builder, vs: seq<Value>) returns (error: Option<ConvertError>)
    requires b.Tree()
    modifies b.Repr
    ensures Step(b.Contents(), error) == AppendAll(rt, old(b.Contents()), vs)
    decreases b.typ, 2, 0
  {
    hide Append, Shaped;
    ghost var before := b.Contents();
    for i := 0 to |vs|
      invariant Step(b.Contents(), None) == AppendAll(rt, before, vs[..i])
    {
      assert vs[..i + 1][..i] == vs[..i];
      error := AppendToBuilder(rt, b, vs[i]);
      if error.Some? {
        AllErrorStays(rt, before, vs, i + 1);
        return;
      }
    }
    assert vs[..|vs|] == vs;
    error := None;
  }

  /** One field of a struct value. */
  method AppendStructField(rt: Runtime, b: Builder, h: seq<Entry>, k: nat) returns (error: Option<ConvertError>)
    requires b.Tree() && b.typ.Struct? && k < |b.kids|
    modifies b.Repr
    ensures b.valid == old(b.valid) && b.cells == old(b.cells) && b.starts == old(b.starts)
    ensures KidsStep(b.Contents().kids, error) == AppendField(rt, b.typ, old(b.Contents().kids), h, k)
    decreases b.typ, 0, 0
  {
    hide Append, Shaped, FieldValue;
    ghost var kids := b.Contents().kids;
    error := AppendToBuilder(rt, b.kids[k], FieldValue(b.typ, h, k));
    assert b.Contents().kids == kids[k := b.kids[k].Contents()];
  }

  /** The loop over the fields of a struct value. */
  method AppendStructFields(rt: Runtime, b: Builder, h: seq<Entry>) returns (error: Option<ConvertError>)
    requires b.Tree() && b.typ.Struct?
    modifies b.Repr
    ensures b.valid == old(b.valid) && b.cells == old(b.cells) && b.starts == old(b.starts)
    ensures KidsStep(b.Contents().kids, error) == AppendFields(rt, b.typ, old(b.Contents().kids), h, |b.kids|)
    decreases b.typ, 0, 1
  {
    hide AppendField, Shaped;
    ghost var before := b.Contents().kids;
    for k := 0 to |b.kids|
      invariant b.valid == old(b.valid) && b.cells == old(b.cells) && b.starts == old(b.starts)
      invariant KidsStep(b.Contents().kids, None) == AppendFields(rt, b.typ, before, h, k)
    {
      error := AppendStructField(rt, b, h, k);
      if error.Some? {
        FieldsErrorStays(rt, b.typ, before, h, k + 1, |b.kids|);
        return;
      }
    }
    error := None;
  }

  lemma NoEntriesStep(rt: Runtime, t: DataType, kids: seq<Column>, h: seq<Entry>)
    requires t.Map? && KidsShaped(t, kids)
    ensures AppendEntries(rt, t, kids, h[..0]) == KidsStep(kids, None)
  {
    hide KidsShaped;
  }

  lemma NextEntryStep(rt: Runtime, t: DataType, kids: seq<Column>, h: seq<Entry>, i: nat)
    requires t.Map? && KidsShaped(t, kids) && i < |h|
    requires AppendEntries(rt, t, kids, h[..i]).error.None?
    ensures AppendEntries(rt, t, kids, h[..i + 1]) == AppendEntry(rt, t, AppendEntries(rt, t, kids, h[..i]).kids, h[i])
  {
    hide KidsShaped, AppendEntry;
    assert h[..i + 1][..i] == h[..i];
  }

  /** One entry of a map value: the key, then the item. */
  method AppendMapEntry(rt: Runtime, b: Builder, e: Entry) returns (error: Option<ConvertError>)
    requires b.Tree() && b.typ.Map?
    modifies b.Repr
    ensures b.valid == old(b.valid) && b.cells == old(b.cells) && b.starts == old(b.starts)
    ensures KidsStep(b.Contents().kids, error) == AppendEntry(rt, b.typ, old(b.Contents().kids), e)
    decreases b.typ, 0, 0
  {
    hide Append, Shaped, CStr;
    ghost var kids := b.Contents().kids;
    error := AppendToBuilder(rt, b.kids[0], QString(CStr(e.key)));
    assert b.Contents().kids == kids[0 := b.kids[0].Contents()];
    if error.None? {
      ghost var keyed := b.Contents().kids;
      error := AppendToBuilder(rt, b.kids[1], e.value);
      assert b.Contents().kids == keyed[1 := b.kids[1].Contents()];
    }
  }

  /** The loop over the entries of a map value. */
  method AppendMapEntries(rt: Runtime, b: Builder, h: seq<Entry>) returns (error: Option<ConvertError>)
    requires b.Tree() && b.typ.Map?
    modifies b.Repr
    ensures b.valid == old(b.valid) && b.cells == old(b.cells) && b.starts == old(b.starts)
    ensures KidsStep(b.Contents().kids, error) == AppendEntries(rt, b.typ, old(b.Contents().kids), h)
    decreases b.typ, 0, 1
  {
    hide AppendEntry, AppendEntries, Shaped;
    ghost var before := b.Contents().kids;
    NoEntriesStep(rt, b.typ, before, h);
    for i := 0 to |h|
      invariant b.valid == old(b.valid) && b.cells == old(b.cells) && b.starts == old(b.starts)
      invariant KidsStep(b.Contents().kids, None) == AppendEntries(rt, b.typ, before, h[..i])
    {
      NextEntryStep(rt, b.typ, before, h, i);
      error := AppendMapEntry(rt, b, h[i]);
      if error.Some? {
        EntriesErrorStays(rt, b.typ, before, h, i + 1);
        return;
      }
    }
    assert h[..|h|] == h;
    error := None;
  }

  /** arrow::MakeBuilder. */
  method MakeBuilder(t: DataType) returns (b: Builder)
    ensures b.Tree() && b.Contents() == Empty(t) && fresh(b.Repr)
    decreases t
  {
    var ts := BuilderTypes(t);
    var kids: seq<Builder> := [];
    hide Shaped, BuilderTypes;
    for k := 0 to |ts|
      invariant |kids| == k
      invariant forall j :: 0 <= j < k ==> kids[j].Tree() && kids[j].Contents() == Empty(ts[j]) && fresh(kids[j].Repr)
      invariant forall i, j :: 0 <= i < j < k ==> kids[i].Repr !! kids[j].Repr
    {
      var kid := MakeBuilder(ts[k]);
      kids := kids + [kid];
    }
    b := new Builder(t, kids);
  }

  /** ArrayBuilder::Finish. */
  method FinishArray(b: Builder) returns (a: Array)
    requires b.Tree()
    ensures a == Finish(b.Contents())
    decreases b.typ
  {
    hide Shaped, ChildTypes, NullArray, Finish, BuilderTypes;
    var kids: seq<Array> := [];
    if CanHold(b.typ) {
      for k := 0 to |b.kids|
        invariant |kids| == k && forall j :: 0 <= j < k ==> kids[j] == Finish(b.kids[j].Contents())
      {
        var kid := FinishArray(b.kids[k]);
        kids := kids + [kid];
      }
    } else {
      kids := NullArray(b.typ, if Windowed(b.typ) then |b.valid| else 0).data.kids;
    }
    var offsets := if Growing(b.typ) && b.kids != [] then b.starts + [|b.kids[0].valid|] else [];
    a := Array(Buffers(b.typ, Some(b.valid), b.cells, offsets, kids), 0, |b.valid|);
    FinishIs(b.Contents(), kids);
  }

  /** A finished column around its finished children. */
  lemma FinishIs(c: Column, kids: seq<Array>)
    requires CanHold(c.typ) ==> |kids| == |c.kids| && forall j :: 0 <= j < |kids| ==> kids[j] == Finish(c.kids[j])
    requires !CanHold(c.typ) ==> kids == NullArray(c.typ, if Windowed(c.typ) then Len(c) else 0).data.kids
    ensures var offsets := if Growing(c.typ) && c.kids != [] then c.starts + [Len(c.kids[0])] else [];
      Finish(c) == Array(Buffers(c.typ, Some(c.valid), c.cells, offsets, kids), 0, Len(c))
  {
    hide NullArray;
  }

  /** listToArray: every value is appended to a new builder, or the first error is raised and there is no array. */
  method ListToArray(rt: Runtime, t: DataType, vs: seq<Value>) returns (r: Result<Array, ConvertError>)
    ensures r == Build(rt, t, vs)
  {
    EmptyShaped(t);
    var b := MakeBuilder(t);
    var error := AppendValues(rt, b, vs);
    if error.Some? {
      return Err(error.value);
    }
    var a := FinishArray(b);
    r := Ok(a);
  }
}
