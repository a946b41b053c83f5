/** A runtime that meets every assumption the round trips name: times are counted in UTC, rounding keeps every number, and
    a decimal is printed as its unscaled number. */
module PlainRuntime {
  import opened Wrappers
  import opened ArrowTypes
  import opened Bytes
  import opened QoreValues
  import opened DecimalText
  import opened Scalars
  import opened DatesAndTimes
  import opened NormalForms

  const PLAIN: Runtime := Runtime(
    v => false,
    v => 0,
    v => 0.0,
    v => "",
    x => x,
    x => x,
    (d: DateTime) => d.seconds,
    (d: DateTime) => d.micros,
    (d: DateTime) => d.seconds,
    (d: DateTime) => d.micros,
    (d: DateTime) => if InMillis(d.seconds) then d.seconds - d.seconds % 86400 else 0,
    (d: DateTime) => d.seconds % 86400,
    (d: DateTime) => d.micros % 1000000,
    "UTC",
    name => if name == "UTC" then Some("UTC") else None,
    (t, text) => ParsePrefix(text),
    (t, n) => IntText(n))

  lemma PlainClock()
    ensures ShowsUtc(PLAIN) && WholeDays(PLAIN) && WithinDays(PLAIN) && SplitsDurations(PLAIN)
  {
  }

  lemma PlainNumbers(t: DataType)
    ensures RoundsOnce(PLAIN) && ParsesPrinted(PLAIN, t)
  {
    hide ParsePrefix, IntText, HasDigits;
    forall n: int
      ensures ParsePrefix(CStr(IntText(n))) == Some(n)
    {
      ParsePrefixOfText(n, []);
      assert IntText(n) + [] == IntText(n);
      NoNul(n);
      CStrWithoutNul(IntText(n));
    }
  }

  lemma NoNul(n: int)
    ensures '\0' !in IntText(n)
  {
    NatTextIsDigits(if n < 0 then -n else n);
    hide NatText;
  }

  /** The types with struct field names a hash can tell apart and map keys that are strings. */
  predicate Distinguishable(t: DataType)
    decreases t
  {
    match t
    case List(child) => Distinguishable(child.typ)
    case LargeList(child) => Distinguishable(child.typ)
    case FixedSizeList(child, _) => Distinguishable(child.typ)
    case Struct(fields) => HashNames(fields) && forall k :: 0 <= k < |fields| ==> Distinguishable(fields[k].typ)
    case Map(key, item) => (key.typ.Utf8? || key.typ.LargeUtf8?) && Distinguishable(item.typ)
    case _ => true
  }

  lemma {:induction false} StableIsDistinguishable(rt: Runtime, t: DataType)
    requires Stable(rt, t)
    ensures Distinguishable(t)
    decreases t
  {
    match t
    case List(child) => StableIsDistinguishable(rt, child.typ);
    case LargeList(child) => StableIsDistinguishable(rt, child.typ);
    case FixedSizeList(child, _) => StableIsDistinguishable(rt, child.typ);
    case Struct(fields) =>
      forall k | 0 <= k < |fields|
        ensures Distinguishable(fields[k].typ)
      {
        StableIsDistinguishable(rt, fields[k].typ);
      }
    case Map(_, item) => StableIsDistinguishable(rt, item.typ);
    case _ =>
  }

  /** The plain runtime meets what a type of any shape asks for. */
  lemma {:induction false} PlainIsStable(t: DataType)
    requires Distinguishable(t)
    ensures Stable(PLAIN, t)
    decreases t
  {
    hide RoundsOnce, ParsesPrinted, ShowsUtc, WholeDays, WithinDays, SplitsDurations, HashNames;
    PlainClock();
    PlainNumbers(t);
    match t
    case List(child) => PlainIsStable(child.typ);
    case LargeList(child) => PlainIsStable(child.typ);
    case FixedSizeList(child, _) => PlainIsStable(child.typ);
    case Struct(fields) =>
      forall k | 0 <= k < |fields|
        ensures Stable(PLAIN, fields[k].typ)
      {
        PlainIsStable(fields[k].typ);
      }
    case Map(_, item) => PlainIsStable(item.typ);
    case _ =>
  }

  /** The assumptions of the round trip can be met for exactly the types whose names and keys a hash can tell apart:
      no date, time, duration, decimal or float type is ruled out by what is asked of the runtime. */
  lemma StableIsSatisfiable(t: DataType)
    ensures (exists rt: Runtime :: Stable(rt, t)) <==> Distinguishable(t)
  {
    hide Stable, Distinguishable;
    if Distinguishable(t) {
      PlainIsStable(t);
    }
    forall rt: Runtime | Stable(rt, t)
      ensures Distinguishable(t)
    {
      StableIsDistinguishable(rt, t);
    }
  }
}
