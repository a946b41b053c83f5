/** Dates, times of day and durations read and stored again. What comes back depends on the clock of libqore, so every
    statement names what it needs of it. */
module DatesAndTimes {
  import opened Wrappers
  import opened ArrowTypes
  import opened Bytes
  import opened QoreValues
  import opened Scalars

  /** The seconds that 64-bit milliseconds reach. The days of a date32 and all times of day are among them. */
  predicate InMillis(s: int) {
    -0x8000_0000_0000_0000 / 1000 <= s <= 0x7FFF_FFFF_FFFF_FFFF / 1000
  }

  /** The current zone shows UTC: days start at multiples of 86400 seconds. */
  ghost predicate ShowsUtc(rt: Runtime) {
    forall s: int, us: int :: InMillis(s) && 0 <= us < 1000000 ==>
      var d := Absolute(s, us, rt.localZone);
      rt.midnight(d) == s - s % 86400 && rt.secondOfDay(d) == s % 86400 && rt.microOfSecond(d) == us
  }

  /** Seconds and microseconds as a normalised duration has them. */
  predicate DurationOk(s: int, us: int) {
    -1000000 < us < 1000000 && (s > 0 ==> us >= 0) && (s < 0 ==> us <= 0)
  }

  /** The seconds and microseconds of a duration are those it was made of, if their signs agree. */
  ghost predicate SplitsDurations(rt: Runtime) {
    forall s: int, us: int :: InInt64(s) && DurationOk(s, us) ==>
      rt.relativeSeconds(Relative(s, us)) == s && rt.relativeMicros(Relative(s, us)) == us
  }

  /** timegm of a date without a time of day is a 64-bit number of whole days. */
  ghost predicate WholeDays(rt: Runtime) {
    forall d: DateTime :: rt.midnight(d) % 86400 == 0 && InInt64(rt.midnight(d))
  }

  /** The time of day lies within a day. */
  ghost predicate WithinDays(rt: Runtime) {
    forall d: DateTime :: 0 <= rt.secondOfDay(d) < 86400 && 0 <= rt.microOfSecond(d) < 1000000
  }

  /** What is stored when a stored number is read and appended again. */
  function Restored(rt: Runtime, t: DataType, n: int): Result<Option<Cell>, ConvertError>
    requires CellOk(t, Number(n))
  {
    var read := Decode(rt, t, Number(n));
    if read.Ok? then Encode(rt, t, read.value) else Err(read.error)
  }

  lemma Date32Survives(rt: Runtime, days: int32)
    requires ShowsUtc(rt)
    ensures Restored(rt, Date32, days) == Ok(Some(Number(days)))
  {
    var d := Absolute(days * 86400, 0, rt.localZone);
    assert InMillis(days * 86400);
    assert rt.midnight(d) == days * 86400;
    assert TDiv(days * 86400, 86400) == days;
    NarrowIsCongruent(W32, true, days);
  }

  /** A millisecond date falls back to the start of its day, wrapped to 64 bits in the day that starts below them. */
  lemma Date64FallsToDay(rt: Runtime, ms: int64)
    requires ShowsUtc(rt)
    ensures Restored(rt, Date64, ms) == Ok(Some(Number(Int64(ms - ms % 86400000))))
    ensures Restored(rt, Date64, ms) == Ok(Some(Number(ms))) <==> ms % 86400000 == 0
  {
    SplitMilli(ms);
    hide TDiv, TMod, SecondsOf, MicrosOf, ExactCount, Narrow;
    var d := Absolute(ms / 1000, ms % 1000 * 1000, rt.localZone);
    assert MakeAbsolute(rt.localZone, SecondsOf(Milli, ms), MicrosOf(Milli, ms)) == d;
    assert rt.midnight(d) * 1000 == ms - ms % 86400000 by {
      assert InMillis(ms / 1000);
      assert rt.midnight(d) == ms / 1000 - ms / 1000 % 86400;
    }
    NarrowIsCongruent(W64, true, ms - ms % 86400000);
    SmallShift(ms, ms % 86400000);
  }

  /** A number and the same number less some, less than a full turn, do not wrap to the same. */
  lemma SmallShift(x: int64, r: int)
    requires 0 <= r < 86400000
    ensures Int64(x - r) == x <==> r == 0
  {
    NarrowIsCongruent(W64, true, x - r);
    NarrowIsCongruent(W64, true, x);
  }

  function DayCount(unit: TimeUnit): int {
    86400 * PerSecond(unit)
  }

  /** A time of day comes back within its day: unchanged when it was within a day, and nanoseconds cut to whole
      microseconds. */
  lemma TimeOfDaySurvives(rt: Runtime, t: DataType, n: int)
    requires ShowsUtc(rt) && ((t.Time32? && Fits(W32, true, n)) || (t.Time64? && Fits(W64, true, n)))
    ensures var unit := TimeUnitOf(t); Restored(rt, t, n) == Ok(Some(Number(Settled(unit, n) % DayCount(unit))))
  {
    hide Encode, Decode, TDiv, TMod, SecondsOf, MicrosOf, ExactCount, Settled, Narrow;
    var unit := TimeUnitOf(t);
    var d := MakeAbsolute(rt.localZone, SecondsOf(unit, n), MicrosOf(unit, n));
    DecodeTime(rt, t, n);
    EncodeTime(rt, t, d);
    TimeOfDay(unit, n);
    TimeInMillis(t, n);
    assert rt.secondOfDay(Absolute(d.seconds, d.micros, rt.localZone)) == d.seconds % 86400;
    var stored := Settled(unit, n) % DayCount(unit);
    NarrowIsCongruent(W32, true, stored);
    NarrowIsCongruent(W64, true, stored);
  }

  /** The moment a stored time of day is read as. */
  lemma TimeInMillis(t: DataType, n: int)
    requires (t.Time32? && Fits(W32, true, n)) || (t.Time64? && Fits(W64, true, n))
    ensures var unit := TimeUnitOf(t); InMillis(MakeAbsolute("", SecondsOf(unit, n), MicrosOf(unit, n)).seconds)
  {
  }

  lemma DecodeTime(rt: Runtime, t: DataType, n: int)
    requires t.Time32? || t.Time64?
    ensures var unit := TimeUnitOf(t);
      Decode(rt, t, Number(n)) == Ok(QDate(MakeAbsolute(rt.localZone, SecondsOf(unit, n), MicrosOf(unit, n))))
  {
  }

  lemma EncodeTime(rt: Runtime, t: DataType, d: DateTime)
    requires t.Time32? || t.Time64?
    ensures var count := ExactCount(TimeUnitOf(t), rt.secondOfDay(d), rt.microOfSecond(d));
      Encode(rt, t, QDate(d)) == Ok(Some(Number(Narrow(if t.Time32? then W32 else W64, true, count))))
  {
    hide TDiv, Narrow;
  }

  function TimeUnitOf(t: DataType): TimeUnit
    requires t.Time32? || t.Time64?
  {
    if t.Time32? then (if t.millis then Milli else Second) else (if t.nanos then Nano else Micro)
  }

  lemma TimeOfDay(unit: TimeUnit, n: int)
    ensures var d := MakeAbsolute("", SecondsOf(unit, n), MicrosOf(unit, n));
      ExactCount(unit, d.seconds % 86400, d.micros) == Settled(unit, n) % DayCount(unit)
  {
    SplitCount(unit, n);
    var d := MakeAbsolute("", SecondsOf(unit, n), MicrosOf(unit, n));
    var day := d.seconds / 86400;
    ShiftDays(unit, d.seconds, day, d.micros);
    WithinDay(unit, d.seconds % 86400, d.micros);
    hide TDiv, TMod, SecondsOf, MicrosOf, ExactCount, Settled;
    QuotientUnique(Settled(unit, n), DayCount(unit), day, ExactCount(unit, d.seconds % 86400, d.micros));
  }

  lemma ShiftDays(unit: TimeUnit, seconds: int, days: int, micros: int)
    ensures ExactCount(unit, seconds, micros) == days * DayCount(unit) + ExactCount(unit, seconds - 86400 * days, micros)
  {
    hide TDiv;
  }

  lemma WithinDay(unit: TimeUnit, seconds: int, micros: int)
    requires 0 <= seconds < 86400 && 0 <= micros < 1000000
    ensures 0 <= ExactCount(unit, seconds, micros) < DayCount(unit)
  {
  }

  /** A duration comes back as it was stored, nanoseconds cut toward zero to whole microseconds; nothing overflows. */
  lemma DurationSurvives(rt: Runtime, unit: TimeUnit, n: int64)
    requires SplitsDurations(rt)
    ensures Restored(rt, Duration(unit), n) == Ok(Some(Number(Settled(unit, n))))
    ensures InInt64(SecondsOf(unit, n) * PerSecond(unit))
  {
    hide SecondsOf, MicrosOf, ExactCount, Settled, Narrow;
    var s, us := SecondsOf(unit, n), MicrosOf(unit, n);
    DurationParts(unit, n);
    var d := Relative(s, us);
    assert rt.relativeSeconds(d) == s && rt.relativeMicros(d) == us;
    NarrowIsCongruent(W64, true, Settled(unit, n));
    hide SplitsDurations;
  }

  lemma DurationParts(unit: TimeUnit, n: int64)
    ensures var s, us := SecondsOf(unit, n), MicrosOf(unit, n);
      && DurationOk(s, us)
      && ExactCount(unit, s, us) == Settled(unit, n)
      && InInt64(s) && InInt64(s * PerSecond(unit)) && InInt64(Settled(unit, n))
  {
    if unit == Nano {
      NanoParts(n);
      hide TDiv, TMod;
    }
  }

  lemma NanoParts(n: int64)
    ensures var s, us := SecondsOf(Nano, n), MicrosOf(Nano, n);
      && DurationOk(s, us)
      && s * 1000000000 + us * 1000 == TDiv(n, 1000) * 1000
      && InInt64(s) && InInt64(s * 1000000000) && InInt64(TDiv(n, 1000) * 1000)
  {
    var s, r := TDiv(n, 1000000000), TMod(n, 1000000000);
    CutTowardZero(n, 1000000000);
    CutTowardZero(n, 1000);
    CutTowardZero(r, 1000);
    assert SecondsOf(Nano, n) == s && MicrosOf(Nano, n) == TDiv(r, 1000);
    hide TDiv, TMod, SecondsOf, MicrosOf;
    assert n == s * 1000000000 + r;
    var us, m := TDiv(r, 1000), TDiv(n, 1000);
    assert m == s * 1000000 + us by {
      assert -1000 < (m - s * 1000000 - us) * 1000 < 1000;
    }
  }

  /** Truncating division: quotient and remainder have the sign of the dividend. */
  lemma CutTowardZero(n: int, k: int)
    requires k > 0
    ensures n == TDiv(n, k) * k + TMod(n, k) && -k < TMod(n, k) < k
    ensures n >= 0 ==> TDiv(n, k) >= 0 && TMod(n, k) >= 0
    ensures n <= 0 ==> TDiv(n, k) <= 0 && TMod(n, k) <= 0
  {
  }
}
