/** The values of the types without children: how the converter stores one, and how it reads one back. */
module Scalars {
  import opened Wrappers
  import opened ArrowTypes
  import opened Bytes
  import opened QoreValues
  import opened DecimalText

  /** The stored form of one value. */
  datatype Cell =
    | Bit(on: bool)
    | Number(n: int)
    | Real(r: real)
    | Text(text: string)
    | Raw(bytes: seq<byte>)

  datatype ConvertError =
    | ExpectedHash
    | ExpectedList
    | WrongListSize
    | WrongByteWidth
    | BadDecimal
    | Unsupported
    | UnknownZone
    | DictionaryIndex(i: int)

  /** Whether a stored cell is one the column type can hold. */
  predicate CellOk(t: DataType, c: Cell) {
    match t
    case Boolean => c.Bit?
    case Integer(width, signed) => c.Number? && Fits(width, signed, c.n)
    case HalfFloat => c.Real?
    case Float => c.Real?
    case Double => c.Real?
    case Utf8 => c.Text?
    case LargeUtf8 => c.Text?
    case Binary => c.Raw?
    case LargeBinary => c.Raw?
    case FixedSizeBinary(_) => c.Raw?
    case _ => c.Number?
  }

  // C++ integer division and remainder: both truncate toward zero.

  function TDiv(a: int, b: int): int
    requires b > 0
  {
    if a >= 0 then a / b else -((-a) / b)
  }

  function TMod(a: int, b: int): int
    requires b > 0
  {
    a - b * TDiv(a, b)
  }

  // Instants and durations

  function PerSecond(unit: TimeUnit): int {
    match unit
    case Second => 1
    case Milli => 1000
    case Micro => 1000000
    case Nano => 1000000000
  }

  /** The stored count of a moment, before it is fitted into 64 bits. */
  function ExactCount(unit: TimeUnit, seconds: int, micros: int): int {
    match unit
    case Second => seconds
    case Milli => seconds * 1000 + TDiv(micros, 1000)
    case Micro => seconds * 1000000 + micros
    case Nano => seconds * 1000000000 + micros * 1000
  }

  function SecondsOf(unit: TimeUnit, count: int): int {
    TDiv(count, PerSecond(unit))
  }

  function MicrosOf(unit: TimeUnit, count: int): int {
    match unit
    case Second => 0
    case Milli => TMod(count, 1000) * 1000
    case Micro => TMod(count, 1000000)
    case Nano => TDiv(TMod(count, 1000000000), 1000)
  }

  /** DateTimeNode::makeAbsolute brings the microseconds into one second. */
  function MakeAbsolute(zone: string, seconds: int, micros: int): DateTime {
    Absolute(seconds + micros / 1000000, micros % 1000000, zone)
  }

  /** The zone a timestamp column is read in: the current one, or the one it names. */
  function ZoneOf(rt: Runtime, timezone: string): Option<string> {
    if timezone == "" then Some(rt.localZone) else rt.findZone(CStr(timezone))
  }

  function EpochSeconds(rt: Runtime, d: DateTime): int {
    if d.Absolute? then d.seconds else rt.epochSeconds(d)
  }

  function Microsecond(rt: Runtime, d: DateTime): int {
    if d.Absolute? then d.micros else rt.microsecond(d)
  }

  // One value

  /** The cell stored for a value that is not NOTHING; None stores a null. */
  function Encode(rt: Runtime, t: DataType, v: Value): (r: Result<Option<Cell>, ConvertError>)
    ensures r.Ok? && r.value.Some? ==> CellOk(t, r.value.value)
  {
    match t
    case Boolean => Ok(Some(Bit(AsBool(rt, v))))
    case Integer(width, signed) =>
      if width == W64 && !signed && v.QNumber? then Ok(Some(Number(Strtoull(v.text))))
      else Ok(Some(Number(Narrow(width, signed, AsBigInt(rt, v)))))
    case HalfFloat => Ok(Some(Real(rt.toFloat16(rt.toFloat32(AsFloat(rt, v))))))
    case Float => Ok(Some(Real(rt.toFloat32(AsFloat(rt, v)))))
    case Double => Ok(Some(Real(AsFloat(rt, v))))
    case Utf8 => Ok(Some(Text(AsText(rt, v))))
    case LargeUtf8 => Ok(Some(Text(AsText(rt, v))))
    case Binary => Ok(if v.QBinary? then Some(Raw(v.bytes)) else None)
    case LargeBinary => Ok(if v.QBinary? then Some(Raw(v.bytes)) else None)
    case FixedSizeBinary(byteWidth) =>
      if !v.QBinary? then Ok(None)
      else if Narrow(W32, true, |v.bytes|) != byteWidth then Err(WrongByteWidth)
      else Ok(Some(Raw(if 0 <= byteWidth <= |v.bytes| then v.bytes[..byteWidth] else v.bytes)))
    case Date32 =>
      Ok(if v.QDate? then Some(Number(Narrow(W32, true, TDiv(rt.midnight(v.date), 86400)))) else None)
    case Date64 =>
      Ok(if v.QDate? then Some(Number(Int64(rt.midnight(v.date) * 1000))) else None)
    case Timestamp(unit, _) =>
      Ok(if v.QDate?
         then Some(Number(Int64(ExactCount(unit, EpochSeconds(rt, v.date), Microsecond(rt, v.date)))))
         else None)
    case Time32(millis) =>
      if !v.QDate? then Ok(None)
      else
        var seconds := rt.secondOfDay(v.date);
        Ok(Some(Number(Narrow(W32, true,
          if millis then seconds * 1000 + TDiv(rt.microOfSecond(v.date), 1000) else seconds))))
    case Time64(nanos) =>
      if !v.QDate? then Ok(None)
      else
        var seconds, micros := rt.secondOfDay(v.date), rt.microOfSecond(v.date);
        Ok(Some(Number(Int64(if nanos then seconds * 1000000000 + micros * 1000 else seconds * 1000000 + micros))))
    case Duration(unit) =>
      Ok(if v.QDate?
         then Some(Number(Int64(ExactCount(unit, rt.relativeSeconds(v.date), rt.relativeMicros(v.date)))))
         else None)
    case Decimal128(_, _) => EncodeDecimal(rt, t, v)
    case Decimal256(_, _) => EncodeDecimal(rt, t, v)
    case NullType => Ok(None)
    case _ => Err(Unsupported)
  }

  function EncodeDecimal(rt: Runtime, t: DataType, v: Value): (r: Result<Option<Cell>, ConvertError>)
    ensures r.Ok? ==> r.value.Some? && r.value.value.Number?
  {
    match rt.parseDecimal(t, CStr(AsText(rt, v)))
    case None => Err(BadDecimal)
    case Some(unscaled) => Ok(Some(Number(unscaled)))
  }

  /** The Qore value of a stored cell. */
  function Decode(rt: Runtime, t: DataType, c: Cell): Result<Value, ConvertError>
    requires CellOk(t, c)
  {
    match t
    case Boolean => Ok(QBool(c.on))
    case Integer(_, _) => Ok(if c.n > 0x7FFF_FFFF_FFFF_FFFF then QNumber(NatText(c.n)) else QInt(c.n))
    case HalfFloat => Ok(QFloat(c.r))
    case Float => Ok(QFloat(c.r))
    case Double => Ok(QFloat(c.r))
    case Utf8 => Ok(QString(c.text))
    case LargeUtf8 => Ok(QString(c.text))
    case Binary => Ok(QBinary(c.bytes))
    case LargeBinary => Ok(QBinary(c.bytes))
    case FixedSizeBinary(_) => Ok(QBinary(c.bytes))
    case Date32 => Ok(QDate(MakeAbsolute(rt.localZone, c.n * 86400, 0)))
    case Date64 => Ok(QDate(MakeAbsolute(rt.localZone, SecondsOf(Milli, c.n), MicrosOf(Milli, c.n))))
    case Timestamp(unit, timezone) =>
      (match ZoneOf(rt, timezone)
       case None => Err(UnknownZone)
       case Some(zone) => Ok(QDate(MakeAbsolute(zone, SecondsOf(unit, c.n), MicrosOf(unit, c.n)))))
    case Time32(millis) =>
      var unit := if millis then Milli else Second;
      Ok(QDate(MakeAbsolute(rt.localZone, SecondsOf(unit, c.n), MicrosOf(unit, c.n))))
    case Time64(nanos) =>
      var unit := if nanos then Nano else Micro;
      Ok(QDate(MakeAbsolute(rt.localZone, SecondsOf(unit, c.n), MicrosOf(unit, c.n))))
    case Duration(unit) => Ok(QDate(Relative(SecondsOf(unit, c.n), MicrosOf(unit, c.n))))
    case Decimal128(_, _) => Ok(QNumber(rt.printDecimal(t, c.n)))
    case Decimal256(_, _) => Ok(QNumber(rt.printDecimal(t, c.n)))
    case NullType => Ok(QNothing)
    case _ => Err(Unsupported)
  }

  // Integers

  /** A narrowing cast keeps the value modulo the width, and keeps the value itself exactly on its range. */
  lemma NarrowIsCongruent(width: Width, signed: bool, x: int)
    ensures Fits(width, signed, Narrow(width, signed, x))
    ensures Narrow(width, signed, x) % Modulus(width) == x % Modulus(width)
    ensures Narrow(width, signed, x) == x <==> Fits(width, signed, x)
  {
    WrapIsCongruent(Modulus(width), signed, x);
  }

  lemma WrapIsCongruent(m: int, signed: bool, x: int)
    requires m > 0 && m % 2 == 0
    ensures
      var low := if signed then -(m / 2) else 0;
      && low <= Wrap(m, signed, x) < low + m
      && Wrap(m, signed, x) % m == x % m
      && (Wrap(m, signed, x) == x <==> low <= x < low + m)
  {
    var r, half := x % m, m / 2;
    assert 0 <= r < m && m == 2 * half;
    assert r % m == r by { Remainder(m, r, 0, r); }
    assert (r - m) % m == r by { Remainder(m, r - m, -1, r); }
    assert 0 <= x < m ==> r == x by { if 0 <= x < m { Remainder(m, x, 0, x); } }
    assert -m <= x < 0 ==> r == x + m by { if -m <= x < 0 { Remainder(m, x, -1, x + m); } }
  }

  lemma Remainder(m: int, x: int, q: int, r: int)
    requires 0 <= r < m && x == q * m + r
    ensures x % m == r
  {
    var k := q - x / m;
    assert k * m == x % m - r;
    assert k >= 1 ==> k * m >= m;
    assert k <= -1 ==> k * m <= -m;
  }

  /** What an integer column gives back for an int: the int wrapped to the column's width,
      as a number once it passes the largest Qore int. The int itself comes back exactly on the column's range. */
  lemma IntegerRoundTrip(rt: Runtime, width: Width, signed: bool, x: int64)
    ensures
      var t := Integer(width, signed);
      var stored := Encode(rt, t, QInt(x));
      && stored.Ok? && stored.value.Some? && CellOk(t, stored.value.value)
      && (Decode(rt, t, stored.value.value) == Ok(QInt(x)) <==> Fits(width, signed, x))
      && (!Fits(width, signed, x) && width == W64 ==>
           Decode(rt, t, stored.value.value) == Ok(QNumber(NatText(x + Modulus(W64)))))
  {
    NarrowIsCongruent(width, signed, x);
  }

  /** Every stored integer survives being read and appended again, unsigned 64-bit values included. */
  lemma StoredIntegerSurvives(rt: Runtime, width: Width, signed: bool, n: int)
    requires Fits(width, signed, n)
    ensures
      var t := Integer(width, signed);
      var read := Decode(rt, t, Number(n));
      && read.Ok?
      && (read.value.QNumber? <==> n > 0x7FFF_FFFF_FFFF_FFFF)
      && Encode(rt, t, read.value) == Ok(Some(Number(n)))
  {
    NarrowIsCongruent(width, signed, n);
    if n > 0x7FFF_FFFF_FFFF_FFFF {
      StrtoullOfText(n);
    }
  }

  // Timestamps

  predicate InInt64(x: int) {
    -0x8000_0000_0000_0000 <= x < 0x8000_0000_0000_0000
  }

  /** No product or sum overflows while a moment is stored. */
  predicate NoOverflow(unit: TimeUnit, seconds: int, micros: int) {
    InInt64(seconds * PerSecond(unit)) && InInt64(ExactCount(unit, seconds, micros))
  }

  /** The count that comes back after reading a stored count as a date: itself, or for nanoseconds the count
      truncated toward zero to whole microseconds. */
  function Settled(unit: TimeUnit, count: int): int {
    if unit == Nano then TDiv(count, 1000) * 1000 else count
  }

  lemma SplitCount(unit: TimeUnit, count: int)
    ensures
      var settled := Settled(unit, count);
      var d := MakeAbsolute("", SecondsOf(unit, count), MicrosOf(unit, count));
      && d.seconds == settled / PerSecond(unit)
      && ExactCount(unit, d.seconds, d.micros) == settled
  {
    assert unit == Second ==> SecondsOf(unit, count) == count;
    hide TDiv, TMod, MakeAbsolute;
    match unit
    case Second => assert MakeAbsolute("", count, 0) == Absolute(count, 0, "") by { SplitWhole(count); }
    case Milli => SplitMilli(count);
    case Micro => SplitMicro(count);
    case Nano => SplitNano(count);
  }

  lemma SplitWhole(count: int)
    ensures MakeAbsolute("", count, 0) == Absolute(count, 0, "")
  {
  }

  lemma SplitMilli(count: int)
    ensures
      var d := MakeAbsolute("", SecondsOf(Milli, count), MicrosOf(Milli, count));
      && d.seconds == count / 1000 && d.micros == count % 1000 * 1000
      && ExactCount(Milli, d.seconds, d.micros) == count
  {
    var r := TMod(count, 1000);
    assert count == 1000 * TDiv(count, 1000) + r && -1000 < r < 1000;
    if r < 0 {
      assert (r * 1000) / 1000000 == -1;
    }
  }

  lemma SplitMicro(count: int)
    ensures
      var d := MakeAbsolute("", SecondsOf(Micro, count), MicrosOf(Micro, count));
      && d.seconds == count / 1000000 && d.micros == count % 1000000
      && ExactCount(Micro, d.seconds, d.micros) == count
  {
    var r := TMod(count, 1000000);
    assert count == 1000000 * TDiv(count, 1000000) + r && -1000000 < r < 1000000;
  }

  lemma SplitNano(count: int)
    ensures
      var d := MakeAbsolute("", SecondsOf(Nano, count), MicrosOf(Nano, count));
      var settled := TDiv(count, 1000) * 1000;
      && d.seconds == settled / 1000000000 && d.micros == settled % 1000000000 / 1000
      && ExactCount(Nano, d.seconds, d.micros) == settled
  {
    var q := TDiv(count, 1000000000);
    var r := TMod(count, 1000000000);
    assert count == 1000000000 * q + r && -1000000000 < r < 1000000000;
    var m := TDiv(r, 1000);
    assert TDiv(count, 1000) == 1000000 * q + m;
    assert -1000000 < m < 1000000;
  }

  /** Reading a timestamp and storing it again: the stored 64-bit count is exactly Settled.
      No intermediate product overflows if and only if the count is not within the last unfinished second
      above the smallest 64-bit value. */
  lemma TimestampReadThenWrite(rt: Runtime, unit: TimeUnit, timezone: string, count: int64)
    ensures
      var t := Timestamp(unit, timezone);
      var read := Decode(rt, t, Number(count));
      && (read.Ok? <==> ZoneOf(rt, timezone).Some?)
      && (read.Ok? ==>
           && read.value.QDate? && read.value.date.Absolute?
           && Encode(rt, t, read.value) == Ok(Some(Number(Settled(unit, count))))
           && (NoOverflow(unit, read.value.date.seconds, read.value.date.micros) <==> count >= FirstSafeCount(unit)))
  {
    hide Encode, Decode, SecondsOf, MicrosOf, ExactCount, Settled, Narrow, FirstSafeCount, ZoneOf;
    SplitCount(unit, count);
    SettledFits(unit, count);
    NarrowIsCongruent(W64, true, Settled(unit, count));
    SafeCounts(unit, count);
    DecodeTimestamp(rt, unit, timezone, count);
    if ZoneOf(rt, timezone).Some? {
      EncodeTimestamp(rt, unit, timezone,
                      MakeAbsolute(ZoneOf(rt, timezone).value, SecondsOf(unit, count), MicrosOf(unit, count)));
    }
  }

  lemma SettledFits(unit: TimeUnit, count: int64)
    ensures InInt64(Settled(unit, count))
  {
  }

  lemma EncodeTimestamp(rt: Runtime, unit: TimeUnit, timezone: string, d: DateTime)
    requires d.Absolute?
    ensures Encode(rt, Timestamp(unit, timezone), QDate(d))
      == Ok(Some(Number(Int64(ExactCount(unit, d.seconds, d.micros)))))
  {
    hide ExactCount, Narrow;
  }

  lemma DecodeTimestamp(rt: Runtime, unit: TimeUnit, timezone: string, count: int)
    ensures Decode(rt, Timestamp(unit, timezone), Number(count))
      == match ZoneOf(rt, timezone)
         case None => Err(UnknownZone)
         case Some(zone) => Ok(QDate(MakeAbsolute(zone, SecondsOf(unit, count), MicrosOf(unit, count))))
  {
    hide SecondsOf, MicrosOf, MakeAbsolute;
  }

  /** The smallest count whose read and write stay inside 64 bits. */
  function FirstSafeCount(unit: TimeUnit): int {
    match unit
    case Second => -0x8000_0000_0000_0000
    case Milli => -9223372036854775000
    case Micro => -9223372036854000000
    case Nano => -9223372036000000999
  }

  lemma SafeCounts(unit: TimeUnit, count: int64)
    ensures InInt64(Settled(unit, count) / PerSecond(unit) * PerSecond(unit)) <==> count >= FirstSafeCount(unit)
  {
    hide Settled;
    var settled := Settled(unit, count);
    SettledBounds(unit, count);
    match unit
    case Second =>
    case Milli => FloorProduct(settled, 1000, -9223372036854775);
    case Micro => FloorProduct(settled, 1000000, -9223372036854);
    case Nano => FloorProduct(settled, 1000000000, -9223372036);
  }

  lemma SettledBounds(unit: TimeUnit, count: int)
    ensures unit != Nano ==> Settled(unit, count) == count
    ensures unit == Nano ==> (Settled(unit, count) >= -9223372036000000000 <==> count >= -9223372036000000999)
    ensures unit == Nano && count < 0x8000_0000_0000_0000 ==> Settled(unit, count) < 0x8000_0000_0000_0000
  {
  }

  lemma FloorProduct(x: int, k: int, m: int)
    requires k > 0
    ensures x / k * k <= x
    ensures x / k * k >= m * k <==> x >= m * k
  {
    var q := x / k;
    assert x == q * k + x % k;
    assert q >= m ==> q * k >= m * k;
    assert q <= m - 1 ==> q * k <= (m - 1) * k;
    assert (m - 1) * k == m * k - k;
  }

  /** The part of the microseconds a unit keeps. */
  function KeptMicros(unit: TimeUnit, micros: int): int {
    match unit
    case Second => 0
    case Milli => micros / 1000 * 1000
    case _ => micros
  }

  lemma CountThenSplit(unit: TimeUnit, seconds: int, micros: int, zone: string)
    requires 0 <= micros < 1000000
    ensures
      var count := ExactCount(unit, seconds, micros);
      MakeAbsolute(zone, SecondsOf(unit, count), MicrosOf(unit, count))
      == Absolute(seconds, KeptMicros(unit, micros), zone)
  {
    var count := ExactCount(unit, seconds, micros);
    match unit
    case Second =>
    case Milli =>
      SplitMilli(count);
      assert count == seconds * 1000 + micros / 1000;
    case Micro => SplitMicro(count);
    case Nano =>
      SplitNano(count);
      assert TDiv(count, 1000) == seconds * 1000000 + micros;
  }

  /** Storing a moment and reading it back floors it to the unit and puts it in the zone of the column, exactly when its
      count fits into 64 bits; otherwise some other moment comes back. */
  lemma TimestampWriteThenRead(rt: Runtime, unit: TimeUnit, timezone: string, d: DateTime)
    requires d.Absolute? && 0 <= d.micros < 1000000
    requires ZoneOf(rt, timezone).Some?
    ensures
      var t := Timestamp(unit, timezone);
      var stored := Encode(rt, t, QDate(d));
      && stored.Ok? && stored.value.Some?
      && (Decode(rt, t, stored.value.value)
          == Ok(QDate(Absolute(d.seconds, KeptMicros(unit, d.micros), ZoneOf(rt, timezone).value)))
          <==> InInt64(ExactCount(unit, d.seconds, d.micros)))
  {
    hide Encode, Decode, ExactCount, SecondsOf, MicrosOf, Narrow, KeptMicros, ZoneOf;
    var exact := ExactCount(unit, d.seconds, d.micros);
    EncodeTimestamp(rt, unit, timezone, d);
    DecodeTimestamp(rt, unit, timezone, Int64(exact));
    NarrowIsCongruent(W64, true, exact);
    CountThenSplit(unit, d.seconds, d.micros, ZoneOf(rt, timezone).value);
    DistinctCounts(unit, exact, Int64(exact));
  }

  /** Counts that differ by whole turns of 64 bits are read as different moments. */
  lemma DistinctCounts(unit: TimeUnit, a: int, b: int)
    requires a % 0x1_0000_0000_0000_0000 == b % 0x1_0000_0000_0000_0000
    ensures MakeAbsolute("", SecondsOf(unit, a), MicrosOf(unit, a)) == MakeAbsolute("", SecondsOf(unit, b), MicrosOf(unit, b))
      <==> a == b
  {
    hide MakeAbsolute, SecondsOf, MicrosOf, ExactCount, Settled;
    SplitCount(unit, a);
    SplitCount(unit, b);
    SettledNear(unit, a);
    SettledNear(unit, b);
    FarApart(a, b, 0x1_0000_0000_0000_0000);
  }

  lemma SettledNear(unit: TimeUnit, count: int)
    ensures -1000 < Settled(unit, count) - count < 1000
  {
  }

  lemma FarApart(a: int, b: int, m: int)
    requires m > 0 && a % m == b % m
    ensures a == b || a >= b + m || b >= a + m
  {
    var q, r := a / m, b / m;
    assert a == q * m + a % m && b == r * m + b % m;
    if q > r {
      MulMonotone(r + 1, q, m);
    } else if q < r {
      MulMonotone(q + 1, r, m);
    }
  }
}
