/** Qore values as the converter sees them, and the coercions of libqore it calls. */
module QoreValues {
  import opened Wrappers
  import opened ArrowTypes
  import opened Bytes

  /** A date: an instant with its zone, or a duration. */
  datatype DateTime =
    | Absolute(seconds: int, micros: int, zone: string)
    | Relative(seconds: int, micros: int)

  datatype Entry = Entry(key: string, value: Value)

  /** A hash lists its entries in insertion order; a number is its exact decimal text. */
  datatype Value =
    | QNothing
    | QNull
    | QBool(b: bool)
    | QInt(i: int64)
    | QFloat(f: real)
    | QNumber(text: string)
    | QString(text: string)
    | QBinary(bytes: seq<byte>)
    | QDate(date: DateTime)
    | QList(items: seq<Value>)
    | QHash(entries: seq<Entry>)

  /** Calls into libqore and Arrow whose code is not in this repository.
      Each is applied only where the value at hand is not already of the target kind. */
  datatype Runtime = Runtime(
    toBool: Value -> bool,
    toInt: Value -> int,
    toFloat: Value -> real,
    toText: Value -> string,
    toFloat32: real -> real,            // the nearest single, as a double
    toFloat16: real -> real,            // Float16::FromFloat of a single, as a double
    epochSeconds: DateTime -> int,      // getEpochSecondsUTC of a duration
    microsecond: DateTime -> int,       // getMicrosecond of a duration
    relativeSeconds: DateTime -> int,
    relativeMicros: DateTime -> int,
    midnight: DateTime -> int,          // timegm of the year, month and day of the date in its own zone
    secondOfDay: DateTime -> int,
    microOfSecond: DateTime -> int,
    localZone: string,
    findZone: string -> Option<string>,
    parseDecimal: (DataType, string) -> Option<int>,
    printDecimal: (DataType, int) -> string)

  /** The low bits of `x` as an integer of the given width: a C++ narrowing cast. */
  function Narrow(width: Width, signed: bool, x: int): int {
    Wrap(Modulus(width), signed, x)
  }

  function Wrap(modulus: int, signed: bool, x: int): int
    requires modulus > 0
  {
    var low := x % modulus;
    if signed && low >= modulus / 2 then low - modulus else low
  }

  function Modulus(width: Width): (m: int)
    ensures m > 0 && m % 2 == 0
  {
    match width
    case W8 => 0x100
    case W16 => 0x1_0000
    case W32 => 0x1_0000_0000
    case W64 => 0x1_0000_0000_0000_0000
  }

  /** The values an integer type of this width can hold. */
  predicate Fits(width: Width, signed: bool, x: int) {
    if signed then -(Modulus(width) / 2) <= x < Modulus(width) / 2 else 0 <= x < Modulus(width)
  }

  function Int64(x: int): (r: int64) {
    Narrow(W64, true, x)
  }

  function AsBool(rt: Runtime, v: Value): bool {
    if v.QBool? then v.b else rt.toBool(v)
  }

  function AsBigInt(rt: Runtime, v: Value): int64 {
    if v.QInt? then v.i else Int64(rt.toInt(v))
  }

  function AsFloat(rt: Runtime, v: Value): real {
    if v.QFloat? then v.f else rt.toFloat(v)
  }

  function AsText(rt: Runtime, v: Value): string {
    if v.QString? || v.QNumber? then v.text else rt.toText(v)
  }

  /** What a C++ callee reads through `c_str()`: the text before the first NUL. */
  function CStr(s: string): string {
    if s == [] || s[0] == '\0' then [] else [s[0]] + CStr(s[1..])
  }

  /** getKeyValue: the value under a key, or NOTHING. */
  function GetKey(h: seq<Entry>, key: string): (v: Value)
    ensures v == QNothing || exists e :: e in h && e.value == v
  {
    if h == [] then QNothing
    else if h[0].key == key then h[0].value
    else GetKey(h[1..], key)
  }

  /** setKeyValue: replaces the value of a key in place, or adds the key at the end. */
  function SetKey(h: seq<Entry>, key: string, v: Value): seq<Entry> {
    if h == [] then [Entry(key, v)]
    else if h[0].key == key then [Entry(key, v)] + h[1..]
    else [h[0]] + SetKey(h[1..], key, v)
  }

  predicate UniqueKeys(h: seq<Entry>) {
    forall i, j :: 0 <= i < j < |h| ==> h[i].key != h[j].key
  }

  predicate HasKey(h: seq<Entry>, key: string) {
    exists i :: 0 <= i < |h| && h[i].key == key
  }

  /** A new key goes to the end; a known key keeps its place, and no other entry moves or changes. */
  lemma {:induction false} SetKeyPlaces(h: seq<Entry>, key: string, v: Value)
    ensures !HasKey(h, key) ==> SetKey(h, key, v) == h + [Entry(key, v)]
    ensures HasKey(h, key) ==> |SetKey(h, key, v)| == |h|
    ensures |h| <= |SetKey(h, key, v)|
    ensures forall i :: 0 <= i < |h| ==> SetKey(h, key, v)[i].key == h[i].key
    ensures forall i :: 0 <= i < |h| && h[i].key != key ==> SetKey(h, key, v)[i] == h[i]
  {
    hide HasKey;
    HasKeyOf(h, key);
    if h != [] && h[0].key != key {
      SetKeyPlaces(h[1..], key, v);
      assert forall i :: 0 < i < |h| ==> h[i] == h[1..][i - 1];
    }
  }

  lemma HasKeyOf(h: seq<Entry>, key: string)
    ensures HasKey(h, key) <==> h != [] && (h[0].key == key || HasKey(h[1..], key))
  {
    if HasKey(h, key) {
      var i :| 0 <= i < |h| && h[i].key == key;
      assert i > 0 ==> h[1..][i - 1].key == key;
    } else {
      assert forall i :: 0 <= i < |h| - 1 ==> h[1..][i] == h[i + 1];
    }
  }

  lemma SetKeyKeepsUnique(h: seq<Entry>, key: string, v: Value)
    requires UniqueKeys(h)
    ensures UniqueKeys(SetKey(h, key, v))
  {
    SetKeyPlaces(h, key, v);
  }

  /** setKeyValue and getKeyValue make a hash a map: only the value under the given key changes. */
  lemma {:induction false} SetThenGet(h: seq<Entry>, key: string, v: Value, k: string)
    ensures GetKey(SetKey(h, key, v), k) == if k == key then v else GetKey(h, k)
  {
    if h != [] && h[0].key != key {
      SetThenGet(h[1..], key, v, k);
    }
  }

  lemma {:induction false} CStrWithoutNul(s: string)
    ensures '\0' !in CStr(s)
    ensures CStr(s) <= s
    ensures CStr(s) == s <==> '\0' !in s
    ensures |CStr(s)| < |s| ==> s[|CStr(s)|] == '\0'
  {
    if s != [] && s[0] != '\0' {
      assert s == [s[0]] + s[1..];
      CStrWithoutNul(s[1..]);
    } else if s != [] {
      assert s[0] == '\0';
    }
  }
}
