/** The names of Arrow types: typeName and parseTypeName. */
module TypeNames {
  import opened Wrappers
  import opened ArrowTypes
  import opened DecimalText

  datatype SchemaError =
    | MissingName
    | MissingType
    | NullField
    | MalformedType(name: string)
    | InvalidFormat(name: string)
    | SizeRequired(name: string)
    | UnknownType(name: string)

  type Parsed = Result<DataType, SchemaError>

  function UnitName(unit: TimeUnit): string {
    match unit
    case Second => "s"
    case Milli => "ms"
    case Micro => "us"
    case Nano => "ns"
  }

  /** typeName. */
  function TypeName(t: DataType): string {
    match t
    case Boolean => "bool"
    case Integer(width, signed) => (if signed then "int" else "uint") + WidthName(width)
    case HalfFloat => "float16"
    case Float => "float32"
    case Double => "float64"
    case Utf8 => "utf8"
    case LargeUtf8 => "large_utf8"
    case Binary => "binary"
    case LargeBinary => "large_binary"
    case Date32 => "date32"
    case Date64 => "date64"
    case NullType => "null"
    case Timestamp(unit, timezone) =>
      if timezone == "" then "timestamp[" + UnitName(unit) + "]"
      else "timestamp[" + UnitName(unit) + ", tz=" + timezone + "]"
    case Decimal128(precision, scale) => "decimal128(" + IntText(precision) + ", " + IntText(scale) + ")"
    case Decimal256(precision, scale) => "decimal256(" + IntText(precision) + ", " + IntText(scale) + ")"
    case Time32(millis) => if millis then "time32[ms]" else "time32[s]"
    case Time64(nanos) => if nanos then "time64[ns]" else "time64[us]"
    case Duration(unit) => "duration[" + UnitName(unit) + "]"
    case FixedSizeBinary(byteWidth) => "fixed_size_binary[" + IntText(byteWidth) + "]"
    case Struct(_) => "struct"
    case List(_) => "list"
    case LargeList(_) => "large_list"
    case FixedSizeList(_, listSize) => "fixed_size_list[" + IntText(listSize) + "]"
    case Map(_, _) => "map"
    case Dictionary(index, dictionary) => "dictionary[" + TypeName(index) + ", " + TypeName(dictionary) + "]"
    case Union(sparse, _, _, detail) => (if sparse then "sparse_union<" else "dense_union<") + detail
  }

  function WidthName(width: Width): string {
    match width
    case W8 => "8"
    case W16 => "16"
    case W32 => "32"
    case W64 => "64"
  }

  // std::string::find and substr; a position past the end stands for npos

  function Find(s: string, c: char): (p: nat)
    ensures p <= |s|
    ensures p < |s| ==> s[p] == c
    ensures forall i :: 0 <= i < p ==> s[i] != c
  {
    if s == [] || s[0] == c then 0 else 1 + Find(s[1..], c)
  }

  function FindText(s: string, t: string): (p: nat)
    ensures p <= |s|
  {
    if t <= s then 0 else if s == [] then 0 else 1 + FindText(s[1..], t)
  }

  function Prefix(s: string, n: nat): string {
    if n <= |s| then s[..n] else s
  }

  /** substr(open + 1, close - open - 1): a close before the open wraps around and takes everything. */
  function Between(s: string, open: nat, close: nat): string
    requires open < |s| && close <= |s|
  {
    if close > open then s[open + 1..close] else s[open + 1..]
  }

  function ItemField(): Field {
    PlainField("item", Utf8)
  }

  /** parseTypeName. */
  function ParseTypeName(s: string): Parsed {
    var basic := BasicType(s);
    if basic.Some? then Ok(basic.value)
    else if Prefix(s, 9) == "timestamp" then ParseTimestamp(s)
    else if Prefix(s, 6) == "time32" then ParseTime32(s)
    else if Prefix(s, 6) == "time64" then ParseTime64(s)
    else if Prefix(s, 8) == "duration" then ParseDuration(s)
    else if Prefix(s, 10) == "decimal128" then
      (match ParseDecimal(s, 38, 10)
       case None => Err(InvalidFormat(s))
       case Some((precision, scale)) => Ok(Decimal128(precision, scale)))
    else if Prefix(s, 10) == "decimal256" then
      (match ParseDecimal(s, 76, 20)
       case None => Err(InvalidFormat(s))
       case Some((precision, scale)) => Ok(Decimal256(precision, scale)))
    else if Prefix(s, 17) == "fixed_size_binary" then
      var size :- ParseSize(s);
      Ok(FixedSizeBinary(size))
    else if s == "struct" then Ok(Struct([]))
    else if s == "list" then Ok(List(ItemField()))
    else if s == "large_list" then Ok(LargeList(ItemField()))
    else if Prefix(s, 15) == "fixed_size_list" then
      var size :- ParseSize(s);
      Ok(FixedSizeList(ItemField(), size))
    else if s == "map" then Ok(MapOf(Utf8, Utf8))
    else Err(UnknownType(s))
  }

  function BasicType(s: string): Option<DataType> {
    if s == "bool" then Some(Boolean)
    else if s == "int8" then Some(Integer(W8, true))
    else if s == "int16" then Some(Integer(W16, true))
    else if s == "int32" then Some(Integer(W32, true))
    else if s == "int64" then Some(Integer(W64, true))
    else if s == "uint8" then Some(Integer(W8, false))
    else if s == "uint16" then Some(Integer(W16, false))
    else if s == "uint32" then Some(Integer(W32, false))
    else if s == "uint64" then Some(Integer(W64, false))
    else if s == "float16" || s == "halffloat" || s == "half_float" then Some(HalfFloat)
    else if s == "float" || s == "float32" then Some(Float)
    else if s == "double" || s == "float64" then Some(Double)
    else if s == "string" || s == "utf8" then Some(Utf8)
    else if s == "large_string" || s == "large_utf8" then Some(LargeUtf8)
    else if s == "binary" then Some(Binary)
    else if s == "large_binary" then Some(LargeBinary)
    else if s == "date32" || s == "date32[day]" then Some(Date32)
    else if s == "date64" || s == "date64[ms]" then Some(Date64)
    else if s == "null" then Some(NullType)
    else None
  }

  function ParseTimestamp(s: string): Parsed {
    var bracket := Find(s, '[');
    if bracket == |s| then Ok(Timestamp(Micro, ""))
    else if Find(s, ']') == |s| then Err(MalformedType(s))
    else
      var params := Between(s, bracket, Find(s, ']'));
      var unit :=
        if Prefix(params, 2) == "ns" then Nano
        else if Prefix(params, 2) == "us" then Micro
        else if Prefix(params, 2) == "ms" then Milli
        else if Prefix(params, 1) == "s" then Second
        else Micro;
      var tz := FindText(params, "tz=");
      Ok(Timestamp(unit, if tz + 3 <= |params| then params[tz + 3..] else ""))
  }

  /** The text in brackets, or None without an opening bracket. */
  function Bracketed(s: string): Result<Option<string>, SchemaError> {
    var bracket := Find(s, '[');
    if bracket == |s| then Ok(None)
    else if Find(s, ']') == |s| then Err(MalformedType(s))
    else Ok(Some(Between(s, bracket, Find(s, ']'))))
  }

  function ParseTime32(s: string): Parsed {
    var unit :- Bracketed(s);
    Ok(Time32(unit != Some("s")))
  }

  function ParseTime64(s: string): Parsed {
    var unit :- Bracketed(s);
    Ok(Time64(unit == Some("ns")))
  }

  function ParseDuration(s: string): Parsed {
    var unit :- Bracketed(s);
    Ok(Duration(if unit == Some("s") then Second else if unit == Some("ms") then Milli
                else if unit == Some("ns") then Nano else Micro))
  }

  /** The precision and scale in parentheses, or the defaults without an opening parenthesis. */
  function ParseDecimal(s: string, precision: int32, scale: int32): Option<(int32, int32)> {
    var paren := Find(s, '(');
    if paren == |s| then Some((precision, scale))
    else
      var params := Between(s, paren, Find(s, ')'));
      var comma := Find(params, ',');
      var p := Stoi(params[..comma]);
      var q := Stoi(if comma == |params| then params else params[comma + 1..]);
      if p.Ok? && q.Ok? then Some((p.value, q.value)) else None
  }

  /** The size in brackets. */
  function ParseSize(s: string): Result<int32, SchemaError> {
    var bracket := Find(s, '[');
    if bracket == |s| then Err(SizeRequired(s))
    else
      var n := Stoi(Between(s, bracket, Find(s, ']')));
      if n.Ok? then Ok(n.value) else Err(InvalidFormat(s))
  }

  /** What parsing a printed name gives: the type itself without its children, the time zone up to its first ']'. */
  function Skeleton(t: DataType): Option<DataType> {
    match t
    case Timestamp(unit, timezone) => Some(Timestamp(unit, timezone[..Find(timezone, ']')]))
    case Struct(_) => Some(Struct([]))
    case List(_) => Some(List(ItemField()))
    case LargeList(_) => Some(LargeList(ItemField()))
    case FixedSizeList(_, listSize) => Some(FixedSizeList(ItemField(), listSize))
    case Map(_, _) => Some(MapOf(Utf8, Utf8))
    case Dictionary(_, _) => None
    case Union(_, _, _, _) => None
    case _ => Some(t)
  }

  // Printing, then parsing

  predicate HasPlainName(t: DataType) {
    match t
    case Timestamp(_, _) => false
    case Decimal128(_, _) => false
    case Decimal256(_, _) => false
    case Time32(_) => false
    case Time64(_) => false
    case Duration(_) => false
    case FixedSizeBinary(_) => false
    case Struct(_) => false
    case List(_) => false
    case LargeList(_) => false
    case FixedSizeList(_, _) => false
    case Map(_, _) => false
    case Dictionary(_, _) => false
    case Union(_, _, _, _) => false
    case _ => true
  }

  lemma PlainName(t: DataType)
    requires HasPlainName(t)
    ensures BasicType(TypeName(t)) == Some(t)
  {
    if t.Integer? {
      IntegerName(t.width, t.signed);
    }
  }

  lemma IntegerName(width: Width, signed: bool)
    ensures BasicType(TypeName(Integer(width, signed))) == Some(Integer(width, signed))
  {
    assert "int" + "8" == "int8" && "int" + "16" == "int16" && "int" + "32" == "int32" && "int" + "64" == "int64";
    assert "uint" + "8" == "uint8" && "uint" + "16" == "uint16" && "uint" + "32" == "uint32" && "uint" + "64" == "uint64";
  }

  lemma NotBasic(s: string)
    requires |s| >= 2
    requires s[0] == 't' || s[0] == 'm' || (s[0] == 'd' && s[1] != 'o' && s[1] != 'a')
          || (s[0] == 'f' && s[1] == 'i') || (s[0] == 's' && s[1] != 't') || (s[0] == 'l' && s[1] == 'i')
    ensures BasicType(s) == None
  {
    assert "large_string"[1] == 'a' && "large_utf8"[1] == 'a' && "large_binary"[1] == 'a';
    assert "float16"[1] == 'l' && "float"[1] == 'l' && "float32"[1] == 'l' && "float64"[1] == 'l';
    assert "double"[1] == 'o' && "date32"[1] == 'a' && "date64"[1] == 'a';
    assert "date32[day]"[1] == 'a' && "date64[ms]"[1] == 'a' && "string"[1] == 't';
  }

  lemma NestedNotBasic(s: string)
    requires s == "struct" || s == "large_list"
    ensures BasicType(s) == None
  {
    assert "string"[3] == 'i' && "struct"[3] == 'u';
    assert "large_string"[6] == 's' && "large_utf8"[6] == 'u' && "large_binary"[6] == 'b' && "large_list"[6] == 'l';
  }

  /** The equality tests take exactly the names of the types without parameters and children, each as its own type:
      none captures another type's name. */
  lemma BasicExactly(t: DataType)
    ensures BasicType(TypeName(t)) == if HasPlainName(t) then Some(t) else None
  {
    hide BasicType, IntText;
    if HasPlainName(t) {
      PlainName(t);
    } else if t.Struct? || t.LargeList? {
      NestedNotBasic(TypeName(t));
    } else {
      NameStart(t);
      NotBasic(TypeName(t));
    }
  }

  /** How the other names begin. */
  lemma NameStart(t: DataType)
    requires !HasPlainName(t) && !t.Struct? && !t.LargeList?
    ensures StartsOddly(TypeName(t))
  {
    hide TypeName, StartsOddly;
    if t.Timestamp? || t.Time32? || t.Time64? || t.Duration? {
      UnitNameStart(t);
    } else if t.Dictionary? || t.Union? || t.List? || t.Map? {
      NestedNameStart(t);
    } else {
      NumberNameStart(t);
    }
  }

  predicate StartsOddly(s: string) {
    && |s| >= 2
    && (s[0] == 't' || s[0] == 'm' || (s[0] == 'd' && s[1] != 'o' && s[1] != 'a')
        || (s[0] == 'f' && s[1] == 'i') || (s[0] == 's' && s[1] != 't') || (s[0] == 'l' && s[1] == 'i'))
  }

  lemma UnitNameStart(t: DataType)
    requires t.Timestamp? || t.Time32? || t.Time64? || t.Duration?
    ensures StartsOddly(TypeName(t))
  {
    hide UnitName;
  }

  lemma NestedNameStart(t: DataType)
    requires t.Dictionary? || t.Union? || t.List? || t.Map?
    ensures StartsOddly(TypeName(t))
  {
    hide TypeName;
    if t.Dictionary? {
      DictionaryName(t);
    } else if t.Union? {
      UnionName(t);
    } else {
      ShortName(t);
    }
  }

  lemma DictionaryName(t: DataType)
    requires t.Dictionary?
    ensures TypeName(t) == "dictionary[" + (TypeName(t.index) + ", " + TypeName(t.dictionary) + "]")
  {
  }

  lemma UnionName(t: DataType)
    requires t.Union?
    ensures TypeName(t) == (if t.sparse then "sparse_union<" else "dense_union<") + t.detail
  {
  }

  lemma ShortName(t: DataType)
    requires t.List? || t.Map?
    ensures TypeName(t) == if t.List? then "list" else "map"
  {
  }

  lemma NumberNameStart(t: DataType)
    requires t.Decimal128? || t.Decimal256? || t.FixedSizeBinary? || t.FixedSizeList?
    ensures StartsOddly(TypeName(t))
  {
    hide IntText;
  }

  lemma {:induction false} FindFirst(pre: string, c: char, rest: string)
    requires c !in pre
    ensures Find(pre + [c] + rest, c) == |pre|
  {
    if pre != [] {
      assert (pre + [c] + rest)[1..] == pre[1..] + [c] + rest;
      FindFirst(pre[1..], c, rest);
    }
  }

  lemma {:induction false} FindNone(s: string, c: char)
    ensures Find(s, c) == |s| <==> c !in s
    ensures c !in s[..Find(s, c)]
  {
  }

  /** The characters a printed number is made of. */
  lemma IntTextCharacters(n: int, c: char)
    requires !IsDigit(c) && c != '-'
    ensures c !in IntText(n)
  {
    NatTextIsDigits(if n < 0 then -n else n);
  }

  lemma UnitParams(unit: TimeUnit, tail: string)
    ensures var params := UnitName(unit) + ", tz=" + tail;
      && FindText(params, "tz=") == |UnitName(unit)| + 2
      && params[|UnitName(unit)| + 5..] == tail
      && (Prefix(params, 2) == "ns" <==> unit == Nano) && (Prefix(params, 2) == "us" <==> unit == Micro)
      && (Prefix(params, 2) == "ms" <==> unit == Milli) && (unit == Second ==> Prefix(params, 1) == "s")
  {
    var n := |UnitName(unit)|;
    var params := UnitName(unit) + ", tz=" + tail;
    assert params[n + 2..] == "tz=" + tail;
    assert "tz=" <= params[n + 2..];
    assert params[n] == ',' && params[n + 1] == ' ';
    assert params[n..][0] == ',' && params[n + 1..][0] == ' ';
    assert params[n + 1..][1..] == params[n + 2..];
    assert params[n..][1..] == params[n + 1..];
    assert FindText(params[n + 1..], "tz=") == 1;
    assert FindText(params[n..], "tz=") == 2;
    assert params[0] == UnitName(unit)[0] && params[0] != 't';
    assert !("tz=" <= params);
    if n == 1 {
      assert params[1..] == params[n..];
    } else {
      assert params[1..][0] == 's' && params[1..][1..] == params[n..];
      assert FindText(params[1..], "tz=") == 3;
    }
  }

  /** The unit of a timestamp name without a zone. */
  lemma UnitAlone(unit: TimeUnit)
    ensures var params := UnitName(unit);
      && FindText(params, "tz=") == |params|
      && (Prefix(params, 2) == "ns" <==> unit == Nano) && (Prefix(params, 2) == "us" <==> unit == Micro)
      && (Prefix(params, 2) == "ms" <==> unit == Milli) && (unit == Second ==> Prefix(params, 1) == "s")
  {
    var params := UnitName(unit);
    assert |"tz="| == 3 && "s"[1..] == "";
    assert FindText("", "tz=") == 0;
    assert FindText("s", "tz=") == 1;
    assert !("tz=" <= params);
    if |params| == 2 {
      assert params[1..] == "s" && params[..2] == params;
      assert FindText(params, "tz=") == 1 + FindText(params[1..], "tz=");
    } else {
      assert params == "s";
    }
  }

  // Which branch of parseTypeName a name takes

  lemma Differs(s: string, head: string, i: nat)
    requires i < |s| && i < |head| && s[i] != head[i]
    ensures Prefix(s, |head|) != head
  {
  }

  lemma StartsWith(s: string, head: string)
    requires head <= s
    ensures Prefix(s, |head|) == head
  {
  }

  lemma TimestampBranch(s: string)
    requires "timestamp" <= s
    ensures ParseTypeName(s) == ParseTimestamp(s)
  {
    hide BasicType, ParseTimestamp, Prefix;
    NotBasic(s);
    StartsWith(s, "timestamp");
  }

  lemma TimeBranch(s: string)
    requires "time32" <= s || "time64" <= s
    ensures ParseTypeName(s) == if "time32" <= s then ParseTime32(s) else ParseTime64(s)
  {
    hide BasicType, ParseTime32, ParseTime64, Prefix;
    NotBasic(s);
    Differs(s, "timestamp", 4);
    if "time32" <= s {
      StartsWith(s, "time32");
    } else {
      Differs(s, "time32", 4);
      StartsWith(s, "time64");
    }
  }

  lemma NotTime(s: string)
    requires s != [] && s[0] != 't'
    ensures Prefix(s, 9) != "timestamp" && Prefix(s, 6) != "time32" && Prefix(s, 6) != "time64"
  {
    Differs(s, "timestamp", 0);
    Differs(s, "time32", 0);
    Differs(s, "time64", 0);
  }

  lemma DurationBranch(s: string)
    requires "duration" <= s
    ensures ParseTypeName(s) == ParseDuration(s)
  {
    hide BasicType, ParseDuration, Prefix;
    NotBasic(s);
    NotTime(s);
    StartsWith(s, "duration");
  }

  lemma DecimalBranch(s: string)
    requires "decimal128" <= s || "decimal256" <= s
    ensures "decimal128" <= s ==>
              var d := ParseDecimal(s, 38, 10);
              ParseTypeName(s) == if d.None? then Err(InvalidFormat(s)) else Ok(Decimal128(d.value.0, d.value.1))
    ensures "decimal256" <= s ==>
              var d := ParseDecimal(s, 76, 20);
              ParseTypeName(s) == if d.None? then Err(InvalidFormat(s)) else Ok(Decimal256(d.value.0, d.value.1))
  {
    hide BasicType, ParseDecimal, Prefix;
    NotBasic(s);
    NotTime(s);
    Differs(s, "duration", 1);
    assert ("decimal128" <= s ==> s[7] == '1') && ("decimal256" <= s ==> s[7] == '2');
    if "decimal128" <= s {
      StartsWith(s, "decimal128");
    } else {
      Differs(s, "decimal128", 7);
      StartsWith(s, "decimal256");
    }
  }

  lemma NotTimeOrDecimal(s: string)
    requires s != [] && s[0] != 't' && s[0] != 'd'
    ensures Prefix(s, 9) != "timestamp" && Prefix(s, 6) != "time32" && Prefix(s, 6) != "time64"
    ensures Prefix(s, 8) != "duration" && Prefix(s, 10) != "decimal128" && Prefix(s, 10) != "decimal256"
  {
    NotTime(s);
    Differs(s, "duration", 0);
    Differs(s, "decimal128", 0);
    Differs(s, "decimal256", 0);
  }

  lemma SizeBranch(s: string)
    requires "fixed_size_binary" <= s || "fixed_size_list" <= s
    ensures "fixed_size_binary" <= s ==>
              var n := ParseSize(s);
              ParseTypeName(s) == if n.Err? then Err(n.error) else Ok(FixedSizeBinary(n.value))
    ensures "fixed_size_list" <= s ==>
              var n := ParseSize(s);
              ParseTypeName(s) == if n.Err? then Err(n.error) else Ok(FixedSizeList(ItemField(), n.value))
  {
    hide BasicType, ParseSize, Prefix;
    NotBasic(s);
    NotTimeOrDecimal(s);
    if "fixed_size_binary" <= s {
      StartsWith(s, "fixed_size_binary");
      assert s[11] == 'b';
    } else {
      Differs(s, "fixed_size_binary", 11);
      StartsWith(s, "fixed_size_list");
      assert s[0] == 'f';
    }
  }

  lemma NestedBranch(t: DataType)
    requires t.Struct? || t.List? || t.LargeList? || t.Map?
    ensures ParseTypeName(TypeName(t)) == Ok(Skeleton(t).value)
  {
    if t.Struct? {
      StructBranch();
    } else if t.LargeList? {
      LargeListBranch();
    } else if t.List? {
      ListBranch();
    } else {
      MapBranch();
    }
    hide ParseTypeName;
  }

  lemma StructBranch()
    ensures ParseTypeName("struct") == Ok(Struct([]))
  {
    var s := "struct";
    NestedNotBasic(s);
    hide BasicType, Prefix;
    NotTimeOrDecimal(s);
    Differs(s, "fixed_size_binary", 0);
  }

  lemma ListBranch()
    ensures ParseTypeName("list") == Ok(List(ItemField()))
  {
    var s := "list";
    hide BasicType, Prefix;
    NotBasic(s);
    NotTimeOrDecimal(s);
    Differs(s, "fixed_size_binary", 0);
  }

  lemma LargeListBranch()
    ensures ParseTypeName("large_list") == Ok(LargeList(ItemField()))
  {
    var s := "large_list";
    NestedNotBasic(s);
    hide BasicType, Prefix;
    NotTimeOrDecimal(s);
    Differs(s, "fixed_size_binary", 0);
  }

  lemma MapBranch()
    ensures ParseTypeName("map") == Ok(MapOf(Utf8, Utf8))
  {
    var s := "map";
    hide BasicType, Prefix;
    NotBasic(s);
    NotTimeOrDecimal(s);
    Differs(s, "fixed_size_binary", 0);
    Differs(s, "fixed_size_list", 0);
  }

  lemma UnknownBranch(s: string)
    requires "dictionary[" <= s || "sparse_union<" <= s || "dense_union<" <= s
    ensures ParseTypeName(s) == Err(UnknownType(s))
  {
    hide ParseTypeName;
    if "dictionary[" <= s {
      assert s[0] == 'd' && s[1] == 'i';
    } else if "sparse_union<" <= s {
      assert s[0] == 's' && s[1] == 'p';
    } else {
      assert s[0] == 'd' && s[1] == 'e' && s[2] == 'n';
    }
    NoBranch(s);
  }

  lemma NoBranch(s: string)
    requires |s| >= 5
    requires (s[0] == 'd' && s[1] == 'i') || (s[0] == 's' && s[1] == 'p') || (s[0] == 'd' && s[1] == 'e' && s[2] == 'n')
    ensures ParseTypeName(s) == Err(UnknownType(s))
  {
    hide Prefix, BasicType;
    NotBasic(s);
    NotTime(s);
    Differs(s, "duration", 1);
    if s[1] != 'e' {
      Differs(s, "decimal128", 1);
      Differs(s, "decimal256", 1);
    } else {
      Differs(s, "decimal128", 2);
      Differs(s, "decimal256", 2);
    }
    Differs(s, "fixed_size_binary", 0);
    Differs(s, "fixed_size_list", 0);
  }

  // The families of names

  /** A timestamp name with any text after "tz=": the zone ends at the first ']', and without one the name is
      malformed. */
  lemma ParseZonedTimestamp(unit: TimeUnit, tail: string)
    ensures var s := "timestamp[" + UnitName(unit) + ", tz=" + tail;
      ParseTypeName(s) == (if ']' in tail then Ok(Timestamp(unit, tail[..Find(tail, ']')])) else Err(MalformedType(s)))
  {
    hide ParseTypeName, ParseTimestamp, Find, FindText, Prefix;
    var head := "timestamp[" + UnitName(unit) + ", tz=";
    var s := head + tail;
    TimestampBranch(s);
    ZoneBrackets(unit, tail);
    FindNone(tail, ']');
    if ']' in tail {
      var zone := tail[..Find(tail, ']')];
      var params := UnitName(unit) + ", tz=" + zone;
      BetweenZone(unit, tail, Find(tail, ']'));
      UnitParams(unit, zone);
      hide UnitName, Between;
      TimestampOf(s, params, unit, |params| - |zone|);
    } else {
      MalformedTimestamp(s);
    }
  }

  lemma BetweenZone(unit: TimeUnit, tail: string, p: nat)
    requires p < |tail|
    ensures var head := "timestamp[" + UnitName(unit) + ", tz=";
      |head| + p < |head + tail| && Between(head + tail, 9, |head| + p) == UnitName(unit) + ", tz=" + tail[..p]
  {
    var head := "timestamp[" + UnitName(unit) + ", tz=";
    var s := head + tail;
    var params := UnitName(unit) + ", tz=" + tail[..p];
    assert s[..|head| + p] == "timestamp[" + params;
    assert s[10..|head| + p] == s[..|head| + p][10..];
  }

  lemma ZoneBrackets(unit: TimeUnit, tail: string)
    ensures var head := "timestamp[" + UnitName(unit) + ", tz=";
      Find(head + tail, '[') == 9 && Find(head + tail, ']') == |head| + Find(tail, ']')
  {
    hide Find;
    var head := "timestamp[" + UnitName(unit) + ", tz=";
    var inner := "[" + UnitName(unit) + ", tz=" + tail;
    assert head + tail == "timestamp" + inner;
    FindAfter("timestamp", inner, '[');
    FindNow(inner);
    FindAfter(head, tail, ']');
  }

  lemma TimestampOf(s: string, params: string, unit: TimeUnit, zone: nat)
    requires Find(s, '[') < |s| && Find(s, ']') < |s| && Between(s, Find(s, '['), Find(s, ']')) == params
    requires zone <= |params| && FindText(params, "tz=") + 3 == zone
    requires (Prefix(params, 2) == "ns" <==> unit == Nano) && (Prefix(params, 2) == "us" <==> unit == Micro)
    requires (Prefix(params, 2) == "ms" <==> unit == Milli) && (unit == Second ==> Prefix(params, 1) == "s")
    ensures ParseTimestamp(s) == Ok(Timestamp(unit, params[zone..]))
  {
    hide Find, FindText, Prefix, Between;
  }

  lemma MalformedTimestamp(s: string)
    requires Find(s, '[') < |s| && Find(s, ']') == |s|
    ensures ParseTimestamp(s) == Err(MalformedType(s))
  {
    hide Find, FindText, Prefix, Between;
  }

  lemma FindNow(s: string)
    requires s != ""
    ensures Find(s, s[0]) == 0
  {
  }

  lemma {:induction false} FindAfter(head: string, tail: string, c: char)
    requires c !in head
    ensures Find(head + tail, c) == |head| + Find(tail, c)
  {
    if head == "" {
      assert head + tail == tail;
    } else {
      assert (head + tail)[1..] == head[1..] + tail;
      FindAfter(head[1..], tail, c);
    }
  }

  lemma ParsePlainTimestamp(unit: TimeUnit)
    ensures ParseTypeName("timestamp[" + UnitName(unit) + "]") == Ok(Timestamp(unit, ""))
  {
    hide ParseTypeName, FindText, Prefix;
    var s := "timestamp[" + UnitName(unit) + "]";
    assert s == "timestamp" + "[" + UnitName(unit) + "]";
    BracketParts("timestamp", UnitName(unit));
    TimestampBranch(s);
    UnitAlone(unit);
  }

  /** A name of the form head[text]. */
  lemma BracketParts(head: string, text: string)
    requires '[' !in head && ']' !in head && ']' !in text
    ensures var s := head + "[" + text + "]";
      && head <= s && Find(s, '[') == |head| < |s| && Find(s, ']') == |head| + 1 + |text| < |s|
      && Between(s, |head|, |head| + 1 + |text|) == text
  {
    hide Find;
    var s := head + "[" + text + "]";
    assert s == head + ['['] + (text + "]");
    FindFirst(head, '[', text + "]");
    assert s == (head + "[" + text) + [']'] + [];
    FindFirst(head + "[" + text, ']', []);
  }

  lemma ParseUnitName(t: DataType)
    requires t.Time32? || t.Time64? || t.Duration?
    ensures ParseTypeName(TypeName(t)) == Ok(t)
  {
    hide ParseTypeName;
    if t.Time32? {
      ParseTime32Name(t.millis);
    } else if t.Time64? {
      ParseTime64Name(t.nanos);
    } else {
      ParseDurationName(t.unit);
    }
  }

  lemma ParseTime32Name(millis: bool)
    ensures ParseTypeName(TypeName(Time32(millis))) == Ok(Time32(millis))
  {
    hide ParseTypeName, Find, Between;
    var unit, s := if millis then "ms" else "s", TypeName(Time32(millis));
    assert s == "time32" + "[" + unit + "]";
    BracketParts("time32", unit);
    TimeBranch(s);
  }

  lemma ParseTime64Name(nanos: bool)
    ensures ParseTypeName(TypeName(Time64(nanos))) == Ok(Time64(nanos))
  {
    hide ParseTypeName, Find, Between;
    var unit, s := if nanos then "ns" else "us", TypeName(Time64(nanos));
    assert s == "time64" + "[" + unit + "]";
    BracketParts("time64", unit);
    assert s[4] == '6' && "time32"[4] == '3';
    TimeBranch(s);
  }

  lemma ParseDurationName(unit: TimeUnit)
    ensures ParseTypeName(TypeName(Duration(unit))) == Ok(Duration(unit))
  {
    hide ParseTypeName, Find, Between;
    var s := TypeName(Duration(unit));
    assert s == "duration" + "[" + UnitName(unit) + "]";
    BracketParts("duration", UnitName(unit));
    DurationBranch(s);
  }

  lemma ParseSizeName(t: DataType)
    requires t.FixedSizeBinary? || t.FixedSizeList?
    ensures ParseTypeName(TypeName(t))
         == Ok(if t.FixedSizeBinary? then t else FixedSizeList(ItemField(), t.listSize))
  {
    hide ParseTypeName, Find, IntText, Stoi, Between;
    var head := if t.FixedSizeBinary? then "fixed_size_binary" else "fixed_size_list";
    var n := if t.FixedSizeBinary? then t.byteWidth else t.listSize;
    var s := head + "[" + IntText(n) + "]";
    assert TypeName(t) == s;
    IntTextCharacters(n, ']');
    BracketParts(head, IntText(n));
    StoiOfText(n, "");
    assert IntText(n) + "" == IntText(n);
    SizeBranch(s);
  }

  lemma DecimalParams(head: string, precision: int32, scale: int32, p: int32, q: int32)
    requires '(' !in head && ')' !in head
    ensures ParseDecimal(head + "(" + IntText(precision) + ", " + IntText(scale) + ")", p, q) == Some((precision, scale))
  {
    hide Find, IntText, Stoi;
    var a, b := IntText(precision), IntText(scale);
    var s := head + "(" + a + ", " + b + ")";
    assert s == head + ['('] + (a + ", " + b + ")");
    FindFirst(head, '(', a + ", " + b + ")");
    var params := a + ", " + b;
    DecimalClose(head, precision, scale);
    assert Between(s, |head|, |s| - 1) == params;
    IntTextCharacters(precision, ',');
    assert params == a + [','] + ([' '] + b);
    FindFirst(a, ',', [' '] + b);
    assert params[..|a|] == a && params[|a| + 1..] == [' '] + b;
    StoiOfText(precision, "");
    StoiOfText(scale, "");
    assert a + "" == a && b + "" == b;
  }

  lemma DecimalClose(head: string, precision: int32, scale: int32)
    requires ')' !in head
    ensures var s := head + "(" + IntText(precision) + ", " + IntText(scale) + ")"; Find(s, ')') == |s| - 1
  {
    hide Find, IntText;
    IntTextCharacters(precision, ')');
    IntTextCharacters(scale, ')');
    var pre := head + "(" + IntText(precision) + ", " + IntText(scale);
    assert pre + ")" == pre + [')'] + [];
    FindFirst(pre, ')', []);
  }

  lemma ParseDecimalName(t: DataType)
    requires t.Decimal128? || t.Decimal256?
    ensures ParseTypeName(TypeName(t)) == Ok(t)
  {
    hide ParseTypeName, ParseDecimal, IntText;
    var head := if t.Decimal128? then "decimal128" else "decimal256";
    var s := head + "(" + IntText(t.precision) + ", " + IntText(t.scale) + ")";
    assert TypeName(t) == s;
    assert head <= s;
    DecimalParams(head, t.precision, t.scale, 38, 10);
    DecimalParams(head, t.precision, t.scale, 76, 20);
    DecimalBranch(s);
  }

  /** parseTypeName undoes typeName for every type: it gives the type back without its children, and the time zone of a
      timestamp up to the first ']'; the name of a dictionary or union is refused. */
  lemma ParseInvertsName(t: DataType)
    ensures ParseTypeName(TypeName(t))
         == (if Skeleton(t).Some? then Ok(Skeleton(t).value) else Err(UnknownType(TypeName(t))))
  {
    hide ParseTypeName;
    if HasPlainName(t) {
      PlainName(t);
      BasicParses(TypeName(t));
    } else if t.Timestamp? {
      TimestampName(t.unit, t.timezone);
    } else if t.Time32? || t.Time64? || t.Duration? {
      ParseUnitName(t);
    } else if t.FixedSizeBinary? || t.FixedSizeList? {
      ParseSizeName(t);
    } else if t.Decimal128? || t.Decimal256? {
      ParseDecimalName(t);
    } else if t.Dictionary? || t.Union? {
      UnknownName(t);
    } else {
      NestedBranch(t);
    }
  }

  lemma BasicParses(s: string)
    requires BasicType(s).Some?
    ensures ParseTypeName(s) == Ok(BasicType(s).value)
  {
    hide BasicType;
  }

  lemma UnknownName(t: DataType)
    requires t.Dictionary? || t.Union?
    ensures ParseTypeName(TypeName(t)) == Err(UnknownType(TypeName(t)))
  {
    hide ParseTypeName;
    var s := TypeName(t);
    if t.Union? {
      assert (if t.sparse then "sparse_union<" else "dense_union<") <= s;
    } else {
      assert s == "dictionary[" + (TypeName(t.index) + ", " + TypeName(t.dictionary) + "]");
      assert "dictionary[" <= s;
    }
    UnknownBranch(s);
  }

  lemma TimestampName(unit: TimeUnit, timezone: string)
    ensures ParseTypeName(TypeName(Timestamp(unit, timezone))) == Ok(Timestamp(unit, timezone[..Find(timezone, ']')]))
  {
    hide ParseTypeName;
    if timezone == "" {
      ParsePlainTimestamp(unit);
    } else {
      var tail := timezone + "]";
      ParseZonedTimestamp(unit, tail);
      assert "timestamp[" + UnitName(unit) + ", tz=" + tail == TypeName(Timestamp(unit, timezone));
      FindInTail(timezone);
    }
  }

  lemma {:induction false} FindInTail(s: string)
    ensures Find(s + "]", ']') == Find(s, ']')
    ensures (s + "]")[..Find(s, ']')] == s[..Find(s, ']')]
  {
    assert (s + "]")[..Find(s, ']')] == s[..Find(s, ']')];
    if s == "" {
      assert s + "]" == "]";
    } else {
      assert (s + "]")[1..] == s[1..] + "]";
      FindInTail(s[1..]);
    }
  }

  /** A type without children comes back as itself exactly when its time zone, if any, contains no ']'. */
  lemma NameRoundTrip(t: DataType)
    requires !t.Struct? && !t.List? && !t.LargeList? && !t.FixedSizeList? && !t.Map? && !t.Dictionary? && !t.Union?
    ensures ParseTypeName(TypeName(t)) == Ok(t) <==> (t.Timestamp? ==> ']' !in t.timezone)
  {
    hide ParseTypeName, TypeName, Find;
    ParseInvertsName(t);
    if t.Timestamp? {
      FindNone(t.timezone, ']');
      assert t.timezone[..|t.timezone|] == t.timezone;
      assert |t.timezone[..Find(t.timezone, ']')]| == Find(t.timezone, ']');
    }
  }
}
