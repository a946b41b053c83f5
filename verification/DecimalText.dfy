/** Decimal text: std::to_string, and the prefix parsers std::stoi and strtoull. */
module DecimalText {
  import opened Wrappers
  import opened ArrowTypes

  predicate IsDigit(c: char) {
    '0' <= c <= '9'
  }

  predicate IsSpace(c: char) {
    c == ' ' || '\t' <= c <= '\r'
  }

  function DigitOf(d: int): char
    requires 0 <= d < 10
  {
    '0' + d as char
  }

  /** std::to_string. */
  function NatText(n: nat): (s: string)
    ensures s != []
  {
    if n < 10 then [DigitOf(n)] else NatText(n / 10) + [DigitOf(n % 10)]
  }

  function IntText(n: int): string {
    if n < 0 then ['-'] + NatText(-n) else NatText(n)
  }

  function SkipSpace(s: string): string {
    if s != [] && IsSpace(s[0]) then SkipSpace(s[1..]) else s
  }

  function DigitRun(s: string): (n: nat)
    ensures n <= |s|
    ensures forall i :: 0 <= i < n ==> IsDigit(s[i])
  {
    if s != [] && IsDigit(s[0]) then 1 + DigitRun(s[1..]) else 0
  }

  function DigitsValue(s: string): nat
    requires forall i :: 0 <= i < |s| ==> IsDigit(s[i])
  {
    if s == [] then 0
    else
      assert IsDigit(s[|s| - 1]);
      10 * DigitsValue(s[..|s| - 1]) + (s[|s| - 1] as int - '0' as int)
  }

  function ParseDigits(s: string): Option<nat> {
    var n := DigitRun(s);
    if n == 0 then None else Some(DigitsValue(s[..n]))
  }

  /** The number both parsers read: optional space, an optional sign, and at least one digit. */
  function ParsePrefix(s: string): Option<int> {
    ParseSigned(SkipSpace(s))
  }

  function ParseSigned(t: string): Option<int> {
    if t != [] && t[0] == '-' then
      match ParseDigits(t[1..])
      case None => None
      case Some(n) => Some(-(n as int))
    else
      match ParseDigits(if t != [] && t[0] == '+' then t[1..] else t)
      case None => None
      case Some(n) => Some(n as int)
  }

  datatype StoiError = InvalidArgument | OutOfRange

  /** std::stoi: the text after the number is ignored. */
  function Stoi(s: string): Result<int32, StoiError> {
    match ParsePrefix(s)
    case None => Err(InvalidArgument)
    case Some(x) => if -0x8000_0000 <= x < 0x8000_0000 then Ok(x) else Err(OutOfRange)
  }

  /** strtoull in base 10: zero without a number, saturating above, negated modulo 2^64 below zero. */
  function Strtoull(s: string): int {
    match ParsePrefix(s)
    case None => 0
    case Some(x) =>
      if x >= 0x1_0000_0000_0000_0000 || x <= -0x1_0000_0000_0000_0000 then 0xFFFF_FFFF_FFFF_FFFF
      else x % 0x1_0000_0000_0000_0000
  }

  lemma {:induction false} NatTextIsDigits(n: nat)
    ensures forall i :: 0 <= i < |NatText(n)| ==> IsDigit(NatText(n)[i])
    ensures DigitsValue(NatText(n)) == n
  {
    if n >= 10 {
      NatTextIsDigits(n / 10);
      var s := NatText(n);
      assert s[..|s| - 1] == NatText(n / 10);
    }
  }

  lemma {:induction false} DigitRunOfPrefix(digits: string, rest: string)
    requires forall i :: 0 <= i < |digits| ==> IsDigit(digits[i])
    requires rest == [] || !IsDigit(rest[0])
    ensures DigitRun(digits + rest) == |digits|
  {
    if digits == [] {
      assert digits + rest == rest;
    } else {
      assert (digits + rest)[1..] == digits[1..] + rest;
      DigitRunOfPrefix(digits[1..], rest);
    }
  }

  lemma ParseDigitsOfText(n: nat, rest: string)
    requires rest == [] || !IsDigit(rest[0])
    ensures ParseDigits(NatText(n) + rest) == Some(n)
  {
    NatTextIsDigits(n);
    DigitRunOfPrefix(NatText(n), rest);
    assert (NatText(n) + rest)[..|NatText(n)|] == NatText(n);
  }

  lemma TextStart(n: int, rest: string)
    ensures |IntText(n) + rest| > 0
    ensures !IsSpace((IntText(n) + rest)[0])
    ensures n >= 0 ==> IsDigit((IntText(n) + rest)[0])
  {
    NatTextIsDigits(if n < 0 then -n else n);
  }

  /** Parsing undoes printing, whatever follows the number. */
  lemma ParsePrefixOfText(n: int, rest: string)
    requires rest == [] || !IsDigit(rest[0])
    ensures ParsePrefix(IntText(n) + rest) == Some(n)
    ensures ParsePrefix([' '] + (IntText(n) + rest)) == Some(n)
  {
    var t := IntText(n) + rest;
    hide NatText, ParseDigits;
    TextStart(n, rest);
    assert ([' '] + t)[1..] == t;
    assert SkipSpace([' '] + t) == SkipSpace(t) == t;
    ParseSignedOfText(n, rest);
  }

  lemma ParseSignedOfText(n: int, rest: string)
    requires rest == [] || !IsDigit(rest[0])
    ensures ParseSigned(IntText(n) + rest) == Some(n)
  {
    hide NatText, ParseDigits;
    var t := IntText(n) + rest;
    TextStart(n, rest);
    if n < 0 {
      ParseDigitsOfText(-n, rest);
      assert t[1..] == NatText(-n) + rest;
    } else {
      ParseDigitsOfText(n, rest);
    }
  }

  lemma StoiOfText(n: int32, rest: string)
    requires rest == [] || !IsDigit(rest[0])
    ensures Stoi(IntText(n) + rest) == Ok(n)
    ensures Stoi([' '] + (IntText(n) + rest)) == Ok(n)
  {
    ParsePrefixOfText(n, rest);
  }

  /** strtoull reads back every unsigned 64-bit number that was printed, and saturates above. */
  lemma StrtoullOfText(n: nat)
    ensures Strtoull(NatText(n)) == if n < 0x1_0000_0000_0000_0000 then n else 0xFFFF_FFFF_FFFF_FFFF
  {
    var s := NatText(n);
    assert ParsePrefix(s) == Some(n) by {
      ParsePrefixOfText(n, []);
      assert s == IntText(n) + [];
    }
  }
}
