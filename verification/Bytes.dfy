/** Bytes, little-endian numbers, and alignment by masking. */
module Bytes {

  type byte = x: int | 0 <= x < 256

  function Power(base: nat, n: nat): (p: nat)
    ensures base > 0 ==> p > 0
  {
    if n == 0 then 1 else base * Power(base, n - 1)
  }

  /** The number whose little-endian bytes are given. */
  function LittleEndian(data: seq<byte>): nat {
    if data == [] then 0 else data[0] + 256 * LittleEndian(data[1..])
  }

  function LittleBytes(x: nat, n: nat): (data: seq<byte>)
    ensures |data| == n
  {
    if n == 0 then [] else [x % 256] + LittleBytes(x / 256, n - 1)
  }

  lemma {:induction false} LittleEndianInverts(x: nat, n: nat)
    requires x < Power(256, n)
    ensures LittleEndian(LittleBytes(x, n)) == x
  {
    if n > 0 {
      assert x / 256 < Power(256, n - 1);
      LittleEndianInverts(x / 256, n - 1);
      assert LittleBytes(x, n)[1..] == LittleBytes(x / 256, n - 1);
    }
  }

  /** x & ~(2^k - 1), digit by binary digit: the low k bits become zero. */
  function ClearLowBits(x: nat, k: nat): nat {
    if k == 0 then x else 2 * ClearLowBits(x / 2, k - 1)
  }

  lemma {:induction false} ClearLowBitsRoundsDown(x: nat, k: nat)
    ensures ClearLowBits(x, k) == x - x % Power(2, k)
  {
    if k > 0 {
      var m := Power(2, k - 1);
      ClearLowBitsRoundsDown(x / 2, k - 1);
      HalfRemainder(x, m);
    }
  }

  lemma HalfRemainder(x: nat, m: nat)
    requires m > 0
    ensures x % (2 * m) == 2 * (x / 2 % m) + x % 2
  {
    var q, r := x / 2 / m, x / 2 % m;
    assert x / 2 == q * m + r;
    assert x == q * (2 * m) + (2 * r + x % 2);
    QuotientUnique(x, 2 * m, q, 2 * r + x % 2);
  }

  lemma QuotientUnique(x: int, m: int, q: int, r: int)
    requires 0 <= r < m && x == q * m + r
    ensures x / m == q && x % m == r
  {
    var k := q - x / m;
    assert k * m == x % m - r;
    assert k >= 1 ==> k * m >= m;
    assert k <= -1 ==> k * m <= -m;
  }

  /** (x + 2^k - 1) & ~(2^k - 1). */
  function AlignUp(x: nat, k: nat): nat {
    ClearLowBits(x + Power(2, k) - 1, k)
  }

  predicate Multiple(x: int, m: int)
    requires m > 0
  {
    x % m == 0
  }

  /** Aligning gives the least multiple of 2^k that is not below x. */
  lemma AlignUpIsLeastMultiple(x: nat, k: nat)
    ensures Multiple(AlignUp(x, k), Power(2, k)) && x <= AlignUp(x, k) < x + Power(2, k)
    ensures forall y: nat :: Multiple(y, Power(2, k)) && x <= y ==> AlignUp(x, k) <= y
  {
    hide Power, ClearLowBits, Multiple;
    var m := Power(2, k);
    ClearLowBitsRoundsDown(x + m - 1, k);
    RoundedIsLeast(x, m);
  }

  lemma RoundedIsLeast(x: nat, m: int)
    requires m > 0
    ensures var a := x + m - 1 - (x + m - 1) % m;
      Multiple(a, m) && x <= a < x + m && forall y: nat :: Multiple(y, m) && x <= y ==> a <= y
  {
    var a := x + m - 1 - (x + m - 1) % m;
    var q := (x + m - 1) / m;
    assert a == q * m;
    QuotientUnique(a, m, q, 0);
    forall y: nat | Multiple(y, m) && x <= y
      ensures a <= y
    {
      MultipleAbove(y, q, m);
    }
  }

  lemma MultipleAbove(y: int, q: int, m: int)
    requires m > 0 && Multiple(y, m) && y > (q - 1) * m
    ensures y >= q * m
  {
    var n := y / m;
    assert y == n * m;
    MulMonotone(if n < q then n else q - 1, q - 1, m);
    MulMonotone(q, if n < q then q else n, m);
  }

  lemma MulMonotone(a: int, b: int, m: int)
    requires a <= b && 0 <= m
    ensures a * m <= b * m
  {
  }
}
