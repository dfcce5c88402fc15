/** Decimal notation of integers, as the counters and the token printer use it. */
module Decimals {
  import opened Options

  function DigitChar(d: nat): char
    requires d < 10
  {
    ['0', '1', '2', '3', '4', '5', '6', '7', '8', '9'][d]
  }

  predicate IsDigit(c: char) {
    '0' <= c <= '9'
  }

  function DigitValue(c: char): nat
    requires IsDigit(c)
  {
    (c - '0') as nat
  }

  predicate AllDigits(s: string) {
    forall i :: 0 <= i < |s| ==> IsDigit(s[i])
  }

  /** The shortest decimal notation of n. */
  function Digits(n: nat): (s: string)
    ensures |s| > 0 && AllDigits(s)
  {
    if n < 10 then [DigitChar(n)] else Digits(n / 10) + [DigitChar(n % 10)]
  }

  /** The number a string of digits denotes, most significant digit first. */
  function Number(s: string): nat
    requires AllDigits(s)
  {
    if s == [] then 0 else 10 * Number(s[..|s| - 1]) + DigitValue(s[|s| - 1])
  }

  function Pow10(n: nat): (r: nat)
    ensures r > 0
  {
    if n == 0 then 1 else 10 * Pow10(n - 1)
  }

  lemma {:induction false} NumberOfDigits(n: nat)
    ensures Number(Digits(n)) == n
  {
    var s := Digits(n);
    if n < 10 {
      assert s[..|s| - 1] == [];
    } else {
      NumberOfDigits(n / 10);
      assert s[..|s| - 1] == Digits(n / 10);
    }
  }

  lemma TenTimes(x: nat, p: nat)
    ensures x * (10 * p) == 10 * (x * p)
  {
  }

  lemma {:induction false} NumberConcat(a: string, b: string)
    requires AllDigits(a) && AllDigits(b)
    ensures Number(a + b) == Number(a) * Pow10(|b|) + Number(b)
  {
    if b == [] {
      assert a + b == a;
    } else {
      var n := |b| - 1;
      NumberConcat(a, b[..n]);
      assert (a + b)[..|a + b| - 1] == a + b[..n];
      var x, p, y, d := Number(a), Pow10(n), Number(b[..n]), DigitValue(b[n]);
      assert Number(a + b) == 10 * Number(a + b[..n]) + d;
      TenTimes(x, p);
      assert Number(b) == 10 * y + d;
    }
  }

  const INT64_MIN: int := -0x8000_0000_0000_0000
  const INT64_MAX: int := 0x7FFF_FFFF_FFFF_FFFF

  const TWO64: int := 0x1_0000_0000_0000_0000

  /** Two's complement wrap-around of a 64-bit sum. */
  function Wrap64(x: int): (r: int)
    ensures INT64_MIN <= r <= INT64_MAX
    decreases if INT64_MIN <= x <= INT64_MAX then 0 else if x < 0 then -x else x
  {
    if x > INT64_MAX then Wrap64(x - TWO64)
    else if x < INT64_MIN then Wrap64(x + TWO64)
    else x
  }

  /** Wrapping moves a number into the 64-bit range by whole multiples of 2^64. */
  lemma {:induction false} WrapMeans(x: int) returns (k: int)
    ensures Wrap64(x) == x + k * 18446744073709551616
    ensures -9223372036854775808 <= Wrap64(x) <= 9223372036854775807
    decreases if INT64_MIN <= x <= INT64_MAX then 0 else if x < 0 then -x else x
  {
    k := 0;
    if x > INT64_MAX {
      k := WrapMeans(x - TWO64);
      k := k - 1;
    } else if x < INT64_MIN {
      k := WrapMeans(x + TWO64);
      k := k + 1;
    }
  }

  lemma WrapPeriod(x: int)
    ensures Wrap64(x + TWO64) == Wrap64(x)
  {
  }

  /** Wrapping on the way does not change where a sum ends up. */
  lemma {:induction false} WrapAdd(x: int, n: int)
    ensures Wrap64(Wrap64(x) + n) == Wrap64(x + n)
    decreases if INT64_MIN <= x <= INT64_MAX then 0 else if x < 0 then -x else x
  {
    if x > INT64_MAX {
      WrapAdd(x - TWO64, n);
      WrapPeriod(x - TWO64 + n);
    } else if x < INT64_MIN {
      WrapAdd(x + TWO64, n);
      WrapPeriod(x + n);
    }
  }

  function FormatInt(n: int): string {
    if n < 0 then "-" + Digits(-n) else Digits(n)
  }

  /** strconv.ParseInt in base 10 with 64 bits: an optional sign, then at least one digit. */
  function ParseInt(s: string): Option<int> {
    var signed := s != [] && (s[0] == '-' || s[0] == '+');
    var body := if signed then s[1..] else s;
    if body == [] || !AllDigits(body) then None
    else
      var n: int := if signed && s[0] == '-' then -(Number(body) as int) else Number(body) as int;
      if INT64_MIN <= n <= INT64_MAX then Some(n) else None
  }

  lemma ParseFormat(n: int)
    requires INT64_MIN <= n <= INT64_MAX
    ensures ParseInt(FormatInt(n)) == Some(n)
  {
    if n < 0 {
      var s := Digits(-n);
      NumberOfDigits(-n);
      assert ("-" + s)[1..] == s;
    } else {
      var s := Digits(n);
      NumberOfDigits(n);
      assert IsDigit(s[0]) && s[0] != '-' && s[0] != '+';
    }
  }

  /** A number is digits, with a sign or without, that fit 64 bits. */
  lemma ParseIntSigned(digits: string)
    requires digits != [] && AllDigits(digits)
    ensures var n: int := Number(digits);
      && ParseInt(digits) == (if n <= 9223372036854775807 then Some(n) else None)
      && ParseInt("+" + digits) == (if n <= 9223372036854775807 then Some(n) else None)
      && ParseInt("-" + digits) == (if n <= 9223372036854775808 then Some(-n) else None)
  {
    assert IsDigit(digits[0]);
    assert ("+" + digits)[1..] == digits && ("-" + digits)[1..] == digits;
  }

  /** Nothing else is. */
  lemma ParseIntElse(s: string)
    requires ParseInt(s).Some?
    ensures s != []
    ensures var digits := if s[0] == '+' || s[0] == '-' then s[1..] else s;
      digits != [] && AllDigits(digits)
  {
  }
}
