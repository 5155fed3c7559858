/** Optional values and decimal numerals. */
module Support {

  datatype Option<+T> = None | Some(value: T)

  const MAX_INT64 := 0x7FFF_FFFF_FFFF_FFFF

  type int64 = i: int | -MAX_INT64 - 1 <= i <= MAX_INT64

  // HTTP status codes
  const STATUS_OK := 200
  const STATUS_CREATED := 201
  const STATUS_ACCEPTED := 202
  const STATUS_NO_CONTENT := 204

  predicate IsDigit(c: char) {
    '0' <= c <= '9'
  }

  predicate AllDigits(s: string) {
    forall i :: 0 <= i < |s| ==> IsDigit(s[i])
  }

  function DigitOf(d: nat): (c: char)
    requires d < 10
    ensures IsDigit(c) && c as int - '0' as int == d
  {
    '0' + d as char
  }

  /** Decimal numeral of a natural number, without leading zeros. */
  function Digits(n: nat): (s: string)
    ensures s != [] && AllDigits(s)
  {
    if n < 10 then [DigitOf(n)] else Digits(n / 10) + [DigitOf(n % 10)]
  }

  function Number(s: string): nat
    requires AllDigits(s)
  {
    if s == [] then 0 else 10 * Number(s[..|s| - 1]) + (s[|s| - 1] as int - '0' as int)
  }

  /** What %v and %d print for an integer. */
  function Decimal(n: int): string {
    if n < 0 then "-" + Digits(-n) else Digits(n)
  }

  lemma {:induction false} NumberOfDigits(n: nat)
    ensures Number(Digits(n)) == n
  {
    if n < 10 {
      assert Digits(n)[..0] == [];
    } else {
      NumberOfDigits(n / 10);
      assert Digits(n)[..|Digits(n)| - 1] == Digits(n / 10);
    }
  }

  lemma DecimalIsInjective(m: int, n: int)
    requires Decimal(m) == Decimal(n)
    ensures m == n
  {
    assert Decimal(m)[0] == '-' <==> m < 0;
    assert Decimal(n)[0] == '-' <==> n < 0;
    if m < 0 {
      assert Decimal(m)[1..] == Digits(-m) && Decimal(n)[1..] == Digits(-n);
      NumberOfDigits(-m);
      NumberOfDigits(-n);
    } else {
      NumberOfDigits(m);
      NumberOfDigits(n);
    }
  }

  /** A decimal numeral contains neither of the separators used around it. */
  lemma DecimalChars(n: int, c: char)
    requires !IsDigit(c) && c != '-'
    ensures c !in Decimal(n)
  {
  }

  /** Digits is the only numeral without a leading zero. */
  lemma {:induction false} DigitsOfNumber(s: string)
    requires s != "" && AllDigits(s) && (s[0] == '0' ==> s == "0")
    ensures Digits(Number(s)) == s
    ensures s != "0" ==> Number(s) > 0
  {
    var m := |s| - 1;
    assert s == s[..m] + [s[m]];
    if m > 0 {
      DigitsOfNumber(s[..m]);
    }
  }

  lemma {:induction false} NoLeadingZero(n: nat)
    ensures Digits(n)[0] == '0' ==> n == 0
  {
    if n >= 10 {
      NoLeadingZero(n / 10);
    }
  }

  /** What Decimal can print. */
  predicate IsNumeral(s: string) {
    var digits := if s != "" && s[0] == '-' then s[1..] else s;
    digits != "" && AllDigits(digits) && (digits[0] == '0' ==> s == "0")
  }

  function NumeralValue(s: string): int
    requires IsNumeral(s)
  {
    if s[0] == '-' then 0 - Number(s[1..]) else Number(s)
  }

  /** The numerals of the numbers that fit in 64 bits. */
  predicate IsInt64(s: string) {
    IsNumeral(s) && -MAX_INT64 - 1 <= NumeralValue(s) <= MAX_INT64
  }

  lemma DecimalIsNumeral(n: int)
    ensures IsNumeral(Decimal(n)) && NumeralValue(Decimal(n)) == n
  {
    NoLeadingZero(if n < 0 then -n else n);
    NumberOfDigits(if n < 0 then -n else n);
    if n < 0 {
      assert Decimal(n)[1..] == Digits(-n);
    }
  }

  lemma NumeralIsDecimal(s: string)
    requires IsNumeral(s)
    ensures s == Decimal(NumeralValue(s))
  {
    if s[0] == '-' {
      DigitsOfNumber(s[1..]);
      assert s == "-" + s[1..];
    } else {
      DigitsOfNumber(s);
    }
  }

  function Min(x: int, y: int): int {
    if x < y then x else y
  }

  /** Rounding up as the source writes it. */
  function CeilDiv(a: nat, b: nat): (n: nat)
    requires b >= 1
  {
    (a + b - 1) / b
  }

  // ----- texts with separators -----

  function Join(parts: seq<string>, separator: string): string {
    if parts == [] then ""
    else if |parts| == 1 then parts[0]
    else parts[0] + separator + Join(parts[1..], separator)
  }

  /** Position of the first c, or the length. */
  function Find(s: string, c: char): (k: nat)
    ensures k <= |s|
    ensures k < |s| ==> s[k] == c
    ensures forall i :: 0 <= i < k ==> s[i] != c
  {
    if s == "" || s[0] == c then 0 else 1 + Find(s[1..], c)
  }

  lemma FindAfter(s: string, c: char, t: string)
    requires c !in s
    ensures Find(s + [c] + t, c) == |s|
  {
    var all := s + [c] + t;
    assert all[|s|] == c;
    assert forall i :: 0 <= i < |s| ==> all[i] == s[i] && s[i] in s;
  }
}
