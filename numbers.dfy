/**
  Decimal integers as the byte-count event reads and writes them:
  `strconv.Atoi` (its error result discarded, so a rejected input reads as 0)
  and the `%d` verb of `fmt`.  Integers are mathematical; the 64-bit range of
  Go's `int` is not modelled.
 */
module Numbers {
  import opened Bytes

  predicate IsDigit(c: Byte)
  {
    '0' <= c <= '9'
  }

  predicate AllDigits(s: Bytes)
  {
    forall i :: 0 <= i < |s| ==> IsDigit(s[i])
  }

  function DigitValue(c: Byte): nat
    requires IsDigit(c)
  {
    c as int - '0' as int
  }

  function DigitChar(d: nat): (c: Byte)
    requires d < 10
    ensures IsDigit(c) && DigitValue(c) == d
  {
    ('0' as int + d) as char
  }

  /** The value of a string of decimal digits, most significant first. */
  function DigitsValue(s: Bytes): nat
    requires AllDigits(s)
    decreases |s|
  {
    if |s| == 0 then 0 else DigitsValue(s[..|s| - 1]) * 10 + DigitValue(s[|s| - 1])
  }

  /** The syntax `strconv.Atoi` accepts: an optional sign, then one or more digits. */
  predicate IsDecimal(s: Bytes)
  {
    if |s| > 0 && (s[0] == '+' || s[0] == '-') then |s| > 1 && AllDigits(s[1..])
    else |s| > 0 && AllDigits(s)
  }

  /**
    `strconv.Atoi(s)` with the error ignored: the signed value of a decimal
    string, and 0 for anything else (the empty string, a lone sign, any
    non-digit).
   */
  function Atoi(s: Bytes): (n: int)
    ensures !IsDecimal(s) ==> n == 0
    ensures IsDecimal(s) && s[0] != '-' ==> n >= 0
    ensures IsDecimal(s) && s[0] == '-' ==> n <= 0
  {
    if |s| > 0 && (s[0] == '+' || s[0] == '-') then
      var d := s[1..];
      if |d| > 0 && AllDigits(d) then
        (if s[0] == '-' then -(DigitsValue(d) as int) else DigitsValue(d))
      else 0
    else if |s| > 0 && AllDigits(s) then DigitsValue(s)
    else 0
  }

  /** The shortest decimal digits of `n`. */
  function Digits(n: nat): (s: Bytes)
    ensures |s| >= 1 && AllDigits(s)
    ensures DigitsValue(s) == n
    ensures s[0] == '0' ==> n == 0 && s == "0"
    decreases n
  {
    if n < 10 then [DigitChar(n)]
    else
      var prefix, last := Digits(n / 10), DigitChar(n % 10);
      assert (prefix + [last])[..|prefix|] == prefix;
      prefix + [last]
  }

  /**
    `fmt.Sprintf("%d", n)`; reading it back with Atoi gives `n` again.  It is
    the canonical form: no `+`, a `-` only for negative numbers, and no
    leading zero except in `0` itself.
   */
  function Decimal(n: int): (s: Bytes)
    ensures IsDecimal(s) && Atoi(s) == n
    ensures s[0] != '+' && (n >= 0 <==> s[0] != '-')
    ensures s[0] == '0' ==> s == "0"
    ensures n < 0 ==> s[1] != '0'
  {
    if n < 0 then
      var d := Digits(-n);
      assert (['-'] + d)[1..] == d;
      ['-'] + d
    else Digits(n)
  }

  /** A leading `+` does not change the value. */
  lemma AtoiPlus(d: Bytes)
    requires |d| > 0 && AllDigits(d)
    ensures Atoi(['+'] + d) == Atoi(d)
  {
    assert (['+'] + d)[1..] == d;
  }

  /** A leading `-` negates the value. */
  lemma AtoiMinus(d: Bytes)
    requires |d| > 0 && AllDigits(d)
    ensures Atoi(['-'] + d) == -Atoi(d)
  {
    assert (['-'] + d)[1..] == d;
  }

  /** Leading zeros do not change the value. */
  lemma AtoiLeadingZero(d: Bytes)
    requires |d| > 0 && AllDigits(d)
    ensures Atoi(['0'] + d) == Atoi(d)
  {
    DigitsValueLeadingZero(d);
  }

  lemma {:induction false} DigitsValueLeadingZero(d: Bytes)
    requires AllDigits(d)
    ensures AllDigits(['0'] + d) && DigitsValue(['0'] + d) == DigitsValue(d)
    decreases |d|
  {
    var z := ['0'] + d;
    if |d| > 0 {
      DigitsValueLeadingZero(d[..|d| - 1]);
      assert z[..|z| - 1] == ['0'] + d[..|d| - 1];
    }
  }
}
