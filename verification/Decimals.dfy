/** Decimal text of integers: what formatting means, independently of how it is done. */
module Decimals {

  function Digit(d: nat): char
    requires d < 10
  {
    '0' + d as char
  }

  /** Decimal digits of `n`, most significant first. */
  function Digits(n: nat): (s: string)
    ensures s != []
  {
    if n < 10 then [Digit(n)] else Digits(n / 10) + [Digit(n % 10)]
  }

  function Decimal(v: int): string {
    if v < 0 then "-" + Digits(-v) else Digits(v)
  }

  predicate AllDigits(s: string) {
    forall i | 0 <= i < |s| :: '0' <= s[i] <= '9'
  }

  function DigitValue(c: char): nat
    requires '0' <= c <= '9'
  {
    c as int - '0' as int
  }

  /** The number a digit string stands for. */
  function Value(s: string): nat
    requires AllDigits(s)
  {
    if s == [] then 0
    else 10 * Value(s[..|s| - 1]) + DigitValue(s[|s| - 1])
  }

  datatype Parsed = NotANumber | Number(value: int)

  /** Reads back an optional sign and one or more digits. */
  function Parse(s: string): Parsed {
    if s != [] && s[0] == '-' then
      if s[1..] != [] && AllDigits(s[1..]) then Number(0 - Value(s[1..])) else NotANumber
    else
      if s != [] && AllDigits(s) then Number(Value(s)) else NotANumber
  }

  /** No leading zeros, and a sign only in front of a non-zero number. */
  predicate Canonical(s: string) {
    if s != [] && s[0] == '-' then CanonicalDigits(s[1..]) && s[1] != '0'
    else CanonicalDigits(s)
  }

  predicate CanonicalDigits(s: string) {
    s != [] && AllDigits(s) && (s[0] == '0' ==> |s| == 1)
  }

  lemma {:induction false} DigitsMean(n: nat)
    ensures AllDigits(Digits(n)) && Value(Digits(n)) == n
    ensures CanonicalDigits(Digits(n)) && (Digits(n)[0] == '0' <==> n == 0)
  {
    if n >= 10 {
      DigitsMean(n / 10);
      assert Digits(n)[..|Digits(n)| - 1] == Digits(n / 10);
    } else {
      assert Digits(n)[..0] == [];
    }
  }

  lemma {:induction false} DigitsUnique(s: string)
    requires CanonicalDigits(s)
    ensures Digits(Value(s)) == s && (Value(s) == 0 <==> s[0] == '0')
  {
    var n := |s| - 1;
    if n == 0 {
      assert s[..0] == [] && s == [s[0]];
    } else {
      DigitsUnique(s[..n]);
      assert Value(s) / 10 == Value(s[..n]) && Value(s) % 10 == DigitValue(s[n]);
      assert s == s[..n] + [s[n]];
    }
  }

  /** Formatting then parsing gives back every integer, and the text is canonical. */
  lemma RoundTrip(v: int)
    ensures Parse(Decimal(v)) == Number(v) && Canonical(Decimal(v))
  {
    DigitsMean(if v < 0 then -v else v);
    if v < 0 {
      assert Decimal(v)[1..] == Digits(-v);
    }
  }

  /** Parsing then formatting gives back every canonical text. */
  lemma CanonicalRoundTrip(s: string)
    requires Canonical(s)
    ensures Parse(s).Number? && Decimal(Parse(s).value) == s
  {
    if s[0] == '-' {
      DigitsUnique(s[1..]);
      assert s == "-" + s[1..];
    } else {
      DigitsUnique(s);
    }
  }

  function Pow10(k: nat): nat {
    if k == 0 then 1 else 10 * Pow10(k - 1)
  }

  lemma {:induction false} DigitsLength(n: nat, k: nat)
    requires 1 <= k && n < Pow10(k)
    ensures |Digits(n)| <= k
  {
    if n >= 10 {
      assert k > 1 by { assert Pow10(1) == 10 * Pow10(0); }
      DigitsLength(n / 10, k - 1);
    }
  }
}
