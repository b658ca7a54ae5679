/**
  Decimal text of Go's `int`, which is 64 bits wide on the platforms the dumper
  targets: `strconv.Itoa` and `%d` formatting, `strconv.Atoi` parsing, and the
  `%.0f` rendering of a non-integral value.
*/
module Decimal {
  import opened Wrappers

  const IntMin: int := -0x8000_0000_0000_0000
  const IntMax: int := 0x7fff_ffff_ffff_ffff

  predicate InIntRange(n: int) {
    IntMin <= n <= IntMax
  }

  predicate IsDigit(c: char) {
    '0' <= c <= '9'
  }

  predicate AllDigits(s: string) {
    forall i :: 0 <= i < |s| ==> IsDigit(s[i])
  }

  function DigitValue(c: char): nat
    requires IsDigit(c)
  {
    c as int - '0' as int
  }

  function DigitChar(d: nat): (c: char)
    requires d < 10
    ensures IsDigit(c) && DigitValue(c) == d
  {
    ('0' as int + d) as char
  }

  /** Value of a string of decimal digits, most significant first (leading zeros allowed). */
  function DecimalValue(s: string): nat
    requires AllDigits(s)
  {
    if s == [] then 0 else DecimalValue(s[..|s| - 1]) * 10 + DigitValue(s[|s| - 1])
  }

  function Pow10(k: nat): nat {
    if k == 0 then 1 else 10 * Pow10(k - 1)
  }

  /** 10^18, the largest power of ten below the 64-bit maximum. */
  lemma Pow10Eighteen()
    ensures Pow10(18) == 1_000_000_000_000_000_000
  {
    assert Pow10(1) == 10;
    assert Pow10(2) == 100;
    assert Pow10(3) == 1000;
    assert Pow10(4) == 10000;
    assert Pow10(5) == 100000;
    assert Pow10(6) == 1000000;
    assert Pow10(7) == 10000000;
    assert Pow10(8) == 100000000;
    assert Pow10(9) == 1000000000;
    assert Pow10(10) == 10000000000;
    assert Pow10(11) == 100000000000;
    assert Pow10(12) == 1000000000000;
    assert Pow10(13) == 10000000000000;
    assert Pow10(14) == 100000000000000;
    assert Pow10(15) == 1000000000000000;
    assert Pow10(16) == 10000000000000000;
    assert Pow10(17) == 100000000000000000;
    assert Pow10(18) == 1000000000000000000;
  }

  lemma {:induction false} Pow10Monotone(j: nat, k: nat)
    requires j <= k
    ensures Pow10(j) <= Pow10(k)
  {
    if j < k {
      Pow10Monotone(j, k - 1);
    }
  }

  /** A string of k digits denotes a value below 10^k. */
  lemma {:induction false} DecimalValueBound(s: string)
    requires AllDigits(s)
    ensures DecimalValue(s) < Pow10(|s|)
  {
    if s != [] {
      DecimalValueBound(s[..|s| - 1]);
    }
  }

  /** Number of bytes of the UTF-8 encoding of `s`: Go measures strings in bytes. */
  function Utf8Length(s: string): (n: nat)
    ensures n >= |s|
  {
    if s == [] then 0
    else
      var u := s[0] as int;
      (if u < 0x80 then 1 else if u < 0x800 then 2 else if u < 0x1_0000 then 3 else 4)
      + Utf8Length(s[1..])
  }

  /** The digits of an optionally signed literal: the text after one leading '+' or '-'. */
  function Unsigned(s: string): string {
    if |s| > 0 && (s[0] == '+' || s[0] == '-') then s[1..] else s
  }

  predicate Negative(s: string) {
    |s| > 0 && s[0] == '-'
  }

  /** An optional sign followed by at least one ASCII decimal digit, and nothing else. */
  predicate IsLiteral(s: string) {
    |Unsigned(s)| > 0 && AllDigits(Unsigned(s))
  }

  function LiteralValue(s: string): int
    requires IsLiteral(s)
  {
    var v: int := DecimalValue(Unsigned(s));
    if Negative(s) then -v else v
  }

  /**
    `strconv.Atoi`: inputs of 1 to 18 bytes take the fast path (sign, then
    digits only, no overflow possible); every other input goes through
    `ParseInt(s, 10, 0)`, which rejects the empty string, non-digits and values
    outside the 64-bit range. Only success and the value are modelled: callers
    in the dumper test `err == nil` and nothing else.
  */
  function Atoi(s: string): (r: Option<int>)
    ensures r.Some? <==> IsLiteral(s) && InIntRange(LiteralValue(s))
    ensures r.Some? ==> r.value == LiteralValue(s)
  {
    if 0 < Utf8Length(s) < 19 then
      var digits := Unsigned(s);
      if |digits| < 1 then None
      else if !AllDigits(digits) then None
      else
        DecimalValueBound(digits);
        Pow10Monotone(|digits|, 18);
        Pow10Eighteen();
        var n: int := DecimalValue(digits);
        Some(if Negative(s) then -n else n)
    else if s == [] then None
    else
      var digits := Unsigned(s);
      if |digits| == 0 || !AllDigits(digits) then None
      else
        var un: int := DecimalValue(digits);
        if !Negative(s) && un > IntMax then None
        else if Negative(s) && un > -IntMin then None
        else Some(if Negative(s) then -un else un)
  }

  /** Decimal digits of `n` without leading zeros; "0" for zero. */
  function NatDigits(n: nat): (s: string)
    ensures |s| >= 1 && AllDigits(s)
    ensures s[0] == '0' ==> n == 0
    decreases n
  {
    if n < 10 then [DigitChar(n)] else NatDigits(n / 10) + [DigitChar(n % 10)]
  }

  lemma {:induction false} NatDigitsValue(n: nat)
    ensures DecimalValue(NatDigits(n)) == n
    decreases n
  {
    if n >= 10 {
      var s := NatDigits(n);
      assert s[..|s| - 1] == NatDigits(n / 10);
      NatDigitsValue(n / 10);
    }
  }

  /** `strconv.Itoa`, and equally `fmt.Sprintf("%d", n)`. */
  function Itoa(n: int): (s: string)
    ensures |s| >= 1
    ensures s[0] == '-' <==> n < 0
    ensures IsDigit(s[0]) <==> n >= 0
    ensures forall i :: 1 <= i < |s| ==> IsDigit(s[i])
  {
    if n < 0 then "-" + NatDigits(-n) else NatDigits(n)
  }

  /** The text `Itoa` produces is an integer literal denoting the same integer. */
  lemma ItoaLiteral(n: int)
    ensures IsLiteral(Itoa(n)) && LiteralValue(Itoa(n)) == n
  {
    var s := Itoa(n);
    if n < 0 {
      assert Unsigned(s) == NatDigits(-n);
      NatDigitsValue(-n);
    } else {
      assert Unsigned(s) == NatDigits(n);
      NatDigitsValue(n);
    }
  }

  /** Round trip: `Atoi(Itoa(n)) == n` for every 64-bit `n`. */
  lemma AtoiItoa(n: int)
    requires InIntRange(n)
    ensures Atoi(Itoa(n)) == Some(n)
  {
    ItoaLiteral(n);
  }

  /** Distinct integers print differently. */
  lemma ItoaInjective(a: int, b: int)
    ensures Itoa(a) == Itoa(b) ==> a == b
  {
    ItoaLiteral(a);
    ItoaLiteral(b);
  }

  /** The integer nearest to `x`, ties going to the even neighbour. */
  function RoundHalfEven(x: real): (n: int)
    ensures n as real - x <= 0.5 && x - n as real <= 0.5
    ensures (n as real - x == 0.5 || x - n as real == 0.5) ==> n % 2 == 0
  {
    var f := x.Floor;
    var frac := x - f as real;
    if frac < 0.5 then f
    else if frac > 0.5 then f + 1
    else if f % 2 == 0 then f
    else f + 1
  }

  /**
    `fmt.Sprintf("%.0f", x)` for the exact value `x`: the magnitude rounded half
    to even, with a '-' in front of every negative value (Go prints "-0" for -0.3).
  */
  function FormatFixed0(x: real): (s: string)
    ensures |s| >= 1
    ensures s[0] == '-' <==> x < 0.0
  {
    if x < 0.0 then "-" + NatDigits(RoundHalfEven(-x)) else NatDigits(RoundHalfEven(x))
  }

  /** The text `%.0f` produces parses back to an integer within one half of `x`. */
  lemma FormatFixed0Parses(x: real)
    requires -(IntMax as real) <= x <= IntMax as real
    ensures Atoi(FormatFixed0(x)).Some?
    ensures var v := Atoi(FormatFixed0(x)).value; v as real - x <= 0.5 && x - v as real <= 0.5
  {
    var s := FormatFixed0(x);
    if x < 0.0 {
      var m := RoundHalfEven(-x);
      assert Unsigned(s) == NatDigits(m);
      NatDigitsValue(m);
    } else {
      var m := RoundHalfEven(x);
      assert Unsigned(s) == NatDigits(m);
      NatDigitsValue(m);
    }
  }
}
