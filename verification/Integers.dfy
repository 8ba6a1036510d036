// Bounds of the machine integers, and decimal text of 64-bit ones as strconv.FormatInt and
// strconv.ParseInt write and read it.
module Integers {
  import opened Wrappers

  const MIN_INT64: int := -0x8000_0000_0000_0000
  const MAX_INT64: int := 0x7fff_ffff_ffff_ffff
  const TWO_32: int := 0x1_0000_0000

  predicate IsInt64(n: int) {
    MIN_INT64 <= n <= MAX_INT64
  }

  predicate IsDigit(c: char) {
    '0' <= c <= '9'
  }

  function DigitChar(d: nat): char
    requires d < 10
  {
    ('0' as int + d) as char
  }

  function FormatNat(n: nat): string {
    if n < 10 then [DigitChar(n)] else FormatNat(n / 10) + [DigitChar(n % 10)]
  }

  function FormatInt(n: int): string {
    if n < 0 then "-" + FormatNat(-n) else FormatNat(n)
  }

  function ParseDigits(s: string): Option<nat> {
    if s == "" then Some(0)
    else
      var c := s[|s| - 1];
      match ParseDigits(s[..|s| - 1])
      case None => None
      case Some(n) => if IsDigit(c) then Some(10 * n + (c as int - '0' as int)) else None
  }

  // One optional sign, at least one digit, and a value that fits 64 bits.
  function ParseInt(s: string): Option<int> {
    var negative := s != "" && s[0] == '-';
    var digits := if s != "" && s[0] in {'+', '-'} then s[1..] else s;
    if digits == "" then None
    else
      match ParseDigits(digits)
      case None => None
      case Some(n) =>
        var magnitude: int := n;
        var value := if negative then -magnitude else magnitude;
        if IsInt64(value) then Some(value) else None
  }

  lemma {:induction false} ParseFormatNat(n: nat)
    ensures ParseDigits(FormatNat(n)) == Some(n)
    ensures FormatNat(n) != "" && IsDigit(FormatNat(n)[0])
  {
    if n >= 10 {
      ParseFormatNat(n / 10);
      var s := FormatNat(n / 10) + [DigitChar(n % 10)];
      assert s[..|s| - 1] == FormatNat(n / 10);
    } else {
      assert [DigitChar(n)][..0] == "";
    }
  }

  // Reading back what was written gives the number exactly when it fits 64 bits.
  lemma ParseFormatInt(n: int)
    ensures ParseInt(FormatInt(n)) == if IsInt64(n) then Some(n) else None
  {
    ParseFormatNat(if n < 0 then -n else n);
    if n < 0 {
      assert FormatInt(n)[1..] == FormatNat(-n);
    }
  }

  // ---- what the digits mean ------------------------------------------------------------------

  function Power(k: nat): (p: nat)
    ensures p > 0
  {
    if k == 0 then 1 else 10 * Power(k - 1)
  }

  predicate AllDigits(s: string) {
    forall i :: 0 <= i < |s| ==> '0' <= s[i] <= '9'
  }

  // The value of a decimal numeral, the first digit weighing most.
  function Weighed(s: string): nat
    requires AllDigits(s)
  {
    if s == "" then 0 else (s[0] as int - '0' as int) * Power(|s| - 1) + Weighed(s[1..])
  }

  lemma TimesTen(d: nat, p: nat)
    ensures d * (10 * p) == 10 * (d * p)
  {
  }

  lemma {:induction false} WeighedSnoc(s: string, c: char)
    requires AllDigits(s) && '0' <= c <= '9'
    ensures AllDigits(s + [c]) && Weighed(s + [c]) == 10 * Weighed(s) + (c as int - '0' as int)
  {
    if s == "" {
      assert s + [c] == [c] && [c][1..] == "";
    } else {
      WeighedSnoc(s[1..], c);
      assert (s + [c])[1..] == s[1..] + [c];
      TimesTen(s[0] as int - '0' as int, Power(|s| - 1));
    }
  }

  // A natural number is written as its decimal numeral, without leading zeros.
  lemma {:induction false} NatIsDecimal(n: nat)
    ensures var s := FormatNat(n);
      s != "" && AllDigits(s) && Weighed(s) == n && (s[0] == '0' ==> s == "0")
  {
    if n < 10 {
      WeighedSnoc("", DigitChar(n));
      assert "" + [DigitChar(n)] == [DigitChar(n)];
    } else {
      NatIsDecimal(n / 10);
      WeighedSnoc(FormatNat(n / 10), DigitChar(n % 10));
    }
  }

  // An integer is written as its decimal numeral, with a minus sign in front when it is negative.
  lemma IntIsDecimal(n: int)
    ensures var s := FormatInt(n);
      if n < 0 then s != "" && s[0] == '-' && AllDigits(s[1..]) && Weighed(s[1..]) == -n && s[1..] != ""
      else s != "" && AllDigits(s) && Weighed(s) == n
  {
    NatIsDecimal(if n < 0 then -n else n);
    if n < 0 {
      assert FormatInt(n)[1..] == FormatNat(-n);
    }
  }

  lemma {:induction false} DigitsExactly(s: string)
    ensures ParseDigits(s) == if AllDigits(s) then Some(Weighed(s)) else None
  {
    if s != "" {
      var init, c := s[..|s| - 1], s[|s| - 1];
      DigitsExactly(init);
      assert s == init + [c];
      if AllDigits(s) {
        WeighedSnoc(init, c);
      }
    }
  }

  predicate IsNumeral(s: string, n: int) {
    s != "" && AllDigits(s) && Weighed(s) == n
  }

  // A text is read as an integer exactly when it is its decimal numeral, leading zeros allowed, behind
  // an optional sign, and the integer fits 64 bits; no other text is read.
  lemma ParseExactly(s: string, n: int)
    ensures ParseInt(s) == Some(n) <==>
      && IsInt64(n)
      && (|| IsNumeral(s, n)
          || (s != "" && s[0] == '+' && IsNumeral(s[1..], n))
          || (s != "" && s[0] == '-' && IsNumeral(s[1..], -n)))
  {
    DigitsExactly(s);
    if s != "" {
      DigitsExactly(s[1..]);
    }
  }
}
