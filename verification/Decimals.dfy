/** Decimal numerals: how integers are formatted, and how a text is read as an integer of a limited range. */
module Decimals {
  import opened Options

  function Digit(d: nat): char
    requires d < 10
  {
    "0123456789"[d]
  }

  function DecimalNat(n: nat): string {
    if n < 10 then [Digit(n)] else DecimalNat(n / 10) + [Digit(n % 10)]
  }

  function Decimal(n: int): string {
    if n < 0 then "-" + DecimalNat(-n) else DecimalNat(n)
  }

  /** Numbers are shown in the usual way: most significant digit first, a minus sign before negative ones. */
  lemma DecimalShows(n: int)
    ensures 0 <= n < 10 ==> Decimal(n) == [('0' as int + n) as char]
    ensures n >= 10 ==> Decimal(n) == Decimal(n / 10) + [('0' as int + n % 10) as char]
    ensures n < 0 ==> Decimal(n) == "-" + Decimal(-n)
  {
  }

  lemma {:induction false} DecimalNatInjective(m: nat, n: nat)
    requires DecimalNat(m) == DecimalNat(n)
    ensures m == n
  {
    var a, b := DecimalNat(m), DecimalNat(n);
    assert a[|a| - 1] == Digit(m % 10) && b[|b| - 1] == Digit(n % 10);
    if m >= 10 && n >= 10 {
      assert a[..|a| - 1] == DecimalNat(m / 10) && b[..|b| - 1] == DecimalNat(n / 10);
      DecimalNatInjective(m / 10, n / 10);
    } else {
      DecimalNatNonEmpty(m / 10);
      DecimalNatNonEmpty(n / 10);
    }
  }

  lemma {:induction false} DecimalNatNonEmpty(n: nat)
    ensures DecimalNat(n) != [] && forall i | 0 <= i < |DecimalNat(n)| :: DecimalNat(n)[i] != '-'
    decreases n
  {
    if n >= 10 {
      DecimalNatNonEmpty(n / 10);
    }
  }

  lemma SignFirst(n: int)
    ensures Decimal(n) != [] && (Decimal(n)[0] == '-' <==> n < 0)
  {
    DecimalNatNonEmpty(if n < 0 then -n else n);
  }

  lemma DecimalInjective(m: int, n: int)
    requires Decimal(m) == Decimal(n)
    ensures m == n
  {
    SignFirst(m);
    SignFirst(n);
    if m < 0 {
      assert Decimal(m)[1..] == DecimalNat(-m) && Decimal(n)[1..] == DecimalNat(-n);
      DecimalNatInjective(-m, -n);
    } else {
      DecimalNatInjective(m, n);
    }
  }

  // ---- reading ----

  function DigitValue(c: char): Option<nat> {
    if '0' <= c <= '9' then Some(c as int - '0' as int) else None
  }

  /** A text of digits only, at least one. */
  function ParseNat(s: string): Option<nat> {
    if s == "" then None
    else
      var last := DigitValue(s[|s| - 1]);
      if last.None? then None
      else if |s| == 1 then last
      else
        var rest := ParseNat(s[..|s| - 1]);
        if rest.None? then None else Some(rest.value * 10 + last.value)
  }

  /** An optional sign and digits, within the range. */
  function ParseInt(s: string, low: int, high: int): Option<int> {
    var negative := s != "" && s[0] == '-';
    var digits := if s != "" && (s[0] == '-' || s[0] == '+') then s[1..] else s;
    var n := ParseNat(digits);
    if n.None? then None
    else
      var value: int := if negative then -(n.value as int) else n.value;
      if low <= value <= high then Some(value) else None
  }

  lemma DigitReads(d: nat)
    requires d < 10
    ensures DigitValue(Digit(d)) == Some(d)
  {
  }

  lemma {:induction false} ParseDecimalNat(n: nat)
    ensures ParseNat(DecimalNat(n)) == Some(n)
  {
    var s := DecimalNat(n);
    DigitReads(n % 10);
    if n >= 10 {
      ParseDecimalNat(n / 10);
      DecimalNatNonEmpty(n / 10);
      assert s[..|s| - 1] == DecimalNat(n / 10);
    }
  }

  lemma {:induction false} DecimalNatDigits(n: nat)
    ensures forall i | 0 <= i < |DecimalNat(n)| :: '0' <= DecimalNat(n)[i] <= '9'
  {
    if n >= 10 {
      DecimalNatDigits(n / 10);
    }
    DigitReads(n % 10);
  }

  lemma {:induction false} ParseDecimal(n: int, low: int, high: int)
    ensures ParseInt(Decimal(n), low, high) == if low <= n <= high then Some(n) else None
    ensures n >= 0 ==> ParseInt("+" + Decimal(n), low, high) == if low <= n <= high then Some(n) else None
  {
    var m := if n < 0 then -n else n;
    ParseDecimalNat(m);
    DecimalNatNonEmpty(m);
    DecimalNatDigits(m);
    ParseSigned(DecimalNat(m), m, low, high);
  }

  /** Digits are read as they stand, and after a minus sign as the negative number. */
  lemma {:induction false} ParseSigned(digits: string, m: int, low: int, high: int)
    requires m >= 0 && digits != [] && digits[0] != '-' && digits[0] != '+' && ParseNat(digits) == Some(m)
    ensures ParseInt(digits, low, high) == if low <= m <= high then Some(m) else None
    ensures ParseInt("-" + digits, low, high) == if low <= -m <= high then Some(-m) else None
    ensures ParseInt("+" + digits, low, high) == if low <= m <= high then Some(m) else None
  {
    hide ParseNat;
    assert ("-" + digits)[1..] == digits && ("+" + digits)[1..] == digits;
  }

  lemma {:induction false} NotANumeral(s: string, low: int, high: int)
    requires s != "" && DigitValue(s[0]).None? && s[0] != '-' && s[0] != '+'
    ensures ParseInt(s, low, high).None?
  {
    NotDigits(s);
  }

  lemma {:induction false} NotDigits(s: string)
    requires s != "" && DigitValue(s[0]).None?
    ensures ParseNat(s).None?
  {
    if |s| > 1 {
      NotDigits(s[..|s| - 1]);
    }
  }
}
