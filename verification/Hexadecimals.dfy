/** Hexadecimal numerals of a fixed width, as handles show them. */
module Hexadecimals {
  import opened Arithmetic

  function HexDigit(d: nat): char
    requires d < 16
  {
    "0123456789abcdef"[d]
  }

  /** The last `width` hexadecimal digits of a number. */
  function Hex(n: nat, width: nat): (s: string)
    ensures |s| == width
  {
    if width == 0 then "" else Hex(n / 16, width - 1) + [HexDigit(n % 16)]
  }

  function Pow16(width: nat): nat {
    if width == 0 then 1 else 16 * Pow16(width - 1)
  }

  lemma HexDigitsDiffer(c: nat, d: nat)
    requires c < 16 && d < 16
    ensures HexDigit(c) == HexDigit(d) ==> c == d
  {
  }

  lemma {:induction false} HexInjective(m: nat, n: nat, width: nat)
    requires m < Pow16(width) && n < Pow16(width) && Hex(m, width) == Hex(n, width)
    ensures m == n
  {
    if width > 0 {
      var a, b := Hex(m, width), Hex(n, width);
      HexDigitsDiffer(m % 16, n % 16);
      hide HexDigit;
      assert a[|a| - 1] == HexDigit(m % 16) && b[|b| - 1] == HexDigit(n % 16);
      assert a[..|a| - 1] == Hex(m / 16, width - 1) && b[..|b| - 1] == Hex(n / 16, width - 1);
      HexInjective(m / 16, n / 16, width - 1);
    }
  }

  lemma {:induction false} Pow16At16()
    ensures Pow16(8) == TWO_32 && Pow16(16) == TWO_64
  {
    assert Pow16(4) == 0x1_0000;
    assert Pow16(8) == 0x1_0000_0000;
    assert Pow16(12) == 0x1_0000_0000_0000;
  }

  /** What a hexadecimal digit stands for. */
  function DigitOf(c: char): int {
    if '0' <= c <= '9' then c as int - '0' as int
    else if 'a' <= c <= 'f' then c as int - 'a' as int + 10
    else -1
  }

  function ValueOf(s: string): int {
    if s == "" then 0 else ValueOf(s[..|s| - 1]) * 16 + DigitOf(s[|s| - 1])
  }

  lemma DigitRead(d: nat)
    requires d < 16
    ensures DigitOf(HexDigit(d)) == d
  {
  }

  /** A numeral stands for the number it shows, most significant digit first, if it is wide enough. */
  lemma {:induction false} HexValue(n: nat, width: nat)
    requires n < Pow16(width)
    ensures ValueOf(Hex(n, width)) == n
    ensures forall i | 0 <= i < width :: 0 <= DigitOf(Hex(n, width)[i]) < 16
  {
    if width > 0 {
      var s := Hex(n, width);
      assert s[..width - 1] == Hex(n / 16, width - 1) && s[width - 1] == HexDigit(n % 16);
      DigitRead(n % 16);
      HexValue(n / 16, width - 1);
      hide HexDigit, DigitOf;
    }
  }
}
