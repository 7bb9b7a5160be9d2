/** Canonical decimal numerals and the strict unsigned 32-bit parser. */
module Decimals {
  import opened Wrappers

  const U32_MAX: nat := 4_294_967_295

  predicate IsDigit(c: char) {
    '0' <= c <= '9'
  }

  function DigitValue(c: char): nat
    requires IsDigit(c)
  {
    (c as int) - ('0' as int)
  }

  function DigitChar(d: nat): char
    requires d < 10
  {
    (('0' as int) + d) as char
  }

  /** The numeral the formatter prints: no sign, no leading zero. */
  function Decimal(n: nat): (s: string)
    ensures s != "" && (forall i | 0 <= i < |s| :: IsDigit(s[i]))
    ensures n > 0 ==> s[0] != '0'
    ensures n == 0 ==> s == "0"
  {
    if n < 10 then [DigitChar(n)] else Decimal(n / 10) + [DigitChar(n % 10)]
  }

  /** The checked parser of the standard library, on digits only. */
  function ParseU32(s: string): Option<nat>
    requires forall i | 0 <= i < |s| :: IsDigit(s[i])
  {
    if s == "" then Some(0)
    else
      var before := ParseU32(s[..|s| - 1]);
      if before.None? || before.value * 10 > U32_MAX then None
      else
        var n := before.value * 10 + DigitValue(s[|s| - 1]);
        if n > U32_MAX then None else Some(n)
  }

  /** `parse_decimal_u32`. */
  function ParseDecimalU32(s: string): Option<nat> {
    if s == "" then None
    else if s[0] == '+' || s[0] == '-' then None
    else if |s| > 1 && s[0] == '0' then None
    else if exists i | 0 <= i < |s| :: !IsDigit(s[i]) then None
    else ParseU32(s)
  }

  lemma {:induction false} ParseOfDecimal(n: nat)
    ensures ParseU32(Decimal(n)) == if n <= U32_MAX then Some(n) else None
  {
    if n < 10 {
      assert Decimal(n)[..0] == "";
    } else {
      ParseOfDecimal(n / 10);
      assert Decimal(n)[..|Decimal(n)| - 1] == Decimal(n / 10);
      assert n / 10 * 10 + n % 10 == n;
    }
  }

  lemma {:induction false} DecimalOfParse(s: string)
    requires s != "" && (forall i | 0 <= i < |s| :: IsDigit(s[i])) && (|s| > 1 ==> s[0] != '0')
    ensures ParseU32(s).Some? ==> s == Decimal(ParseU32(s).value) && ParseU32(s).value <= U32_MAX
  {
    if |s| == 1 {
      assert s[..0] == "";
      assert s == [DigitChar(DigitValue(s[0]))];
    } else {
      var before := s[..|s| - 1];
      DecimalOfParse(before);
      if ParseU32(s).Some? {
        var n := ParseU32(before).value;
        assert before[0] == s[0] != '0';
        assert n > 0;
        assert (n * 10 + DigitValue(s[|s| - 1])) / 10 == n;
        assert s == before + [s[|s| - 1]];
      }
    }
  }

  /** The parser accepts exactly the canonical numerals of the 32-bit range, each with
    its own value. */
  lemma ParsesExactlyDecimals(s: string, n: nat)
    ensures ParseDecimalU32(s) == Some(n) <==> (n <= U32_MAX && s == Decimal(n))
  {
    if ParseDecimalU32(s) == Some(n) {
      DecimalOfParse(s);
    }
    if n <= U32_MAX && s == Decimal(n) {
      ParseOfDecimal(n);
    }
  }

  lemma {:induction false} DecimalInjective(m: nat, n: nat)
    requires Decimal(m) == Decimal(n)
    ensures m == n
  {
    assert |Decimal(m)| == 1 <==> m < 10;
    assert |Decimal(n)| == 1 <==> n < 10;
    if m >= 10 && n >= 10 {
      assert Decimal(m)[..|Decimal(m)| - 1] == Decimal(m / 10);
      assert Decimal(n)[..|Decimal(n)| - 1] == Decimal(n / 10);
      DecimalInjective(m / 10, n / 10);
      assert Decimal(m)[|Decimal(m)| - 1] == DigitChar(m % 10);
      assert Decimal(n)[|Decimal(n)| - 1] == DigitChar(n % 10);
    }
  }

  function Pow10(k: nat): nat {
    if k == 0 then 1 else 10 * Pow10(k - 1)
  }

  lemma {:induction false} DecimalLength(n: nat, k: nat)
    requires k > 0 && n < Pow10(k)
    ensures |Decimal(n)| <= k
  {
    if n >= 10 {
      assert k > 1;
      DecimalLength(n / 10, k - 1);
    }
  }

  lemma U32Length(n: nat)
    requires n <= U32_MAX
    ensures |Decimal(n)| <= 10
  {
    assert Pow10(5) == 100_000;
    assert Pow10(10) == 10_000_000_000;
    DecimalLength(n, 10);
  }

  /** What a row of digits stands for in base ten. */
  function Value(s: string): nat
    requires forall i | 0 <= i < |s| :: '0' <= s[i] <= '9'
  {
    if s == "" then 0 else 10 * Value(s[..|s| - 1]) + (s[|s| - 1] as int - '0' as int)
  }

  /** A numeral stands for its number. */
  lemma {:induction false} DecimalMeans(n: nat)
    ensures (forall i | 0 <= i < |Decimal(n)| :: '0' <= Decimal(n)[i] <= '9') && Value(Decimal(n)) == n
  {
    if n < 10 {
      assert Decimal(n)[..0] == "";
    } else {
      DecimalMeans(n / 10);
      assert Decimal(n)[..|Decimal(n)| - 1] == Decimal(n / 10);
    }
  }
}
