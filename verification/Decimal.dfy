/**
 Decimal text of machine integers, as Rust's `Display` prints them and
 `str::parse` reads them. Storage keys and CDR columns are built from it.
 */
module Decimal {
  import opened Wrappers

  const U64_BOUND: nat := 0x1_0000_0000_0000_0000
  const U32_BOUND: nat := 0x1_0000_0000

  predicate IsDigit(c: char) {
    '0' <= c <= '9'
  }

  predicate AllDigits(s: string) {
    forall i | 0 <= i < |s| :: IsDigit(s[i])
  }

  function DigitOf(d: nat): char
    requires d < 10
  {
    ('0' as int + d) as char
  }

  /** Decimal text, no leading zeros. */
  function Print(n: nat): (s: string)
    ensures |s| > 0 && AllDigits(s)
  {
    if n < 10 then [DigitOf(n)] else Print(n / 10) + [DigitOf(n % 10)]
  }

  /** Signed decimal text, as for `i64`. */
  function PrintInt(n: int): (s: string)
    ensures |s| > 0
  {
    if n < 0 then "-" + Print(-n) else Print(n)
  }

  function ValueOf(s: string): nat
    requires AllDigits(s)
  {
    if s == [] then 0
    else 10 * ValueOf(s[..|s| - 1]) + (s[|s| - 1] as int - '0' as int)
  }

  /** `str::parse` for an unsigned type below `bound`: an optional '+', then at least one digit. */
  function ParseUnsigned(s: string, bound: nat): Option<nat> {
    var digits := if |s| > 0 && s[0] == '+' then s[1..] else s;
    if digits == [] || !AllDigits(digits) || ValueOf(digits) >= bound then None
    else Some(ValueOf(digits))
  }

  lemma {:induction false} ValueOfPrint(n: nat)
    ensures ValueOf(Print(n)) == n
  {
    if n >= 10 {
      ValueOfPrint(n / 10);
      assert Print(n)[..|Print(n)| - 1] == Print(n / 10);
    }
  }

  /** Printing then parsing gives the number back, for every number the type can hold. */
  lemma ParsePrint(n: nat, bound: nat)
    requires n < bound
    ensures ParseUnsigned(Print(n), bound) == Some(n)
  {
    ValueOfPrint(n);
    assert IsDigit(Print(n)[0]);
  }

  lemma PrintInjective(a: nat, b: nat)
    requires Print(a) == Print(b)
    ensures a == b
  {
    ValueOfPrint(a);
    ValueOfPrint(b);
  }

  lemma PrintIntSign(n: int)
    ensures PrintInt(n)[0] == '-' <==> n < 0
  {
    assert n >= 0 ==> IsDigit(Print(n)[0]);
  }

  lemma PrintIntInjective(a: int, b: int)
    requires PrintInt(a) == PrintInt(b)
    ensures a == b
  {
    PrintIntSign(a);
    PrintIntSign(b);
    if a < 0 {
      assert PrintInt(a)[1..] == Print(-a) && PrintInt(b)[1..] == Print(-b);
      PrintInjective(-a, -b);
    } else {
      PrintInjective(a, b);
    }
  }

  // -------------------------------------------------------------------------
  // What parses
  // -------------------------------------------------------------------------

  function Zeros(k: nat): string {
    seq(k, _ => '0')
  }

  lemma {:induction false} DigitsSplit(d: string) returns (k: nat)
    requires d != "" && AllDigits(d)
    ensures d == Zeros(k) + Print(ValueOf(d))
  {
    var rest, last := d[..|d| - 1], d[|d| - 1];
    assert d == rest + [last];
    var digit: nat := last as int - '0' as int;
    assert last == DigitOf(digit);
    if rest == "" {
      assert ValueOf(rest) == 0;
      k := 0;
      assert Zeros(0) == "";
    } else {
      k := DigitsSplit(rest);
      var v := ValueOf(rest);
      if v == 0 {
        assert Print(0) == "0";
        assert Zeros(k) + "0" == Zeros(k + 1);
        k := k + 1;
      } else {
        assert Print(10 * v + digit) == Print(v) + [last];
      }
    }
  }

  lemma ValueSnoc(s: string, c: char)
    requires AllDigits(s) && IsDigit(c)
    ensures AllDigits(s + [c]) && ValueOf(s + [c]) == 10 * ValueOf(s) + (c as int - '0' as int)
  {
    assert (s + [c])[..|s|] == s;
  }

  lemma {:induction false} ZerosAreWorthNothing(k: nat)
    ensures AllDigits(Zeros(k)) && ValueOf(Zeros(k)) == 0
  {
    if k > 0 {
      ZerosAreWorthNothing(k - 1);
      ValueSnoc(Zeros(k - 1), '0');
      assert Zeros(k) == Zeros(k - 1) + ['0'];
    }
  }

  lemma {:induction false} PaddedValue(k: nat, n: nat)
    ensures AllDigits(Zeros(k) + Print(n)) && ValueOf(Zeros(k) + Print(n)) == n
  {
    ZerosAreWorthNothing(k);
    if n < 10 {
      ValueSnoc(Zeros(k), DigitOf(n));
    } else {
      PaddedValue(k, n / 10);
      ValueSnoc(Zeros(k) + Print(n / 10), DigitOf(n % 10));
      assert Zeros(k) + Print(n) == Zeros(k) + Print(n / 10) + [DigitOf(n % 10)];
    }
  }

  /** A text parses as a number below the bound exactly if it is that number printed, after any zeros and at most one plus. */
  lemma ParsesIff(s: string, bound: nat, n: nat)
    ensures ParseUnsigned(s, bound) == Some(n) <==>
            n < bound && exists k: nat :: s == Zeros(k) + Print(n) || s == "+" + (Zeros(k) + Print(n))
  {
    if ParseUnsigned(s, bound) == Some(n) {
      var digits := if |s| > 0 && s[0] == '+' then s[1..] else s;
      var k := DigitsSplit(digits);
      assert s == digits || s == "+" + digits;
    }
    forall k: nat | n < bound && (s == Zeros(k) + Print(n) || s == "+" + (Zeros(k) + Print(n)))
      ensures ParseUnsigned(s, bound) == Some(n)
    {
      PaddedValue(k, n);
      var text := Zeros(k) + Print(n);
      assert IsDigit(text[0]);
      if s != text {
        assert s[1..] == text;
      }
    }
  }
}
