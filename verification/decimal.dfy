/**
 Decimal rendering of non-negative integers, as Rust's `to_string` renders a
 `usize`: the shortest string of ASCII digits, most significant first, with no
 sign and no leading zero (zero itself is "0").
 */
module Decimal {

  predicate IsDigit(c: char)
  {
    '0' <= c <= '9'
  }

  predicate AllDigits(s: string)
  {
    forall i :: 0 <= i < |s| ==> IsDigit(s[i])
  }

  /** The strings `NatToDecimal` can produce: non-empty digits, no leading zero. */
  predicate Canonical(s: string)
  {
    |s| >= 1 && AllDigits(s) && (|s| > 1 ==> s[0] != '0')
  }

  function DigitValue(c: char): (d: nat)
    requires IsDigit(c)
    ensures d < 10
  {
    c as int - '0' as int
  }

  function DigitChar(d: nat): (c: char)
    requires d < 10
    ensures IsDigit(c)
    ensures DigitValue(c) == d
  {
    ('0' as int + d) as char
  }

  lemma DigitCharOfValue(c: char)
    requires IsDigit(c)
    ensures DigitChar(DigitValue(c)) == c
  {
  }

  /** Renders `n` in base ten. */
  function NatToDecimal(n: nat): (s: string)
    ensures Canonical(s)
    ensures s[0] == '0' <==> n == 0
    ensures |s| == 1 <==> n < 10
    decreases n
  {
    if n < 10 then [DigitChar(n)]
    else NatToDecimal(n / 10) + [DigitChar(n % 10)]
  }

  /** Reads a string of digits as a base-ten number (the reference inverse). */
  function DecimalToNat(s: string): nat
    requires AllDigits(s)
    decreases |s|
  {
    if |s| == 0 then 0
    else DecimalToNat(s[..|s| - 1]) * 10 + DigitValue(s[|s| - 1])
  }

  /** Parsing a rendering gives back the number. */
  lemma {:induction false} ParseOfRender(n: nat)
    ensures DecimalToNat(NatToDecimal(n)) == n
    decreases n
  {
    var s := NatToDecimal(n);
    if n < 10 {
      assert s[..|s| - 1] == [];
    } else {
      ParseOfRender(n / 10);
      assert s[..|s| - 1] == NatToDecimal(n / 10);
    }
  }

  /** Rendering a canonical digit string's value gives back the string. */
  lemma {:induction false} RenderOfParse(s: string)
    requires Canonical(s)
    ensures NatToDecimal(DecimalToNat(s)) == s
    decreases |s|
  {
    var last := s[|s| - 1];
    var prefix := s[..|s| - 1];
    DigitCharOfValue(last);
    if |s| == 1 {
      assert prefix == [];
      assert s == [last];
    } else {
      assert prefix[0] == s[0];
      RenderOfParse(prefix);
      var p := DecimalToNat(prefix);
      assert p != 0 by {
        assert NatToDecimal(p)[0] != '0';
      }
      var v := p * 10 + DigitValue(last);
      assert v / 10 == p && v % 10 == DigitValue(last);
      assert s == prefix + [last];
    }
  }

  /** Distinct numbers have distinct renderings. */
  lemma NatToDecimalInjective(a: nat, b: nat)
    ensures NatToDecimal(a) == NatToDecimal(b) <==> a == b
  {
    ParseOfRender(a);
    ParseOfRender(b);
  }
}
