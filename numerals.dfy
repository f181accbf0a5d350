/**
 * Rendering of integers in bases 2 to 16, as Ruby's `Integer#to_s(base)`
 * and the runtime's `{}` formatting of sizes produce them: lower-case
 * digits, no leading zeros, a leading `-` for negative numbers.  The
 * parser is the inverse used to show that a rendering loses nothing.
 */
module Numerals {

  predicate IsDecimalDigit(c: char) {
    '0' <= c <= '9'
  }

  function DigitChar(d: nat): (c: char)
    requires d < 16
  {
    if d < 10 then ('0' as int + d) as char else ('a' as int + d - 10) as char
  }

  /** The value of a digit character; 0 for anything that is not a digit. */
  function DigitValue(c: char): nat {
    if '0' <= c <= '9' then c as int - '0' as int
    else if 'a' <= c <= 'f' then c as int - 'a' as int + 10
    else 0
  }

  predicate IsDigitIn(c: char, base: nat) {
    ('0' <= c <= '9' || 'a' <= c <= 'f') && DigitValue(c) < base
  }

  lemma DigitCharValue(d: nat, base: nat)
    requires d < base <= 16
    ensures DigitValue(DigitChar(d)) == d && IsDigitIn(DigitChar(d), base)
  {
  }

  lemma DivStep(n: nat, base: nat)
    requires 2 <= base <= n
    ensures 1 <= n / base < n && (n / base) * base + n % base == n
  {
    var q, r := n / base, n % base;
    assert n == q * base + r && 0 <= r < base;
    assert q * base >= q * 2 by {
      assert q * base == q * 2 + q * (base - 2);
    }
  }

  /** The digits of `n` in `base`, most significant first. */
  function NatToString(n: nat, base: nat): (s: string)
    requires 2 <= base <= 16
    ensures |s| > 0
    ensures forall i :: 0 <= i < |s| ==> IsDigitIn(s[i], base)
    ensures |s| > 1 ==> s[0] != '0'
    decreases n
  {
    DigitCharValue(n % base, base);
    if n < base then [DigitChar(n)]
    else
      DivStep(n, base);
      NatToString(n / base, base) + [DigitChar(n % base)]
  }

  /** Left-to-right accumulation `value * base + digit`. */
  function ParseNat(s: string, base: nat): nat {
    if s == [] then 0 else ParseNat(s[..|s| - 1], base) * base + DigitValue(s[|s| - 1])
  }

  lemma {:induction false} ParseNatToString(n: nat, base: nat)
    requires 2 <= base <= 16
    ensures ParseNat(NatToString(n, base), base) == n
    decreases n
  {
    var s := NatToString(n, base);
    DigitCharValue(n % base, base);
    if n < base {
      assert s[..0] == [];
    } else {
      DivStep(n, base);
      ParseNatToString(n / base, base);
      assert s[..|s| - 1] == NatToString(n / base, base);
    }
  }

  function IntToString(i: int, base: nat): (s: string)
    requires 2 <= base <= 16
  {
    if i < 0 then "-" + NatToString(-i, base) else NatToString(i, base)
  }

  function ParseInt(s: string, base: nat): int {
    if |s| > 0 && s[0] == '-' then -(ParseNat(s[1..], base) as int) else ParseNat(s, base)
  }

  /** Rendering loses nothing: parsing the rendering gives the number back. */
  lemma IntToStringRoundTrip(i: int, base: nat)
    requires 2 <= base <= 16
    ensures ParseInt(IntToString(i, base), base) == i
  {
    if i < 0 {
      ParseNatToString(-i, base);
      assert IntToString(i, base)[1..] == NatToString(-i, base);
    } else {
      ParseNatToString(i, base);
      DigitCharValue(0, base);
    }
  }

  /** Distinct numbers have distinct renderings. */
  lemma IntToStringInjective(i: int, j: int, base: nat)
    requires 2 <= base <= 16
    ensures IntToString(i, base) == IntToString(j, base) ==> i == j
  {
    IntToStringRoundTrip(i, base);
    IntToStringRoundTrip(j, base);
  }
}
