/**
 Unsigned decimal text: how a GTID's fields are written (`%d`) and read back
 (an unsigned parse of a base-10 field of a given bit width).
 */
module Decimal {
  import opened Wrappers
  import opened ByteStrings

  predicate IsDigit(c: Byte)
  {
    '0' <= c <= '9'
  }

  predicate AllDigits(s: Bytes)
  {
    forall i | 0 <= i < |s| :: IsDigit(s[i])
  }

  /** The shortest spelling of a number: non-empty digits without a leading zero (except "0" itself). */
  predicate Canonical(s: Bytes)
  {
    |s| > 0 && AllDigits(s) && (|s| == 1 || s[0] != '0')
  }

  function DigitChar(d: nat): (c: Byte)
    requires d < 10
    ensures IsDigit(c)
  {
    ('0' as int + d) as char
  }

  function DigitValue(c: Byte): (d: nat)
    requires IsDigit(c)
    ensures d < 10 && DigitChar(d) == c
  {
    (c as int) - ('0' as int)
  }

  /** The number a string of digits denotes (the empty string denotes 0). */
  function Value(s: Bytes): nat
    requires AllDigits(s)
  {
    if |s| == 0 then 0 else Value(s[..|s| - 1]) * 10 + DigitValue(s[|s| - 1])
  }

  /** `%d` of an unsigned integer. */
  function Format(n: nat): (r: Bytes)
    ensures Canonical(r)
    ensures r[0] == '0' <==> n == 0
  {
    if n < 10 then [DigitChar(n)] else Format(n / 10) + [DigitChar(n % 10)]
  }

  /**
   An unsigned base-10 parse with an exclusive upper bound (2 to the bit width): accepts a
   non-empty run of digits, leading zeros included, whose value is below the bound; refuses
   the empty string, signs, any other byte, and values that overflow.
   */
  function ParseUint(s: Bytes, bound: nat): Option<nat>
  {
    if |s| > 0 && AllDigits(s) && Value(s) < bound then Some(Value(s)) else None
  }

  /** Formatting then reading a number gives the number back. */
  lemma {:induction false} ValueFormat(n: nat)
    ensures Value(Format(n)) == n
  {
    if n >= 10 {
      ValueFormat(n / 10);
      var s := Format(n);
      assert s[..|s| - 1] == Format(n / 10);
    }
  }

  lemma {:induction false} ValuePositive(s: Bytes)
    requires |s| > 0 && AllDigits(s) && s[0] != '0'
    ensures Value(s) > 0
  {
    if |s| > 1 {
      ValuePositive(s[..|s| - 1]);
    }
  }

  /** Reading a canonical spelling then formatting the value gives the spelling back. */
  lemma {:induction false} FormatValue(s: Bytes)
    requires Canonical(s)
    ensures Format(Value(s)) == s
  {
    if |s| > 1 {
      var p := s[..|s| - 1];
      assert Canonical(p);
      ValuePositive(p);
      FormatValue(p);
      assert s == p + [s[|s| - 1]];
    }
  }

  /** The unsigned parse accepts exactly what `%d` wrote, for every value in range. */
  lemma ParseFormat(n: nat, bound: nat)
    requires n < bound
    ensures ParseUint(Format(n), bound) == Some(n)
  {
    ValueFormat(n);
  }
}
