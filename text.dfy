/** Text helpers shared by the query builder: optional values, decimal rendering
    of integers (as JavaScript template literals print safe integers), joining,
    and ASCII upper-casing. */
module Text {

  /** An optional value; used where the builder's arguments may be absent. */
  datatype Option<T> = None | Some(value: T)

  /** The character of one decimal digit. */
  function DigitChar(d: nat): (c: char)
    requires d < 10
    ensures '0' <= c <= '9' && c as int - '0' as int == d
  {
    (d + '0' as int) as char
  }

  predicate IsDigits(s: string)
  {
    forall i :: 0 <= i < |s| ==> '0' <= s[i] <= '9'
  }

  /** Decimal rendering of a natural number, without leading zeros: what
      `${n}` produces for a non-negative integer below 2^53. Larger numbers are
      rounded by JavaScript, and from 10^21 on printed in exponent form; that is
      not modelled. */
  function NatToString(n: nat): (s: string)
    ensures |s| > 0 && IsDigits(s)
    ensures n > 0 ==> s[0] != '0'
    decreases n
  {
    if n < 10 then [DigitChar(n)] else NatToString(n / 10) + [DigitChar(n % 10)]
  }

  /** The value of a string of decimal digits; the inverse of NatToString. */
  function DigitsValue(s: string): nat
    requires IsDigits(s)
  {
    if s == [] then 0 else DigitsValue(s[..|s| - 1]) * 10 + (s[|s| - 1] as int - '0' as int)
  }

  /** Reading back a rendered number gives the number. */
  lemma {:induction false} DigitsValueOfNatToString(n: nat)
    ensures DigitsValue(NatToString(n)) == n
    decreases n
  {
    var s := NatToString(n);
    if n >= 10 {
      var p := NatToString(n / 10);
      assert s == p + [DigitChar(n % 10)];
      assert s[..|s| - 1] == p;
      DigitsValueOfNatToString(n / 10);
    }
  }

  /** Distinct numbers render as distinct strings. */
  lemma NatToStringInjective(m: nat, n: nat)
    ensures NatToString(m) == NatToString(n) ==> m == n
  {
    DigitsValueOfNatToString(m);
    DigitsValueOfNatToString(n);
  }

  /** Decimal rendering of an integer, with a leading minus sign when negative;
      exact for magnitudes below 2^53, as for NatToString. */
  function IntToString(i: int): string
  {
    if i < 0 then "-" + NatToString(-i) else NatToString(i)
  }

  /** The parts separated by `sep`, as Array.prototype.join does. */
  function Join(parts: seq<string>, sep: string): string
  {
    if |parts| == 0 then ""
    else if |parts| == 1 then parts[0]
    else parts[0] + sep + Join(parts[1..], sep)
  }

  /** ASCII upper-casing of one character. */
  function UpperChar(c: char): char
  {
    if 'a' <= c <= 'z' then (c as int - 32) as char else c
  }

  /** String.prototype.toUpperCase, restricted to ASCII letters. */
  function Upper(s: string): (r: string)
    ensures |r| == |s|
  {
    if s == [] then [] else [UpperChar(s[0])] + Upper(s[1..])
  }

  /** Every character is upper-cased in place. */
  lemma {:induction false} UpperAt(s: string, i: nat)
    requires i < |s|
    ensures Upper(s)[i] == UpperChar(s[i])
    decreases i
  {
    if i > 0 {
      UpperAt(s[1..], i - 1);
    }
  }

  /** Text without lower-case letters is left as it is. */
  lemma UpperWithoutLowerCase(s: string)
    requires forall i :: 0 <= i < |s| ==> !('a' <= s[i] <= 'z')
    ensures Upper(s) == s
  {
    forall i | 0 <= i < |s|
      ensures Upper(s)[i] == s[i]
    {
      UpperAt(s, i);
    }
  }

  /** The result holds no lower-case letter. */
  lemma UpperHasNoLowerCase(s: string)
    ensures forall i :: 0 <= i < |s| ==> !('a' <= Upper(s)[i] <= 'z')
  {
    forall i | 0 <= i < |s|
      ensures !('a' <= Upper(s)[i] <= 'z')
    {
      UpperAt(s, i);
    }
  }
}
