/** Decimal text of non-negative integers: how a bookmark id is written into
    the `Location` header (`${bookmark.id}`), and how the `:id` segment of a
    path is read back as an id. */
module Decimal {
  import opened Optional

  predicate IsDigit(c: char) {
    '0' <= c <= '9'
  }

  predicate AllDigits(s: string) {
    forall i :: 0 <= i < |s| ==> IsDigit(s[i])
  }

  function DigitChar(d: nat): (c: char)
    requires d < 10
    ensures IsDigit(c)
  {
    (48 + d) as char
  }

  function DigitValue(c: char): (d: nat)
    requires IsDigit(c)
    ensures d < 10
  {
    c as int - 48
  }

  /** The numeral JavaScript prints for `n`: digits only, no leading zero. */
  function Format(n: nat): (s: string)
    ensures |s| >= 1 && AllDigits(s)
    ensures s[0] == '0' ==> n == 0
    ensures n < 10 <==> |s| == 1
    decreases n
  {
    if n < 10 then [DigitChar(n)] else Format(n / 10) + [DigitChar(n % 10)]
  }

  /** The value of a string of digits, most significant first. */
  function Value(s: string): nat
    requires AllDigits(s)
    decreases |s|
  {
    if s == [] then 0 else Value(s[..|s| - 1]) * 10 + DigitValue(s[|s| - 1])
  }

  /** Reads a path segment as an id: accepted exactly when it is a non-empty
      run of digits (leading zeros allowed). */
  function Parse(s: string): (r: Option<nat>)
    ensures r.Some? <==> s != "" && AllDigits(s)
  {
    if s != "" && AllDigits(s) then Some(Value(s)) else None
  }

  lemma {:induction false} ValueOfFormat(n: nat)
    ensures Value(Format(n)) == n
    decreases n
  {
    if n >= 10 {
      ValueOfFormat(n / 10);
      var s := Format(n);
      assert s[..|s| - 1] == Format(n / 10);
    }
  }

  /** Reading back a printed id gives the id. */
  lemma ParseFormat(n: nat)
    ensures Parse(Format(n)) == Some(n)
  {
    ValueOfFormat(n);
  }

  function Pow10(k: nat): (p: nat)
    ensures p >= 1
  {
    if k == 0 then 1 else 10 * Pow10(k - 1)
  }

  lemma {:induction false} Pow10Monotone(j: nat, k: nat)
    requires j <= k
    ensures Pow10(j) <= Pow10(k)
    decreases k
  {
    if j < k {
      Pow10Monotone(j, k - 1);
    }
  }

  /** A numeral without a leading zero is at least 10^(length - 1): longer
      canonical numerals stand for larger numbers. */
  lemma {:induction false} LeadingDigitMagnitude(s: string)
    requires s != "" && AllDigits(s) && s[0] != '0'
    ensures Value(s) >= Pow10(|s| - 1)
    decreases |s|
  {
    if |s| > 1 {
      LeadingDigitMagnitude(s[..|s| - 1]);
    }
  }

  /** Conversely, a canonical numeral (no leading zero) is what Format prints
      for its value, so ids and their numerals correspond one to one. */
  lemma {:induction false} FormatValue(s: string)
    requires s != "" && AllDigits(s)
    requires s[0] != '0' || |s| == 1
    ensures Format(Value(s)) == s
    decreases |s|
  {
    if |s| > 1 {
      var p := s[..|s| - 1];
      LeadingDigitMagnitude(p);
      FormatValue(p);
      assert Value(s) / 10 == Value(p);
      assert s == p + [s[|s| - 1]];
    }
  }
}
