/** Decimal text of non-negative integers in both directions: the rendering
    JavaScript's `String(n)` / `n.toString()` produces, and the reading
    `parseInt(text, 10)` performs. The counter file, the padded counter and
    the status readers all go through these two functions. */
module Decimal {
  import opened Wrappers
  import opened Strings

  predicate IsDigit(c: char) {
    '0' <= c <= '9'
  }

  predicate AllDigits(s: string) {
    forall i :: 0 <= i < |s| ==> IsDigit(s[i])
  }

  function DigitValue(c: char): (d: nat)
    requires IsDigit(c)
    ensures d < 10
  {
    c as int - '0' as int
  }

  function DigitChar(d: nat): (c: char)
    requires d < 10
    ensures IsDigit(c) && DigitValue(c) == d
  {
    ('0' as int + d) as char
  }

  function Pow10(k: nat): (p: nat)
    ensures p >= 1
  {
    if k == 0 then 1 else 10 * Pow10(k - 1)
  }

  /** `String(n)` for a non-negative integer: its digits, most significant
      first, with no leading zero. */
  function ToDecimal(n: nat): (s: string)
    ensures 1 <= |s|
    ensures AllDigits(s)
    ensures s[0] == '0' <==> n == 0
    decreases n
  {
    if n < 10 then [DigitChar(n)] else ToDecimal(n / 10) + [DigitChar(n % 10)]
  }

  /** The number a string of digits denotes, read most significant digit
      first, the way parseInt accumulates it. */
  function Value(s: string): (v: nat)
    requires AllDigits(s)
    ensures v < Pow10(|s|)
  {
    if |s| == 0 then 0 else Value(s[..|s| - 1]) * 10 + DigitValue(s[|s| - 1])
  }

  /** The longest prefix of `s` made of digits. */
  function LeadingDigits(s: string): (d: string)
    ensures d <= s
    ensures AllDigits(d)
    ensures |d| < |s| ==> !IsDigit(s[|d|])
  {
    if |s| == 0 || !IsDigit(s[0]) then [] else [s[0]] + LeadingDigits(s[1..])
  }

  /** `parseInt(s, 10)`, simplified to text that starts with its digits (no
      leading white space, no sign). `None` is JavaScript's NaN. */
  function ParseInt(s: string): (r: Option<nat>)
    ensures r.None? <==> |s| == 0 || !IsDigit(s[0])
  {
    var d := LeadingDigits(s);
    if |d| == 0 then None else Some(Value(d))
  }

  /** `parseInt(s, 10) || 0`: NaN (and 0) read as 0. */
  function ParseIntOrZero(s: string): (n: nat)
    ensures ParseInt(s).None? ==> n == 0
    ensures ParseInt(s).Some? ==> n == ParseInt(s).value
  {
    ParseInt(s).GetOr(0)
  }

  // ---------------------------------------------------------------------
  // Round trips between the two directions

  /** Reading back what `String(n)` wrote gives `n`. */
  lemma {:induction false} ValueOfDecimal(n: nat)
    ensures Value(ToDecimal(n)) == n
    decreases n
  {
    if n >= 10 {
      var s := ToDecimal(n);
      assert s[..|s| - 1] == ToDecimal(n / 10);
      ValueOfDecimal(n / 10);
    }
  }

  /** Digits followed by text that does not start with a digit: the digits
      are the leading run. */
  lemma {:induction false} LeadingDigitsOfConcat(d: string, rest: string)
    requires AllDigits(d)
    requires |rest| == 0 || !IsDigit(rest[0])
    ensures LeadingDigits(d + rest) == d
    decreases |d|
  {
    if |d| > 0 {
      assert (d + rest)[1..] == d[1..] + rest;
      LeadingDigitsOfConcat(d[1..], rest);
    }
  }

  /** parseInt reads the leading digits of a text and ignores what follows. */
  lemma ParseIntOfConcat(d: string, rest: string)
    requires |d| > 0 && AllDigits(d)
    requires |rest| == 0 || !IsDigit(rest[0])
    ensures ParseInt(d + rest) == Some(Value(d))
  {
    LeadingDigitsOfConcat(d, rest);
  }

  /** parseInt(String(n), 10) || 0 is n: the status readers report exactly
      the number the allocator wrote. */
  lemma ParseDecimal(n: nat)
    ensures ParseInt(ToDecimal(n)) == Some(n)
    ensures ParseIntOrZero(ToDecimal(n)) == n
  {
    ParseIntOfConcat(ToDecimal(n), []);
    assert ToDecimal(n) + [] == ToDecimal(n);
    ValueOfDecimal(n);
  }

  // ---------------------------------------------------------------------
  // Leading zeros and the shape of a value

  /** Zeros in front of a digit string do not change the number it denotes. */
  lemma {:induction false} ValueIgnoresLeadingZeros(k: nat, s: string)
    requires AllDigits(s)
    ensures AllDigits(Repeat('0', k) + s)
    ensures Value(Repeat('0', k) + s) == Value(s)
    decreases |s|, k
  {
    var z := Repeat('0', k);
    assert AllDigits(z + s);
    if |s| == 0 {
      assert z + s == z;
      if k > 0 {
        assert z[..k - 1] == Repeat('0', k - 1);
        ValueIgnoresLeadingZeros(k - 1, []);
        assert Repeat('0', k - 1) + [] == Repeat('0', k - 1);
      }
    } else {
      var t := z + s;
      assert t[..|t| - 1] == z + s[..|s| - 1];
      ValueIgnoresLeadingZeros(k, s[..|s| - 1]);
    }
  }

  /** The value seen from the most significant digit. */
  lemma {:induction false} ValueFromFront(s: string)
    requires |s| > 0 && AllDigits(s)
    ensures Value(s) == DigitValue(s[0]) * Pow10(|s| - 1) + Value(s[1..])
    decreases |s|
  {
    if |s| > 1 {
      var p, q := s[..|s| - 1], s[1..];
      ValueFromFront(p);
      assert p[1..] == q[..|q| - 1];
      assert q[|q| - 1] == s[|s| - 1];
      FrontStep(Value(s), Value(p), Value(q), DigitValue(s[0]), Pow10(|s| - 2),
                Value(p[1..]), DigitValue(s[|s| - 1]));
    }
  }

  /** The arithmetic of one step of `ValueFromFront`. */
  lemma FrontStep(vs: nat, vp: nat, vq: nat, d0: nat, p10: nat, rest: nat, last: nat)
    requires vp == d0 * p10 + rest
    requires vq == rest * 10 + last
    requires vs == vp * 10 + last
    ensures vs == d0 * (10 * p10) + vq
  {
    assert (d0 * p10) * 10 == d0 * (10 * p10);
  }

  /** A string of `k` digits with a non-zero first digit denotes at least 10^(k-1). */
  lemma ValueLowerBound(s: string)
    requires |s| > 0 && AllDigits(s) && s[0] != '0'
    ensures Value(s) >= Pow10(|s| - 1)
  {
    ValueFromFront(s);
    MulAtLeast(DigitValue(s[0]), Pow10(|s| - 1));
  }

  lemma MulAtLeast(a: nat, b: nat)
    requires a >= 1
    ensures a * b >= b
  {
  }

  lemma MulStrict(a: nat, b: nat, p: nat)
    requires a < b
    ensures a * p + p <= b * p
  {
    assert (b - a) * p >= p by { MulAtLeast(b - a, p); }
  }

  /** String(n) has exactly k digits where 10^(k-1) <= n < 10^k (n > 0). */
  lemma DecimalLength(n: nat)
    ensures n < Pow10(|ToDecimal(n)|)
    ensures n > 0 ==> Pow10(|ToDecimal(n)| - 1) <= n
  {
    ValueOfDecimal(n);
    if n > 0 {
      ValueLowerBound(ToDecimal(n));
    }
  }

  // ---------------------------------------------------------------------
  // Order

  /** On digit strings of equal length, string order is numeric order. */
  lemma {:induction false} LexLessIsNumeric(s: string, t: string)
    requires |s| == |t|
    requires AllDigits(s) && AllDigits(t)
    ensures LexLess(s, t) <==> Value(s) < Value(t)
    decreases |s|
  {
    if |s| > 0 {
      ValueFromFront(s);
      ValueFromFront(t);
      var p := Pow10(|s| - 1);
      var ds, dt := DigitValue(s[0]), DigitValue(t[0]);
      assert Value(s[1..]) < p && Value(t[1..]) < p;
      if s[0] < t[0] {
        MulStrict(ds, dt, p);
      } else if t[0] < s[0] {
        MulStrict(dt, ds, p);
      } else {
        LexLessIsNumeric(s[1..], t[1..]);
      }
    }
  }
}
