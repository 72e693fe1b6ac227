/** Zero padding of the counter: `String(counter).padStart(3, '0')`
    (pages/api/v1/lineage/index.js:88, blob-version.js:40,
    database-version.js:111). */
module Padding {
  import opened Strings
  import opened Decimal

  /** `s.padStart(width, fill)` with a one-character fill: pads on the left
      up to `width`, and never truncates a longer string. */
  function PadStart(s: string, width: nat, fill: char): (r: string)
    ensures |r| == if |s| >= width then |s| else width
    ensures r[|r| - |s|..] == s
    ensures forall i :: 0 <= i < |r| - |s| ==> r[i] == fill
  {
    if |s| >= width then s else Repeat(fill, width - |s|) + s
  }

  const CounterWidth: nat := 3

  /** The sequence component of a file name. */
  function PadCounter(n: nat): (r: string)
    ensures |r| == if |ToDecimal(n)| >= CounterWidth then |ToDecimal(n)| else CounterWidth
    ensures AllDigits(r)
  {
    PadStart(ToDecimal(n), CounterWidth, '0')
  }

  /** The padded counter is `'0'`s followed by String(n), and reading it
      gives back n. */
  lemma PadCounterDenotes(n: nat)
    ensures var r := PadCounter(n);
            r == Repeat('0', |r| - |ToDecimal(n)|) + ToDecimal(n)
    ensures Value(PadCounter(n)) == n
  {
    var s := ToDecimal(n);
    var r := PadCounter(n);
    var k := |r| - |s|;
    assert r == r[..k] + r[k..];
    assert r[..k] == Repeat('0', k);
    ValueIgnoresLeadingZeros(k, s);
    ValueOfDecimal(n);
  }

  /** Distinct counters never share a padded form. */
  lemma PadCounterInjective(n: nat, m: nat)
    requires PadCounter(n) == PadCounter(m)
    ensures n == m
  {
    PadCounterDenotes(n);
    PadCounterDenotes(m);
  }

  /** Below 1000 every padded counter has exactly three characters; from 100
      on, padding adds nothing, so 1000 and above are never truncated. */
  lemma PadCounterLength(n: nat)
    ensures n < 1000 ==> |PadCounter(n)| == 3
    ensures n >= 100 ==> PadCounter(n) == ToDecimal(n)
    ensures n >= 1000 ==> |PadCounter(n)| >= 4
  {
    var k := DigitCount(n);
    if n < 1000 {
      assert k <= 3;
    }
    if n >= 100 {
      assert k >= 3;
    }
  }

  /** The number of digits of String(n), placed between powers of ten. */
  lemma DigitCount(n: nat) returns (k: nat)
    ensures k == |ToDecimal(n)| && k >= 1
    ensures n < 1000 ==> k <= 3
    ensures n >= 100 ==> k >= 3
    ensures n >= 1000 ==> k >= 4
  {
    DecimalLength(n);
    k := |ToDecimal(n)|;
    assert Pow10(2) == 100 && Pow10(3) == 1000;
    PowOrder(k - 1, 3);
    PowOrder(2, k);
    PowOrder(3, k);
  }

  /** Powers of ten are ordered as their exponents. */
  lemma {:induction false} PowOrder(i: nat, j: nat)
    ensures Pow10(i) < Pow10(j) <==> i < j
    decreases i + j
  {
    if i > 0 && j > 0 {
      PowOrder(i - 1, j - 1);
    } else if i == 0 && j > 0 {
      PowOrder(0, j - 1);
    } else if j == 0 && i > 0 {
      PowOrder(i - 1, 0);
    }
  }

  /** For counters of equal padded width (every counter below 1000, as in
      `001`, `002`), sorting padded counters as strings sorts them by number. */
  lemma PadOrderIsNumeric(n: nat, m: nat)
    requires |PadCounter(n)| == |PadCounter(m)|
    ensures LexLess(PadCounter(n), PadCounter(m)) <==> n < m
  {
    LexLessIsNumeric(PadCounter(n), PadCounter(m));
    PadCounterDenotes(n);
    PadCounterDenotes(m);
  }

  lemma PadOrderBelowThousand(n: nat, m: nat)
    requires n < 1000 && m < 1000
    ensures LexLess(PadCounter(n), PadCounter(m)) <==> n < m
  {
    PadCounterLength(n);
    PadCounterLength(m);
    PadOrderIsNumeric(n, m);
  }

  /** Width 3 stops sorting by number once the counter passes 999:
      `1000` sorts before `999`. */
  lemma OrderBreaksAtThousand()
    ensures LexLess(PadCounter(1000), PadCounter(999))
  {
    PadCounterLength(1000);
    PadCounterLength(999);
    var a, b := ToDecimal(1000), ToDecimal(999);
    assert a[0] == '1' by {
      assert ToDecimal(1000) == ToDecimal(100) + ['0'];
      assert ToDecimal(100) == ToDecimal(10) + ['0'];
      assert ToDecimal(10) == ToDecimal(1) + ['0'];
    }
    assert b[0] == '9' by {
      assert ToDecimal(999) == ToDecimal(99) + ['9'];
      assert ToDecimal(99) == ToDecimal(9) + ['9'];
    }
  }
}
