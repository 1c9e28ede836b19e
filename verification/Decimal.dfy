/** Decimal text of natural numbers. */
module Decimal {

  predicate IsDigit(c: char) {
    '0' <= c <= '9'
  }

  predicate AllDigits(s: string) {
    forall i :: 0 <= i < |s| ==> IsDigit(s[i])
  }

  function DigitChar(n: nat): (c: char)
    requires n < 10
    ensures IsDigit(c) && DigitValue(c) == n
  {
    '0' + n as char
  }

  function DigitValue(c: char): (n: nat)
    requires IsDigit(c)
    ensures n < 10
  {
    c as int - '0' as int
  }

  function Pow10(k: nat): (p: nat)
    ensures p > 0
  {
    if k == 0 then 1 else 10 * Pow10(k - 1)
  }

  /** `BigInt(s)` or `Number(s)` on a string of digits; the empty string counts as zero. */
  function Value(s: string): (n: nat)
    requires AllDigits(s)
    ensures n < Pow10(|s|)
  {
    if s == "" then 0 else 10 * Value(s[..|s| - 1]) + DigitValue(s[|s| - 1])
  }

  /** The canonical text of a natural number. */
  function Print(n: nat): (s: string)
    ensures s != "" && AllDigits(s) && Value(s) == n
    ensures s[0] == '0' ==> n == 0
    decreases n
  {
    if n < 10 then [DigitChar(n)] else
      var front := Print(n / 10);
      var s := front + [DigitChar(n % 10)];
      assert s[..|s| - 1] == front;
      s
  }

  function Zeros(k: nat): (z: string)
    ensures |z| == k && AllDigits(z)
  {
    seq(k, _ => '0')
  }

  /** `padStart(width, "0")` */
  function PadStart(s: string, width: nat): (p: string)
    ensures |p| == (if |s| < width then width else |s|)
  {
    if |s| < width then Zeros(width - |s|) + s else s
  }

  lemma {:induction false} ValueConcat(a: string, b: string)
    requires AllDigits(a) && AllDigits(b)
    ensures AllDigits(a + b) && Value(a + b) == Value(a) * Pow10(|b|) + Value(b)
  {
    if b == "" {
      assert a + b == a;
    } else {
      var b' := b[..|b| - 1];
      assert (a + b)[..|a + b| - 1] == a + b';
      ValueConcat(a, b');
      assert (a + b)[|a + b| - 1] == b[|b| - 1];
      Distribute(Value(a), Pow10(|b'|), Value(b'), DigitValue(b[|b| - 1]));
    }
  }

  lemma Distribute(v: nat, p: nat, w: nat, d: nat)
    ensures 10 * (v * p + w) + d == v * (10 * p) + (10 * w + d)
  {
  }

  lemma {:induction false} ValueZeros(k: nat)
    ensures Value(Zeros(k)) == 0
  {
    if k > 0 {
      assert Zeros(k)[..k - 1] == Zeros(k - 1);
      ValueZeros(k - 1);
    }
  }

  lemma PadStartValue(s: string, width: nat)
    requires AllDigits(s)
    ensures AllDigits(PadStart(s, width)) && Value(PadStart(s, width)) == Value(s)
  {
    if |s| < width {
      ValueConcat(Zeros(width - |s|), s);
      ValueZeros(width - |s|);
    }
  }

  /** Digits of a given length are determined by their value. */
  lemma {:induction false} SameLengthSameValue(a: string, b: string)
    requires AllDigits(a) && AllDigits(b) && |a| == |b| && Value(a) == Value(b)
    ensures a == b
  {
    if a != "" {
      SameLengthSameValue(a[..|a| - 1], b[..|b| - 1]);
      assert a[|a| - 1] == b[|b| - 1];
      assert a == a[..|a| - 1] + [a[|a| - 1]] && b == b[..|b| - 1] + [b[|b| - 1]];
    }
  }

  /** A number is printed on at most k digits exactly when it is below 10^k. */
  lemma {:induction false} PrintWidth(n: nat, k: nat)
    requires k > 0
    ensures |Print(n)| <= k <==> n < Pow10(k)
    decreases k
  {
    if n >= 10 {
      if k > 1 {
        PrintWidth(n / 10, k - 1);
      } else {
        assert |Print(n / 10)| >= 1 && Pow10(1) == 10 * Pow10(0);
      }
    } else {
      assert Pow10(k) >= 10 by {
        assert Pow10(k - 1) >= 1;
      }
    }
  }

  lemma PrintInjective(m: nat, n: nat)
    ensures Print(m) == Print(n) <==> m == n
  {
    assert Value(Print(m)) == m && Value(Print(n)) == n;
  }
}
