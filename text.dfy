/** Decimal digits and the rendering of numbers as text, as used by the
    size parser (parsing a decimal value) and by the download title
    (formatting season, episode and date numbers). */
module Text {

  predicate IsDigit(c: char) {
    '0' <= c <= '9'
  }

  predicate AllDigits(s: string) {
    forall i :: 0 <= i < |s| ==> IsDigit(s[i])
  }

  function DigitValue(c: char): (d: nat)
    requires IsDigit(c)
    ensures d < 10
  {
    c as int - '0' as int
  }

  function DigitChar(d: nat): (c: char)
    requires d < 10
    ensures IsDigit(c) && DigitValue(c) == d
  {
    ('0' as int + d) as char
  }

  /** The value of a string of decimal digits (leading zeros allowed). */
  function ParseNat(s: string): nat
    requires AllDigits(s)
  {
    if |s| == 0 then 0 else 10 * ParseNat(s[..|s| - 1]) + DigitValue(s[|s| - 1])
  }

  function Pow10(k: nat): (p: nat)
    ensures p >= 1
  {
    if k == 0 then 1 else 10 * Pow10(k - 1)
  }

  /** Invariant-culture rendering of a non-negative integer: shortest
      decimal form, no leading zero. */
  function NatToString(n: nat): (s: string)
    ensures |s| > 0 && AllDigits(s)
    ensures |s| > 1 ==> s[0] != '0'
  {
    if n < 10 then [DigitChar(n)] else NatToString(n / 10) + [DigitChar(n % 10)]
  }

  /** A custom format of width `width` ("yyyy", "MM", "dd"): the decimal
      form padded on the left with zeros. */
  function PadNat(n: nat, width: nat): (s: string)
    ensures AllDigits(s)
    ensures |s| >= width
  {
    var digits := NatToString(n);
    if |digits| >= width then digits else Zeros(width - |digits|) + digits
  }

  function Zeros(k: nat): (s: string)
    ensures |s| == k && AllDigits(s)
  {
    if k == 0 then [] else Zeros(k - 1) + ['0']
  }

  lemma AllDigitsAppend(a: string, b: string)
    requires AllDigits(a) && AllDigits(b)
    ensures AllDigits(a + b)
  {
    forall i | 0 <= i < |a + b| ensures IsDigit((a + b)[i]) {
      if i < |a| { assert (a + b)[i] == a[i]; } else { assert (a + b)[i] == b[i - |a|]; }
    }
  }

  lemma {:induction false} ParseNatAppend(a: string, b: string)
    requires AllDigits(a) && AllDigits(b)
    ensures AllDigits(a + b)
    ensures ParseNat(a + b) == ParseNat(a) * Pow10(|b|) + ParseNat(b)
  {
    AllDigitsAppend(a, b);
    if |b| == 0 {
      assert a + b == a;
    } else {
      var b' := b[..|b| - 1];
      assert (a + b)[..|a + b| - 1] == a + b';
      ParseNatAppend(a, b');
      var x, p, y, d := ParseNat(a), Pow10(|b'|), ParseNat(b'), DigitValue(b[|b| - 1]);
      assert ParseNat(a + b) == 10 * (x * p + y) + d;
      assert ParseNat(b) == 10 * y + d;
      assert Pow10(|b|) == 10 * p;
      MulShift(x, p);
    }
  }

  lemma MulShift(x: int, p: int)
    ensures x * (10 * p) == 10 * (x * p)
  {
  }

  lemma {:induction false} ParseZeros(k: nat)
    ensures ParseNat(Zeros(k)) == 0
  {
    if k > 0 {
      ParseZeros(k - 1);
      var z := Zeros(k);
      assert z == Zeros(k - 1) + ['0'];
      assert z[..k - 1] == Zeros(k - 1);
      assert z[k - 1] == '0';
      assert ParseNat(z) == 10 * ParseNat(Zeros(k - 1)) + DigitValue('0');
    }
  }

  /** Round trip: the decimal rendering of `n` reads back as `n`. */
  lemma {:induction false} ParseNatToString(n: nat)
    ensures ParseNat(NatToString(n)) == n
  {
    if n >= 10 {
      ParseNatToString(n / 10);
      var s := NatToString(n);
      assert s[..|s| - 1] == NatToString(n / 10);
    }
  }

  /** Round trip through a zero-padded field: the padding does not change
      the value that reads back, and a value below 10^width fills the field
      exactly. */
  lemma PadNatRoundTrip(n: nat, width: nat)
    ensures ParseNat(PadNat(n, width)) == n
    ensures 0 < width && n < Pow10(width) ==> |PadNat(n, width)| == width
  {
    var digits := NatToString(n);
    ParseNatToString(n);
    if |digits| < width {
      var zeros := Zeros(width - |digits|);
      ParseNatAppend(zeros, digits);
      ParseZeros(width - |digits|);
      assert ParseNat(zeros + digits) == 0 * Pow10(|digits|) + n;
    }
    if 0 < width && n < Pow10(width) {
      NatToStringLength(n, width);
    }
  }

  lemma {:induction false} NatToStringLength(n: nat, width: nat)
    requires n < Pow10(width) && width > 0
    ensures |NatToString(n)| <= width
  {
    if n >= 10 {
      assert width > 1;
      assert n / 10 < Pow10(width - 1);
      NatToStringLength(n / 10, width - 1);
    }
  }

  /** Two numbers render alike only if they are equal. */
  lemma NatToStringInjective(m: nat, n: nat)
    requires NatToString(m) == NatToString(n)
    ensures m == n
  {
    ParseNatToString(m);
    ParseNatToString(n);
  }
}
