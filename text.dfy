/** Decimal text as Python's format specifications produce it: `{n}`
    (shortest decimal), `{n:02d}` and `%Y` (zero-padded to a width), and the
    substring and suffix tests that select file names. */
module Text {

  predicate IsDigit(c: char) { '0' <= c <= '9' }

  predicate AllDigits(s: string) { forall i :: 0 <= i < |s| ==> IsDigit(s[i]) }

  function DigitValue(c: char): (v: nat)
    requires IsDigit(c)
    ensures v < 10
  {
    c as int - '0' as int
  }

  function DigitChar(d: nat): (c: char)
    requires d < 10
    ensures IsDigit(c) && DigitValue(c) == d
  {
    ('0' as int + d) as char
  }

  /** The shortest decimal spelling of `n` (Python's `str(n)` for n >= 0). */
  function Decimal(n: nat): (s: string)
    ensures 1 <= |s| && AllDigits(s)
  {
    if n < 10 then [DigitChar(n)] else Decimal(n / 10) + [DigitChar(n % 10)]
  }

  function Zeros(k: nat): (s: string)
    ensures |s| == k && AllDigits(s)
    ensures forall i :: 0 <= i < k ==> s[i] == '0'
  {
    if k == 0 then [] else Zeros(k - 1) + ['0']
  }

  /** `n` in decimal, left-padded with zeros to at least `width` characters
      (Python's `f"{n:0{width}d}"` for n >= 0). */
  function ZeroPad(n: nat, width: nat): (s: string)
    ensures AllDigits(s) && |s| >= width
  {
    var d := Decimal(n);
    (if |d| < width then Zeros(width - |d|) else []) + d
  }

  /** The value of a string of decimal digits (leading zeros allowed). */
  function ParseDigits(s: string): nat
    requires AllDigits(s)
  {
    if s == [] then 0 else 10 * ParseDigits(s[..|s| - 1]) + DigitValue(s[|s| - 1])
  }

  function Pow10(k: nat): (p: nat)
    ensures p >= 1
  {
    if k == 0 then 1 else 10 * Pow10(k - 1)
  }

  lemma {:induction false} ParseDecimal(n: nat)
    ensures ParseDigits(Decimal(n)) == n
  {
    if n >= 10 {
      var s := Decimal(n);
      assert s[..|s| - 1] == Decimal(n / 10);
      ParseDecimal(n / 10);
    }
  }

  lemma {:induction false} ParseZerosPrefix(k: nat, s: string)
    requires AllDigits(s)
    ensures ParseDigits(Zeros(k) + s) == ParseDigits(s)
    decreases |s|, k
  {
    if s == [] {
      assert Zeros(k) + s == Zeros(k);
      ParseZeros(k);
    } else {
      var t := Zeros(k) + s;
      assert t[..|t| - 1] == Zeros(k) + s[..|s| - 1];
      assert t[|t| - 1] == s[|s| - 1];
      ParseZerosPrefix(k, s[..|s| - 1]);
    }
  }

  lemma {:induction false} ParseZeros(k: nat)
    ensures ParseDigits(Zeros(k)) == 0
  {
    if k > 0 {
      assert Zeros(k)[..k - 1] == Zeros(k - 1);
      ParseZeros(k - 1);
    }
  }

  /** Reading back a zero-padded number gives the number. */
  lemma ParseZeroPad(n: nat, width: nat)
    ensures ParseDigits(ZeroPad(n, width)) == n
  {
    var d := Decimal(n);
    ParseDecimal(n);
    if |d| < width {
      ParseZerosPrefix(width - |d|, d);
    } else {
      assert ZeroPad(n, width) == d;
    }
  }

  lemma ZeroPadInjective(a: nat, b: nat, width: nat)
    requires ZeroPad(a, width) == ZeroPad(b, width)
    ensures a == b
  {
    ParseZeroPad(a, width);
    ParseZeroPad(b, width);
  }

  lemma {:induction false} DecimalLength(n: nat, w: nat)
    requires 1 <= w && n < Pow10(w)
    ensures |Decimal(n)| <= w
  {
    if n >= 10 {
      assert n / 10 < Pow10(w - 1);
      DecimalLength(n / 10, w - 1);
    }
  }

  lemma {:induction false} DecimalLongEnough(n: nat, w: nat)
    requires 1 <= w && Pow10(w - 1) <= n
    ensures |Decimal(n)| >= w
  {
    if w > 1 {
      assert Pow10(w - 1) == 10 * Pow10(w - 2);
      assert n / 10 >= Pow10(w - 2);
      DecimalLongEnough(n / 10, w - 1);
    }
  }

  /** A number with exactly `width` digits needs no padding, so Python's
      `f"{n}"` and `f"{n:0{width}d}"` agree on it. */
  lemma ZeroPadUnpadded(n: nat, width: nat)
    requires 1 <= width && Pow10(width - 1) <= n
    ensures ZeroPad(n, width) == Decimal(n)
  {
    DecimalLongEnough(n, width);
  }

  /** A number below 10^width pads to exactly `width` characters. */
  lemma ZeroPadLength(n: nat, width: nat)
    requires 1 <= width && n < Pow10(width)
    ensures |ZeroPad(n, width)| == width
  {
    DecimalLength(n, width);
  }

  /** `sub` occurs in `s` starting at index `i`. */
  predicate OccursAt(s: string, sub: string, i: int)
  {
    0 <= i && i + |sub| <= |s| && s[i..i + |sub|] == sub
  }

  /** `sub` occurs somewhere in `s` (Python's `sub in s`). */
  predicate Contains(s: string, sub: string)
  {
    exists i | 0 <= i <= |s| :: OccursAt(s, sub, i)
  }

  /** Python's `s.endswith(suffix)`. */
  predicate EndsWith(s: string, suffix: string)
  {
    |suffix| <= |s| && s[|s| - |suffix|..] == suffix
  }

  /** A string occurs in any string that has it as a slice. */
  lemma ContainsAt(s: string, sub: string, i: nat)
    requires i + |sub| <= |s| && s[i..i + |sub|] == sub
    ensures Contains(s, sub)
  {
    assert OccursAt(s, sub, i);
  }

  /** A character that is not a digit does not occur in digit text. */
  lemma NotInDigits(c: char, s: string)
    requires AllDigits(s) && !IsDigit(c)
    ensures c !in s
  {
  }

  /** In `a + [c] + b` with `c` in neither `a` nor `b`, an occurrence of a
      pattern `x + [c] + y` must line its `c` up with the only `c` of the
      text, so `x` ends `a` and `y` begins `b`. */
  lemma AnchoredAt(a: string, c: char, b: string, x: string, y: string, i: int)
    requires c !in a && c !in b
    requires OccursAt(a + [c] + b, x + [c] + y, i)
    ensures i + |x| == |a|
    ensures |x| <= |a| && x == a[|a| - |x|..]
    ensures |y| <= |b| && y == b[..|y|]
  {
    var s, p := a + [c] + b, x + [c] + y;
    var k := i + |x|;
    assert s[k] == p[|x|] == c;
    forall t | 0 <= t < |x| ensures x[t] == a[|a| - |x| + t]
    {
      assert p[t] == s[i + t];
    }
    forall t | 0 <= t < |y| ensures y[t] == b[t]
    {
      assert p[|x| + 1 + t] == s[k + 1 + t];
    }
  }
}
