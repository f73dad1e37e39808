/** Strings as sequences of Unicode scalar values: ASCII lower-casing, prefix and
    substring tests (`startsWith`, `includes`, Python `in`), decimal rendering of
    numbers (`toString`, f-string interpolation) and zero padding (`padStart`). */
module Text {

  /** ASCII lower-casing of one character; every other character is unchanged. */
  function LowerChar(c: char): char {
    if 'A' <= c <= 'Z' then (c as int + 32) as char else c
  }

  /** `toLowerCase()` / `lower()`, restricted to ASCII letters. */
  function Lower(s: string): (r: string)
    ensures |r| == |s|
    ensures forall i :: 0 <= i < |s| ==> r[i] == LowerChar(s[i])
  {
    seq(|s|, i requires 0 <= i < |s| => LowerChar(s[i]))
  }

  /** Lower-casing twice is lower-casing once. */
  lemma LowerIdempotent(s: string)
    ensures Lower(Lower(s)) == Lower(s)
  {
  }

  predicate StartsWith(s: string, prefix: string) {
    |prefix| <= |s| && s[..|prefix|] == prefix
  }

  /** `s.includes(sub)`: `sub` occurs in `s` at some position. */
  predicate Contains(s: string, sub: string)
    decreases |s|
  {
    StartsWith(s, sub) || (s != [] && Contains(s[1..], sub))
  }

  /** The empty string contains only the empty string, and every string contains it. */
  lemma {:induction false} ContainsEmpty(s: string, sub: string)
    ensures Contains("", sub) <==> sub == ""
    ensures Contains(s, "")
  {
    assert s[..0] == "";
  }

  /** `b` occurs in `a` at offset `k`. */
  predicate At(a: string, k: nat, b: string) {
    k + |b| <= |a| && forall i :: 0 <= i < |b| ==> a[k + i] == b[i]
  }

  /** A slice occurs where it starts. */
  lemma SliceAt(a: string, k: nat, b: string)
    requires k + |b| <= |a| && a[k..k + |b|] == b
    ensures At(a, k, b)
  {
    forall i | 0 <= i < |b| ensures a[k + i] == b[i] {
      assert a[k..k + |b|][i] == a[k + i];
    }
  }

  /** An occurrence inside an occurrence. */
  lemma AtTransitive(a: string, i: nat, b: string, j: nat, c: string)
    requires At(a, i, b) && At(b, j, c)
    ensures At(a, i + j, c)
  {
    forall m | 0 <= m < |c| ensures a[i + j + m] == c[m] {
      assert b[j + m] == c[m];
      assert a[i + (j + m)] == b[j + m];
    }
  }

  /** A suffix occurs where it starts. */
  lemma DropAt(s: string, n: nat)
    requires n <= |s|
    ensures At(s, n, s[n..])
  {
  }

  /** The same, with the offset as a result. */
  lemma AtChain(a: string, i: nat, b: string, j: nat, c: string) returns (k: nat)
    requires At(a, i, b) && At(b, j, c)
    ensures At(a, k, c)
  {
    AtTransitive(a, i, b, j, c);
    k := i + j;
  }

  /** An occurrence inside a suffix is an occurrence further on. */
  lemma AtInSuffix(s: string, n: nat, j: nat, w: string)
    requires n <= |s| && At(s[n..], j, w)
    ensures At(s, n + j, w)
  {
    DropAt(s, n);
    AtTransitive(s, n, s[n..], j, w);
  }

  /** Lower-casing keeps an occurrence. */
  lemma LowerAt(a: string, k: nat, b: string)
    requires At(a, k, b)
    ensures At(Lower(a), k, Lower(b))
  {
  }

  /** A string contains every string that occurs at one of its positions. */
  lemma {:induction false} ContainsAt(s: string, sub: string, i: nat)
    requires At(s, i, sub)
    ensures Contains(s, sub)
  {
    if i > 0 {
      ContainsAt(s[1..], sub, i - 1);
    } else {
      assert s[..|sub|] == sub;
    }
  }

  predicate IsDigit(c: char) {
    '0' <= c <= '9'
  }

  predicate AllDigits(s: string) {
    forall i :: 0 <= i < |s| ==> IsDigit(s[i])
  }

  function DigitChar(d: nat): (c: char)
    requires d < 10
    ensures IsDigit(c) && c as int - '0' as int == d
  {
    (d + '0' as int) as char
  }

  /** Decimal rendering of a natural number without leading zeros. */
  function NatToString(n: nat): (r: string)
    ensures |r| >= 1 && AllDigits(r)
    ensures r[0] == '0' ==> n == 0
    decreases n
  {
    if n < 10 then [DigitChar(n)] else NatToString(n / 10) + [DigitChar(n % 10)]
  }

  /** The number a string of decimal digits denotes. */
  function DigitsValue(s: string): nat
    requires AllDigits(s)
  {
    if s == [] then 0 else DigitsValue(s[..|s| - 1]) * 10 + (s[|s| - 1] as int - '0' as int)
  }

  /** Reading back a rendered number gives the number. */
  lemma {:induction false} NatToStringRoundTrip(n: nat)
    ensures DigitsValue(NatToString(n)) == n
    decreases n
  {
    if n >= 10 {
      NatToStringRoundTrip(n / 10);
      var r := NatToString(n);
      assert r[..|r| - 1] == NatToString(n / 10);
    }
  }

  /** Different numbers render differently. */
  lemma NatToStringInjective(a: nat, b: nat)
    requires NatToString(a) == NatToString(b)
    ensures a == b
  {
    NatToStringRoundTrip(a);
    NatToStringRoundTrip(b);
  }

  /** JavaScript `String(n)` / Python `str(n)` of an integer. */
  function IntToString(i: int): (r: string)
    ensures |r| >= 1
    ensures i >= 0 ==> r == NatToString(i)
    ensures i < 0 ==> r == "-" + NatToString(-i)
  {
    if i < 0 then "-" + NatToString(-i) else NatToString(i)
  }

  /** `s.padStart(width, fill)`: `fill` repeated on the left up to `width`; a string
      already that long is returned unchanged. */
  function PadStart(s: string, width: nat, fill: char): (r: string)
    ensures |r| == if |s| >= width then |s| else width
    ensures r[|r| - |s|..] == s
    ensures forall i :: 0 <= i < |r| - |s| ==> r[i] == fill
  {
    if |s| >= width then s else seq(width - |s|, _ => fill) + s
  }

  /** A natural number in decimal, zero-padded on the left to `width` digits. */
  function ZeroPad(n: nat, width: nat): (r: string)
    ensures AllDigits(r)
  {
    PadStart(NatToString(n), width, '0')
  }

  /** Leading zeros do not change the value of a digit string. */
  lemma {:induction false} LeadingZeros(z: string, s: string)
    requires forall i :: 0 <= i < |z| ==> z[i] == '0'
    requires AllDigits(s)
    ensures AllDigits(z + s)
    ensures DigitsValue(z + s) == DigitsValue(s)
    decreases |s|
  {
    if s == [] {
      assert z + s == z;
      AllZeros(z);
    } else {
      assert (z + s)[..|z + s| - 1] == z + s[..|s| - 1];
      LeadingZeros(z, s[..|s| - 1]);
    }
  }

  lemma {:induction false} AllZeros(z: string)
    requires forall i :: 0 <= i < |z| ==> z[i] == '0'
    ensures AllDigits(z) && DigitsValue(z) == 0
    decreases |z|
  {
    if z != [] {
      AllZeros(z[..|z| - 1]);
    }
  }

  /** Zero padding is a round trip: the padded string still denotes the number, and it
      has exactly `width` digits when the number has at most that many. */
  lemma ZeroPadRoundTrip(n: nat, width: nat)
    ensures DigitsValue(ZeroPad(n, width)) == n
    ensures |NatToString(n)| <= width ==> |ZeroPad(n, width)| == width
  {
    var s := NatToString(n);
    var r := ZeroPad(n, width);
    NatToStringRoundTrip(n);
    if |s| < width {
      assert r == r[..|r| - |s|] + s;
      LeadingZeros(r[..|r| - |s|], s);
    }
  }

  function Pow10(w: nat): (r: nat)
    ensures r >= 1
  {
    if w == 0 then 1 else 10 * Pow10(w - 1)
  }

  /** A number below `10^w` renders in at most `w` digits. */
  lemma {:induction false} FewDigits(n: nat, w: nat)
    requires w >= 1 && n < Pow10(w)
    ensures |NatToString(n)| <= w
    decreases w
  {
    if n >= 10 {
      assert Pow10(1) == 10;
      FewDigits(n / 10, w - 1);
    }
  }

  /** A field padded to its width reads back. */
  lemma PaddedField(n: nat, width: nat)
    requires width >= 1 && n < Pow10(width)
    ensures |ZeroPad(n, width)| == width
    ensures AllDigits(ZeroPad(n, width)) && DigitsValue(ZeroPad(n, width)) == n
  {
    FewDigits(n, width);
    ZeroPadRoundTrip(n, width);
  }
}
