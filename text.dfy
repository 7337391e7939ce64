/** The string operations the receipt number is built from: decimal rendering of
    a natural number (JavaScript's `String(n)`), `padStart`, removal of one
    character everywhere (`replace(/-/g, '')`), and the splitting needed to read
    a receipt number back. */
module Text {

  predicate IsDigit(c: char) {
    '0' <= c <= '9'
  }

  predicate AllDigits(s: string) {
    forall i :: 0 <= i < |s| ==> IsDigit(s[i])
  }

  function DigitChar(d: nat): (c: char)
    requires d < 10
    ensures IsDigit(c) && (c as int) - ('0' as int) == d
  {
    ('0' as int + d) as char
  }

  /** The number a string of decimal digits denotes; leading zeros are allowed. */
  function DigitsValue(s: string): nat
    requires AllDigits(s)
  {
    if s == [] then 0
    else DigitsValue(s[..|s| - 1]) * 10 + ((s[|s| - 1] as int) - ('0' as int))
  }

  /** Decimal text of n without leading zeros, as `String(n)` renders it. */
  function NatText(n: nat): (s: string)
    ensures |s| >= 1 && AllDigits(s)
    ensures DigitsValue(s) == n
    ensures n >= 10 ==> s[0] != '0'
  {
    if n < 10 then [DigitChar(n)]
    else
      var s := NatText(n / 10) + [DigitChar(n % 10)];
      assert s[..|s| - 1] == NatText(n / 10);
      s
  }

  /** `n` copies of `c`. */
  function Repeat(c: char, n: nat): (r: string)
    ensures |r| == n && forall i :: 0 <= i < n ==> r[i] == c
  {
    if n == 0 then [] else [c] + Repeat(c, n - 1)
  }

  /** `s.padStart(width, fill)`: left-pads with `fill` up to `width` characters
      and leaves longer strings alone. */
  function PadStart(s: string, width: nat, fill: char): (r: string)
    ensures |r| == if |s| < width then width else |s|
    ensures r[|r| - |s|..] == s
    ensures forall i :: 0 <= i < |r| - |s| ==> r[i] == fill
  {
    if |s| < width then Repeat(fill, width - |s|) + s else s
  }

  lemma {:induction false} LeadingZeroIgnored(s: string)
    requires AllDigits(s)
    ensures AllDigits("0" + s) && DigitsValue("0" + s) == DigitsValue(s)
  {
    var t := "0" + s;
    if s != [] {
      assert t[..|t| - 1] == "0" + s[..|s| - 1];
      LeadingZeroIgnored(s[..|s| - 1]);
    }
  }

  /** Zero-padding a digit string keeps it a digit string denoting the same number. */
  lemma {:induction false} ZeroPadKeepsValue(s: string, width: nat)
    requires AllDigits(s)
    ensures AllDigits(PadStart(s, width, '0'))
    ensures DigitsValue(PadStart(s, width, '0')) == DigitsValue(s)
    decreases width
  {
    if |s| < width {
      var r := PadStart(s, width, '0');
      var r' := PadStart(s, width - 1, '0');
      assert Repeat('0', width - |s|) == "0" + Repeat('0', width - 1 - |s|);
      assert r == "0" + r';
      ZeroPadKeepsValue(s, width - 1);
      LeadingZeroIgnored(r');
    }
  }

  function Pow10(k: nat): (p: nat)
    ensures p >= 1
  {
    if k == 0 then 1 else 10 * Pow10(k - 1)
  }

  /** A number below 10^k is written with at most k digits. */
  lemma {:induction false} NatTextFits(n: nat, k: nat)
    requires 1 <= k && n < Pow10(k)
    ensures |NatText(n)| <= k
  {
    if n >= 10 {
      assert Pow10(k) == 10 * Pow10(k - 1);
      assert n / 10 < Pow10(k - 1);
      NatTextFits(n / 10, k - 1);
      assert |NatText(n)| == |NatText(n / 10)| + 1;
    }
  }

  /** Reading a concatenation of digit strings shifts the left part by the
      length of the right part. */
  lemma {:induction false} DigitsValueConcat(a: string, b: string)
    requires AllDigits(a) && AllDigits(b)
    ensures AllDigits(a + b)
    ensures DigitsValue(a + b) == DigitsValue(a) * Pow10(|b|) + DigitsValue(b)
    decreases |b|
  {
    if b == [] {
      assert a + b == a;
    } else {
      var b' := b[..|b| - 1];
      var x := b[|b| - 1];
      assert (a + b)[..|a + b| - 1] == a + b';
      DigitsValueConcat(a, b');
      var va, vb' := DigitsValue(a), DigitsValue(b');
      var p := Pow10(|b'|);
      var d := (x as int) - ('0' as int);
      assert DigitsValue(a + b) == (va * p + vb') * 10 + d;
      assert DigitsValue(b) == vb' * 10 + d;
      assert Pow10(|b|) == 10 * p;
      TimesTen(va, p);
    }
  }

  lemma TimesTen(a: int, b: int)
    ensures (a * b) * 10 == a * (10 * b)
  {
  }

  /** A number below 10^width, zero-padded to width, is exactly width digits
      denoting that number. */
  lemma PaddedFits(n: nat, width: nat)
    requires 1 <= width && n < Pow10(width)
    ensures |PadStart(NatText(n), width, '0')| == width
    ensures AllDigits(PadStart(NatText(n), width, '0'))
    ensures DigitsValue(PadStart(NatText(n), width, '0')) == n
  {
    NatTextFits(n, width);
    ZeroPadKeepsValue(NatText(n), width);
  }

  /** `s` with every occurrence of `c` dropped, order kept. */
  function Without(s: string, c: char): (r: string)
    ensures c !in r
    ensures |r| <= |s|
  {
    if s == [] then []
    else if s[|s| - 1] == c then Without(s[..|s| - 1], c)
    else Without(s[..|s| - 1], c) + [s[|s| - 1]]
  }

  lemma {:induction false} WithoutConcat(a: string, b: string, c: char)
    ensures Without(a + b, c) == Without(a, c) + Without(b, c)
    decreases |b|
  {
    if b == [] {
      assert a + b == a;
    } else {
      var b' := b[..|b| - 1];
      assert (a + b)[..|a + b| - 1] == a + b';
      WithoutConcat(a, b', c);
    }
  }

  lemma WithoutAroundSeparator(x: string, y: string, c: char)
    ensures Without(x + [c] + y, c) == Without(x, c) + Without(y, c)
  {
    WithoutAfterSeparator(y, c);
    WithoutConcat(x, [c] + y, c);
    assert x + [c] + y == x + ([c] + y);
  }

  lemma WithoutAfterSeparator(y: string, c: char)
    ensures Without([c] + y, c) == Without(y, c)
  {
    var s := [c];
    assert s[..0] == [];
    WithoutConcat(s, y, c);
  }

  lemma {:induction false} WithoutAbsent(s: string, c: char)
    requires c !in s
    ensures Without(s, c) == s
  {
    if s != [] {
      assert s == s[..|s| - 1] + [s[|s| - 1]];
      WithoutAbsent(s[..|s| - 1], c);
    }
  }

  /** The text after the last `sep` (all of `s` when there is none). */
  function AfterLast(s: string, sep: char): (r: string)
    ensures sep !in r
  {
    if s == [] then []
    else if s[|s| - 1] == sep then []
    else AfterLast(s[..|s| - 1], sep) + [s[|s| - 1]]
  }

  /** The text before the last `sep` (empty when there is none). */
  function BeforeLast(s: string, sep: char): string {
    if s == [] then []
    else if s[|s| - 1] == sep then s[..|s| - 1]
    else BeforeLast(s[..|s| - 1], sep)
  }

  /** Splitting at the last separator undoes joining with it, provided the
      right-hand part holds no separator. */
  lemma {:induction false} SplitAtLast(x: string, sep: char, y: string)
    requires sep !in y
    ensures AfterLast(x + [sep] + y, sep) == y
    ensures BeforeLast(x + [sep] + y, sep) == x
    decreases |y|
  {
    var s := x + [sep] + y;
    if y == [] {
      assert s[..|s| - 1] == x;
    } else {
      var y' := y[..|y| - 1];
      assert s[..|s| - 1] == x + [sep] + y';
      assert y == y' + [y[|y| - 1]];
      SplitAtLast(x, sep, y');
    }
  }
}
