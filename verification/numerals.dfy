/**
 The coordinate numeral of the airfoil line pattern, `\d+\.?\d+`: one or
 more digits, an optional decimal point, one or more digits. It is
 recognised by a small deterministic automaton and valued exactly (as a
 rational `real`), standing in for Python's `float()` of the matched text.
 */
module Numerals {
  import opened Chars

  // ---------------------------------------------------------------------
  // The language of the pattern, as regular-expression concatenation
  // ---------------------------------------------------------------------

  /** `t` is `t[..k]` (`\d+`) followed by `t[k..j]` (`\.?`) followed by `t[j..]` (`\d+`). */
  ghost predicate NumberSplit(t: string, k: int, j: int) {
    && 0 < k <= j < |t|
    && (j == k || (j == k + 1 && t[k] == '.'))
    && AllDigits(t[..k])
    && AllDigits(t[j..])
  }

  /** `t` is in the language of `\d+\.?\d+`. */
  ghost predicate IsNumberSpec(t: string) {
    exists k, j :: NumberSplit(t, k, j)
  }

  // ---------------------------------------------------------------------
  // The recogniser
  // ---------------------------------------------------------------------

  /** States of the automaton for `\d+\.?\d+`. */
  datatype State =
    | Start       // nothing read
    | OneDigit    // exactly one digit read
    | Digits      // two or more digits, no point (accepting)
    | AfterPoint  // digits followed by the point
    | Fraction    // digits, point, digits (accepting)
    | Dead        // no extension can match

  function Step(q: State, c: char): State {
    match q
    case Start => if IsDigit(c) then OneDigit else Dead
    case OneDigit | Digits =>
      if IsDigit(c) then Digits else if c == '.' then AfterPoint else Dead
    case AfterPoint | Fraction => if IsDigit(c) then Fraction else Dead
    case Dead => Dead
  }

  function Run(q: State, t: string): State
    decreases |t|
  {
    if t == [] then q else Run(Step(q, t[0]), t[1..])
  }

  predicate IsNumber(t: string) {
    Run(Start, t) in {Digits, Fraction}
  }

  // ---------------------------------------------------------------------
  // What each state means
  // ---------------------------------------------------------------------

  ghost predicate PointAt(t: string, k: int) {
    && 1 <= k && k + 1 < |t|
    && t[k] == '.'
    && AllDigits(t[..k])
    && AllDigits(t[k + 1..])
  }

  /** The words that lead from `Start` to the live state `q`. */
  ghost predicate Live(t: string, q: State) {
    match q
    case Start => |t| == 0
    case OneDigit => |t| == 1 && IsDigit(t[0])
    case Digits => |t| >= 2 && AllDigits(t)
    case AfterPoint => |t| >= 2 && t[|t| - 1] == '.' && AllDigits(t[..|t| - 1])
    case Fraction => exists k :: PointAt(t, k)
    case Dead => false
  }

  /** The words that lead from `Start` to `q`; `Dead` takes every word no live state takes. */
  ghost predicate Reaches(t: string, q: State) {
    if q == Dead then
      && !Live(t, Start) && !Live(t, OneDigit) && !Live(t, Digits)
      && !Live(t, AfterPoint) && !Live(t, Fraction)
    else
      Live(t, q)
  }

  lemma FractionFacts(t: string)
    requires Live(t, Fraction)
    ensures |t| >= 3 && IsDigit(t[|t| - 1]) && !AllDigits(t)
  {
    var k :| PointAt(t, k);
    assert t[k + 1..][|t| - k - 2] == t[|t| - 1];
    assert t[k] == '.';
  }

  /** The last character each live language ends with. */
  lemma LastCharacter(t: string)
    ensures Live(t, OneDigit) || Live(t, Digits) || Live(t, Fraction) ==> IsDigit(t[|t| - 1])
    ensures Live(t, AfterPoint) ==> t[|t| - 1] == '.'
    ensures Live(t, Fraction) ==> |t| >= 3 && !AllDigits(t)
  {
    if Live(t, Fraction) {
      FractionFacts(t);
    }
  }

  /** No word reaches two different live states. */
  lemma Exclusive(t: string)
    ensures Live(t, Start) ==> !Live(t, OneDigit) && !Live(t, Digits) && !Live(t, AfterPoint) && !Live(t, Fraction)
    ensures Live(t, OneDigit) ==> !Live(t, Digits) && !Live(t, AfterPoint) && !Live(t, Fraction)
    ensures Live(t, Digits) ==> !Live(t, AfterPoint) && !Live(t, Fraction)
    ensures Live(t, AfterPoint) ==> !Live(t, Fraction)
  {
    LastCharacter(t);
  }

  /** Dropping the last character of a live word lands in the state it was read from. */
  lemma PrefixMeaning(u: string, c: char)
    ensures Live(u + [c], OneDigit) ==> Live(u, Start)
    ensures Live(u + [c], Digits) ==> Live(u, OneDigit) || Live(u, Digits)
    ensures Live(u + [c], AfterPoint) ==> Live(u, OneDigit) || Live(u, Digits)
    ensures Live(u + [c], Fraction) ==> Live(u, AfterPoint) || Live(u, Fraction)
  {
    var t := u + [c];
    assert t[..|t| - 1] == u;
    if Live(t, Digits) && |u| >= 2 {
      assert forall m :: 0 <= m < |u| ==> u[m] == t[m];
    }
    if Live(t, Fraction) {
      var k :| PointAt(t, k);
      assert u[..k] == t[..k];
      if k < |u| - 1 {
        assert u[k + 1..] == t[k + 1..|t| - 1];
        assert PointAt(u, k);
      }
    }
  }

  lemma {:induction false} RunAppend(q: State, t: string, c: char)
    ensures Run(q, t + [c]) == Step(Run(q, t), c)
    decreases |t|
  {
    if t == [] {
      assert t + [c] == [c];
      assert [c][1..] == [];
    } else {
      assert (t + [c])[1..] == t[1..] + [c];
      RunAppend(Step(q, t[0]), t[1..], c);
    }
  }

  /** Reading one more character moves between the state languages exactly as `Step` does. */
  lemma StepPreservesMeaning(u: string, q: State, c: char)
    requires Reaches(u, q)
    ensures Reaches(u + [c], Step(q, c))
  {
    var t := u + [c];
    assert t[..|t| - 1] == u;
    assert t[|t| - 1] == c;
    LastCharacter(t);
    PrefixMeaning(u, c);
    Exclusive(u);
    match q
    case AfterPoint =>
      if IsDigit(c) {
        assert t[..|u| - 1] == u[..|u| - 1];
        assert t[|u|..] == [c];
        assert PointAt(t, |u| - 1);
      }
    case Fraction =>
      if IsDigit(c) {
        var k :| PointAt(u, k);
        assert t[..k] == u[..k];
        assert t[k + 1..] == u[k + 1..] + [c];
        assert PointAt(t, k);
      }
    case _ =>
  }

  /** The automaton's state after reading `t` is the state whose language contains `t`. */
  lemma {:induction false} RunMeaning(t: string)
    ensures Reaches(t, Run(Start, t))
    decreases |t|
  {
    if t != [] {
      var u := t[..|t| - 1];
      assert t == u + [t[|t| - 1]];
      RunMeaning(u);
      RunAppend(Start, u, t[|t| - 1]);
      StepPreservesMeaning(u, Run(Start, u), t[|t| - 1]);
    }
  }

  /** The automaton accepts exactly the language of `\d+\.?\d+`. */
  lemma IsNumberCorrect(t: string)
    ensures IsNumber(t) <==> IsNumberSpec(t)
  {
    RunMeaning(t);
    if IsNumberSpec(t) {
      var k, j :| NumberSplit(t, k, j);
      if j == k {
        assert t == t[..k] + t[k..];
        assert Reaches(t, Digits);
      } else {
        assert PointAt(t, k);
        assert Reaches(t, Fraction);
      }
    }
    if IsNumber(t) {
      if Run(Start, t) == Digits {
        assert t[..1] == [t[0]];
        assert NumberSplit(t, 1, 1);
      } else {
        var k :| PointAt(t, k);
        assert NumberSplit(t, k, k + 1);
      }
    }
  }

  // ---------------------------------------------------------------------
  // Values
  // ---------------------------------------------------------------------

  function Pow10(n: nat): (p: nat)
    ensures p >= 1
  {
    if n == 0 then 1 else 10 * Pow10(n - 1)
  }

  /** The natural number a digit string denotes; leading zeros are allowed. */
  function NatOf(ds: string): nat
    requires AllDigits(ds)
    decreases |ds|
  {
    if ds == [] then 0 else 10 * NatOf(ds[..|ds| - 1]) + DigitValue(ds[|ds| - 1])
  }

  /** Index of the first decimal point in `t`, or `|t|` when there is none. */
  function PointIndex(t: string): (i: nat)
    ensures i <= |t|
    ensures i < |t| ==> t[i] == '.'
    ensures forall m :: 0 <= m < i ==> t[m] != '.'
  {
    if t == [] then 0 else if t[0] == '.' then 0 else 1 + PointIndex(t[1..])
  }

  /** A recognised numeral is digits, or digits, one point, digits. */
  lemma NumberShape(t: string)
    requires IsNumber(t)
    ensures var i := PointIndex(t);
      && AllDigits(t[..i])
      && (i == |t| ==> |t| >= 2)
      && (i < |t| ==> 1 <= i && i + 1 < |t| && AllDigits(t[i + 1..]))
  {
    RunMeaning(t);
    var i := PointIndex(t);
    if Run(Start, t) == Fraction {
      var k :| PointAt(t, k);
      assert forall m :: 0 <= m < k ==> t[m] == t[..k][m];
      assert i == k;
    }
  }

  /** A numeral starts and ends with a digit, so it has at least two digits. */
  lemma NumeralEnds(t: string)
    ensures IsNumber(t) ==> |t| >= 2 && IsDigit(t[0]) && IsDigit(t[|t| - 1])
  {
    if IsNumber(t) {
      NumberShape(t);
      var i := PointIndex(t);
      if i < |t| {
        assert t[0] == t[..i][0];
        assert t[|t| - 1] == t[i + 1..][|t| - i - 2];
      }
    }
  }

  /** The digits of a numeral with its point removed. */
  function Mantissa(t: string): string
    requires IsNumber(t)
  {
    var i := PointIndex(t);
    if i < |t| then t[..i] + t[i + 1..] else t
  }

  /** How many digits follow the point (0 when there is no point). */
  function Scale(t: string): nat
    requires IsNumber(t)
  {
    var i := PointIndex(t);
    if i < |t| then |t| - i - 1 else 0
  }

  /** The exact value of a recognised numeral: integer part plus fraction part. */
  function Value(t: string): (v: real)
    requires IsNumber(t)
    ensures v >= 0.0
  {
    NumberShape(t);
    var i := PointIndex(t);
    if i < |t| then
      NatOf(t[..i]) as real + NatOf(t[i + 1..]) as real / Pow10(|t| - i - 1) as real
    else
      NatOf(t) as real
  }

  /** Appending digits shifts the value left by their count. */
  lemma {:induction false} NatOfAppend(a: string, b: string)
    requires AllDigits(a) && AllDigits(b)
    ensures AllDigits(a + b)
    ensures NatOf(a + b) == NatOf(a) * Pow10(|b|) + NatOf(b)
    decreases |b|
  {
    if b == [] {
      assert a + b == a;
    } else {
      var b' := b[..|b| - 1];
      var d := DigitValue(b[|b| - 1]);
      assert (a + b)[..|a + b| - 1] == a + b';
      assert (a + b)[|a + b| - 1] == b[|b| - 1];
      NatOfAppend(a, b');
      var u, x, p, y := NatOf(a + b'), NatOf(a), Pow10(|b'|), NatOf(b');
      assert NatOf(a + b) == 10 * u + d;
      assert NatOf(b) == 10 * y + d;
      assert Pow10(|b|) == 10 * p;
      ShiftDigit(u, x, p, y, d);
    }
  }

  lemma ShiftDigit(u: int, x: int, p: int, y: int, d: int)
    requires u == x * p + y
    ensures 10 * u + d == x * (10 * p) + (10 * y + d)
  {
  }

  lemma SplitValue(hi: nat, lo: nat, p: nat)
    requires p >= 1
    ensures (hi * p + lo) as real / p as real == hi as real + lo as real / p as real
  {
  }

  /** The value is the mantissa scaled down by ten to the number of fraction digits. */
  lemma {:induction false} ValueIsScaledMantissa(t: string)
    requires IsNumber(t)
    ensures AllDigits(Mantissa(t))
    ensures Value(t) == NatOf(Mantissa(t)) as real / Pow10(Scale(t)) as real
  {
    NumberShape(t);
    var i := PointIndex(t);
    if i < |t| {
      ValueAtPoint(t, i);
      NatOfAppend(t[..i], t[i + 1..]);
      var a, b, p := NatOf(t[..i]), NatOf(t[i + 1..]), Pow10(|t| - i - 1);
      ScaledSum(NatOf(Mantissa(t)), a, b, p, Value(t));
    }
  }

  // ---------------------------------------------------------------------
  // Rendering: the inverse direction
  // ---------------------------------------------------------------------

  /** Shortest decimal digits of `n` ("0" for zero). */
  function ToDigits(n: nat): (ds: string)
    ensures |ds| >= 1 && AllDigits(ds)
    ensures |ds| >= 2 <==> n >= 10
  {
    if n < 10 then [DigitChar(n)] else ToDigits(n / 10) + [DigitChar(n % 10)]
  }

  lemma {:induction false} ToDigitsValue(n: nat)
    ensures NatOf(ToDigits(n)) == n
  {
    var ds := ToDigits(n);
    if n >= 10 {
      ToDigitsValue(n / 10);
      assert ds[..|ds| - 1] == ToDigits(n / 10);
    }
  }

  function Zeros(n: nat): (z: string)
    ensures |z| == n && AllDigits(z)
  {
    if n == 0 then [] else Zeros(n - 1) + ['0']
  }

  lemma {:induction false} ZerosValue(n: nat)
    ensures NatOf(Zeros(n)) == 0
  {
    if n > 0 {
      ZerosValue(n - 1);
      assert Zeros(n)[..n - 1] == Zeros(n - 1);
    }
  }

  /** The digits of `n`, padded with leading zeros to at least `width` characters. */
  function PaddedDigits(n: nat, width: nat): (ds: string)
    ensures AllDigits(ds) && |ds| >= width && |ds| >= 1
  {
    var d := ToDigits(n);
    if |d| >= width then d else Zeros(width - |d|) + d
  }

  lemma {:induction false} PaddedDigitsValue(n: nat, width: nat)
    ensures NatOf(PaddedDigits(n, width)) == n
  {
    var d := ToDigits(n);
    ToDigitsValue(n);
    if |d| < width {
      var z := Zeros(width - |d|);
      assert PaddedDigits(n, width) == z + d;
      NatOfAppend(z, d);
      ZerosValue(width - |d|);
      ZeroShift(NatOf(z), Pow10(|d|), NatOf(d));
    }
  }

  lemma ZeroShift(a: int, p: int, b: int)
    requires a == 0
    ensures a * p + b == b
  {
  }

  /** The fixed-point rendering of `n / 10^scale`, as a coordinate file writes it: `scale` fraction digits. */
  function Format(n: nat, scale: nat): string {
    var ds := PaddedDigits(n, scale + 1);
    if scale == 0 then ds else ds[..|ds| - scale] + "." + ds[|ds| - scale..]
  }

  /** A string of digits has no decimal point. */
  lemma DigitsHaveNoPoint(t: string)
    requires AllDigits(t)
    ensures PointIndex(t) == |t|
  {
    assert forall m :: 0 <= m < |t| ==> t[m] != '.';
  }

  /** With no fraction digits the rendering is the bare digit string. */
  lemma FormatWhole(n: nat)
    ensures IsNumber(Format(n, 0)) <==> n >= 10
    ensures IsNumber(Format(n, 0)) ==> Value(Format(n, 0)) == n as real
  {
    var t := Format(n, 0);
    assert t == ToDigits(n);
    ToDigitsValue(n);
    IsNumberCorrect(t);
    if |t| >= 2 {
      assert t[..1] == [t[0]];
      assert NumberSplit(t, 1, 1);
      DigitsHaveNoPoint(t);
    }
  }

  /** With fraction digits the rendering is digits, a point, then exactly `scale` digits. */
  lemma FractionShape(n: nat, scale: nat)
    requires scale > 0
    ensures |PaddedDigits(n, scale + 1)| > scale
    ensures IsNumber(Format(n, scale))
    ensures PointIndex(Format(n, scale)) == |PaddedDigits(n, scale + 1)| - scale
    ensures Format(n, scale)[..|PaddedDigits(n, scale + 1)| - scale]
      == PaddedDigits(n, scale + 1)[..|PaddedDigits(n, scale + 1)| - scale]
    ensures Format(n, scale)[|PaddedDigits(n, scale + 1)| - scale + 1..]
      == PaddedDigits(n, scale + 1)[|PaddedDigits(n, scale + 1)| - scale..]
  {
    var ds := PaddedDigits(n, scale + 1);
    var t := Format(n, scale);
    var k := |ds| - scale;
    assert t[..k] == ds[..k];
    assert t[k + 1..] == ds[k..];
    assert NumberSplit(t, k, k + 1);
    IsNumberCorrect(t);
    DigitsHaveNoPoint(ds[..k]);
    assert forall m :: 0 <= m < k ==> t[m] == ds[..k][m];
  }

  /** The value of a numeral with a point at `k`: whole part plus fraction digits over their power of ten. */
  lemma ValueAtPoint(t: string, k: nat)
    requires IsNumber(t) && k < |t| && PointIndex(t) == k
    ensures AllDigits(t[..k]) && AllDigits(t[k + 1..])
    ensures Value(t) == NatOf(t[..k]) as real + NatOf(t[k + 1..]) as real / Pow10(|t| - k - 1) as real
  {
    NumberShape(t);
  }

  /** The padded digits, cut `scale` digits from the end, still spell `n`. */
  lemma PaddedDigitsSplit(n: nat, scale: nat)
    requires scale > 0
    ensures |PaddedDigits(n, scale + 1)| > scale
    ensures var ds := PaddedDigits(n, scale + 1); var k := |ds| - scale;
      NatOf(ds[..k]) * Pow10(scale) + NatOf(ds[k..]) == n
  {
    var ds := PaddedDigits(n, scale + 1);
    var k := |ds| - scale;
    PaddedDigitsValue(n, scale + 1);
    assert ds == ds[..k] + ds[k..];
    NatOfAppend(ds[..k], ds[k..]);
  }

  /** With fraction digits the rendering is accepted and reads back as `n / 10^scale`. */
  lemma FormatFraction(n: nat, scale: nat)
    requires scale > 0
    ensures IsNumber(Format(n, scale))
    ensures Value(Format(n, scale)) == n as real / Pow10(scale) as real
  {
    var ds := PaddedDigits(n, scale + 1);
    var t := Format(n, scale);
    var k := |ds| - scale;
    FractionShape(n, scale);
    ValueAtPoint(t, k);
    PaddedDigitsSplit(n, scale);
    assert |t| - k - 1 == scale;
    var a, b, p := NatOf(ds[..k]), NatOf(ds[k..]), Pow10(scale);
    ScaledSum(n, a, b, p, Value(t));
  }

  lemma ScaledSum(n: nat, a: nat, b: nat, p: nat, v: real)
    requires p >= 1 && n == a * p + b
    requires v == a as real + b as real / p as real
    ensures v == n as real / p as real
  {
    SplitValue(a, b, p);
  }

  /** Rendering then valuing gives back `n / 10^scale`; only a bare single digit is refused. */
  lemma FormatRoundTrip(n: nat, scale: nat)
    ensures IsNumber(Format(n, scale)) <==> scale > 0 || n >= 10
    ensures IsNumber(Format(n, scale)) ==> Value(Format(n, scale)) == n as real / Pow10(scale) as real
  {
    if scale == 0 {
      FormatWhole(n);
    } else {
      FormatFraction(n, scale);
    }
  }

  /** A rendering is a non-empty string of digits and at most one point. */
  lemma FormatAlphabet(n: nat, scale: nat)
    ensures |Format(n, scale)| >= 1
    ensures forall m :: 0 <= m < |Format(n, scale)| ==> IsDigit(Format(n, scale)[m]) || Format(n, scale)[m] == '.'
  {
    var ds := PaddedDigits(n, scale + 1);
    var t := Format(n, scale);
    if scale > 0 {
      var k := |ds| - scale;
      forall m | 0 <= m < |t|
        ensures IsDigit(t[m]) || t[m] == '.'
      {
        if m < k {
          assert t[m] == ds[m];
        } else if m > k {
          assert t[m] == ds[m - 1];
        }
      }
    }
  }
}
