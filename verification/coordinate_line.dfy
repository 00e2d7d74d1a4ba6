/**
 One line of an airfoil coordinate file, as `UIUSHelper.parse_data` in
 figure.py reads it: the whole line must match
 `\s*(\d+\.?\d+)\s+(\d+\.?\d+)\s*`, and then the two groups are the x and y
 coordinates; otherwise the answer is `(False, 0, 0)`.

 The recogniser is a tokenizer: skip whitespace, take the run of
 non-whitespace characters, skip whitespace, take the next run, and require
 that only whitespace remains and that both runs are numerals. The lemmas
 prove it accepts exactly the full matches of the pattern and returns the
 pattern's two groups.
 */
module CoordinateLine {
  import opened Chars
  import opened Numerals

  /** The `(ok, x, y)` triple `parse_data` returns. */
  datatype Parsed = Parsed(ok: bool, x: real, y: real)

  const Rejected := Parsed(false, 0.0, 0.0)

  // ---------------------------------------------------------------------
  // The pattern, as regular-expression concatenation
  // ---------------------------------------------------------------------

  /**
   `s` is `s[..a]` (`\s*`), `s[a..b]` (first group), `s[b..c]` (`\s+`),
   `s[c..d]` (second group), `s[d..]` (`\s*`).
   */
  ghost predicate LineSplit(s: string, a: int, b: int, c: int, d: int) {
    && 0 <= a <= b < c <= d <= |s|
    && AllSpaces(s[..a])
    && IsNumberSpec(s[a..b])
    && AllSpaces(s[b..c])
    && IsNumberSpec(s[c..d])
    && AllSpaces(s[d..])
  }

  /** `re.fullmatch` of the coordinate pattern succeeds on `s`. */
  ghost predicate FullMatch(s: string) {
    exists a, b, c, d :: LineSplit(s, a, b, c, d)
  }

  // ---------------------------------------------------------------------
  // The tokenizer
  // ---------------------------------------------------------------------

  /** The end of the run of whitespace starting at `i`. */
  function SkipSpaces(s: string, i: nat): (j: nat)
    requires i <= |s|
    ensures i <= j <= |s|
    ensures AllSpaces(s[i..j])
    ensures j == |s| || !IsSpace(s[j])
    decreases |s| - i
  {
    if i == |s| || !IsSpace(s[i]) then i else SkipSpaces(s, i + 1)
  }

  /** The end of the run of non-whitespace characters starting at `i`. */
  function SkipToken(s: string, i: nat): (j: nat)
    requires i <= |s|
    ensures i <= j <= |s|
    ensures NoSpaces(s[i..j])
    ensures j == |s| || IsSpace(s[j])
    decreases |s| - i
  {
    if i == |s| || IsSpace(s[i]) then i else SkipToken(s, i + 1)
  }

  /** `UIUSHelper.parse_data`: the two coordinates of a line, or `(False, 0, 0)`. */
  function ParseData(s: string): (r: Parsed)
    ensures r.x >= 0.0 && r.y >= 0.0
    ensures r.ok ==> |s| >= 5
  {
    var a := SkipSpaces(s, 0);
    var b := SkipToken(s, a);
    var c := SkipSpaces(s, b);
    var d := SkipToken(s, c);
    if SkipSpaces(s, d) == |s| && IsNumber(s[a..b]) && IsNumber(s[c..d]) then
      TokensAreSeparated(s, a, b, c, d);
      Parsed(true, Value(s[a..b]), Value(s[c..d]))
    else
      Rejected
  }

  // ---------------------------------------------------------------------
  // Facts about the tokenizer
  // ---------------------------------------------------------------------

  /** Two numeral tokens found by the tokenizer are separated by whitespace. */
  lemma TokensAreSeparated(s: string, a: nat, b: nat, c: nat, d: nat)
    requires a <= |s|
    requires b == SkipToken(s, a) && c == SkipSpaces(s, b) && d == SkipToken(s, c)
    requires IsNumber(s[a..b]) && IsNumber(s[c..d])
    ensures a + 2 <= b < c && c + 2 <= d
  {
    NumeralEnds(s[a..b]);
    NumeralEnds(s[c..d]);
  }

  /** The run of whitespace starting at `i` is the only one ending at a non-space or the end. */
  lemma SkipSpacesUnique(s: string, i: nat, j: nat)
    requires i <= j <= |s|
    requires AllSpaces(s[i..j])
    requires j == |s| || !IsSpace(s[j])
    ensures SkipSpaces(s, i) == j
  {
    var k := SkipSpaces(s, i);
    assert forall m :: i <= m < j ==> IsSpace(s[m]) by {
      forall m | i <= m < j ensures IsSpace(s[m]) { assert s[m] == s[i..j][m - i]; }
    }
    assert forall m :: i <= m < k ==> IsSpace(s[m]) by {
      forall m | i <= m < k ensures IsSpace(s[m]) { assert s[m] == s[i..k][m - i]; }
    }
  }

  lemma SkipTokenUnique(s: string, i: nat, j: nat)
    requires i <= j <= |s|
    requires NoSpaces(s[i..j])
    requires j == |s| || IsSpace(s[j])
    ensures SkipToken(s, i) == j
  {
    var k := SkipToken(s, i);
    assert forall m :: i <= m < j ==> !IsSpace(s[m]) by {
      forall m | i <= m < j ensures !IsSpace(s[m]) { assert s[m] == s[i..j][m - i]; }
    }
    assert forall m :: i <= m < k ==> !IsSpace(s[m]) by {
      forall m | i <= m < k ensures !IsSpace(s[m]) { assert s[m] == s[i..k][m - i]; }
    }
  }

  /** A numeral of the pattern contains no whitespace and has at least two characters. */
  lemma NumberSpecShape(t: string)
    requires IsNumberSpec(t)
    ensures |t| >= 2 && NoSpaces(t)
    ensures forall m :: 0 <= m < |t| ==> IsDigit(t[m]) || t[m] == '.'
  {
    var k, j :| NumberSplit(t, k, j);
    forall m | 0 <= m < |t|
      ensures IsDigit(t[m]) || t[m] == '.'
    {
      if m < k {
        assert t[m] == t[..k][m];
      } else if m >= j {
        assert t[m] == t[j..][m - j];
      }
    }
  }

  /** Any split of the line by the pattern is the one the tokenizer finds. */
  lemma TokenizerFinds(s: string, a: int, b: int, c: int, d: int)
    requires LineSplit(s, a, b, c, d)
    ensures SkipSpaces(s, 0) == a
    ensures SkipToken(s, a) == b
    ensures SkipSpaces(s, b) == c
    ensures SkipToken(s, c) == d
    ensures SkipSpaces(s, d) == |s|
  {
    NumberSpecShape(s[a..b]);
    NumberSpecShape(s[c..d]);
    assert s[a] == s[a..b][0];
    assert s[b] == s[b..c][0];
    assert s[c] == s[c..d][0];
    assert d < |s| ==> s[d] == s[d..][0];
    assert s[0..a] == s[..a];
    assert s[d..|s|] == s[d..];
    SkipSpacesUnique(s, 0, a);
    SkipTokenUnique(s, a, b);
    SkipSpacesUnique(s, b, c);
    SkipTokenUnique(s, c, d);
    SkipSpacesUnique(s, d, |s|);
  }

  // ---------------------------------------------------------------------
  // ParseData is the pattern's full match
  // ---------------------------------------------------------------------

  /** Every full match is accepted, with the first group as x and the second as y. */
  lemma ParseComplete(s: string, a: int, b: int, c: int, d: int)
    requires LineSplit(s, a, b, c, d)
    ensures IsNumber(s[a..b]) && IsNumber(s[c..d])
    ensures ParseData(s) == Parsed(true, Value(s[a..b]), Value(s[c..d]))
  {
    TokenizerFinds(s, a, b, c, d);
    IsNumberCorrect(s[a..b]);
    IsNumberCorrect(s[c..d]);
  }

  /** Every accepted line is a full match whose groups give the coordinates. */
  lemma ParseSound(s: string)
    requires ParseData(s).ok
    ensures exists a, b, c, d :: LineSplit(s, a, b, c, d)
  {
    var a := SkipSpaces(s, 0);
    var b := SkipToken(s, a);
    var c := SkipSpaces(s, b);
    var d := SkipToken(s, c);
    TokensAreSeparated(s, a, b, c, d);
    IsNumberCorrect(s[a..b]);
    IsNumberCorrect(s[c..d]);
    assert s[..a] == s[0..a];
    assert s[d..] == s[d..SkipSpaces(s, d)];
    assert LineSplit(s, a, b, c, d);
  }

  /** A line is accepted exactly when the whole line matches the pattern; otherwise the result is `(False, 0, 0)`. */
  lemma ParseDataIsFullMatch(s: string)
    ensures ParseData(s).ok <==> FullMatch(s)
    ensures !FullMatch(s) ==> ParseData(s) == Rejected
  {
    if ParseData(s).ok {
      ParseSound(s);
    }
    if FullMatch(s) {
      var a, b, c, d :| LineSplit(s, a, b, c, d);
      ParseComplete(s, a, b, c, d);
    }
  }

  /** The pattern splits a line in at most one way, so its groups are determined by the line. */
  lemma MatchUnique(s: string, a: int, b: int, c: int, d: int, a': int, b': int, c': int, d': int)
    requires LineSplit(s, a, b, c, d) && LineSplit(s, a', b', c', d')
    ensures a == a' && b == b' && c == c' && d == d'
  {
    TokenizerFinds(s, a, b, c, d);
    TokenizerFinds(s, a', b', c', d');
  }

  // ---------------------------------------------------------------------
  // What the pattern refuses
  // ---------------------------------------------------------------------

  /** A line the pattern matches holds only digits, whitespace and decimal points. */
  lemma MatchAlphabet(s: string)
    ensures FullMatch(s) ==> forall i :: 0 <= i < |s| ==> IsDigit(s[i]) || IsSpace(s[i]) || s[i] == '.'
  {
    if FullMatch(s) {
      var a, b, c, d :| LineSplit(s, a, b, c, d);
      NumberSpecShape(s[a..b]);
      NumberSpecShape(s[c..d]);
      forall i | 0 <= i < |s|
        ensures IsDigit(s[i]) || IsSpace(s[i]) || s[i] == '.'
      {
        if i < a {
          assert s[i] == s[..a][i];
        } else if i < b {
          assert s[i] == s[a..b][i - a];
        } else if i < c {
          assert s[i] == s[b..c][i - b];
        } else if i < d {
          assert s[i] == s[c..d][i - c];
        } else {
          assert s[i] == s[d..][i - d];
        }
      }
    }
  }

  /**
   A line with any character other than a digit, whitespace or a decimal
   point is rejected: a sign, an exponent, a comma or trailing text.
   */
  lemma ForeignCharacterRejects(s: string, i: int)
    requires 0 <= i < |s|
    requires !IsDigit(s[i]) && !IsSpace(s[i]) && s[i] != '.'
    ensures ParseData(s) == Rejected
  {
    MatchAlphabet(s);
    ParseDataIsFullMatch(s);
  }

  /** In particular a line with a negative coordinate never yields a point. */
  lemma NegativeCoordinateRejected(s: string)
    requires '-' in s
    ensures ParseData(s) == Rejected
  {
    var i :| 0 <= i < |s| && s[i] == '-';
    ForeignCharacterRejects(s, i);
  }

  /** A line is rejected when one of its two tokens is not a numeral of the pattern. */
  lemma BadTokenRejects(s: string, x: string, y: string)
    requires s == x + " " + y
    requires |x| > 0 && NoSpaces(x) && |y| > 0 && NoSpaces(y)
    ensures ParseData(s).ok <==> IsNumber(x) && IsNumber(y)
    ensures ParseData(s).ok ==> ParseData(s) == Parsed(true, Value(x), Value(y))
  {
    var b := |x|;
    assert s[..0] == [];
    assert s[0..b] == x;
    assert s[b..b + 1] == " ";
    assert s[b + 1..|s|] == y;
    assert s[|s|..] == [];
    assert s[b] == ' ';
    SkipSpacesUnique(s, 0, 0);
    SkipTokenUnique(s, 0, b);
    SkipSpacesUnique(s, b, b + 1);
    SkipTokenUnique(s, b + 1, |s|);
    SkipSpacesUnique(s, |s|, |s|);
  }

  /**
   Writing two fixed-point numbers on a line and reading the line back gives
   their values, unless one of them is written as a single bare digit.
   */
  lemma LineRoundTrip(n1: nat, scale1: nat, n2: nat, scale2: nat)
    ensures var line := Format(n1, scale1) + " " + Format(n2, scale2);
      ParseData(line) ==
        if (scale1 > 0 || n1 >= 10) && (scale2 > 0 || n2 >= 10) then
          Parsed(true, n1 as real / Pow10(scale1) as real, n2 as real / Pow10(scale2) as real)
        else
          Rejected
  {
    var x, y := Format(n1, scale1), Format(n2, scale2);
    FormatAlphabet(n1, scale1);
    FormatAlphabet(n2, scale2);
    assert NoSpaces(x) by {
      forall m | 0 <= m < |x| ensures !IsSpace(x[m]) { DigitsAreNotSpaces(x[m]); }
    }
    assert NoSpaces(y) by {
      forall m | 0 <= m < |y| ensures !IsSpace(y[m]) { DigitsAreNotSpaces(y[m]); }
    }
    FormatRoundTrip(n1, scale1);
    FormatRoundTrip(n2, scale2);
    BadTokenRejects(x + " " + y, x, y);
  }

  /** A coordinate-file line and its two values. */
  lemma ExampleAccepted()
    ensures ParseData("0.50 12") == Parsed(true, 0.5, 12.0)
  {
    var x, y := "0.50", "12";
    assert IsNumber(x) && IsNumber(y);
    assert PointIndex(x) == 1;
    assert x[..1] == "0" && x[2..] == "50";
    assert NatOf("50") == 50 by { assert "50"[..1] == "5"; }
    assert Value(x) == 0.5;
    assert NatOf(y) == 12 by { assert y[..1] == "1"; }
    assert Value(y) == 12.0;
    BadTokenRejects("0.50 12", x, y);
  }

  /** A single digit is not a numeral: `"5 10"` is refused. */
  lemma RejectsLoneDigit()
    ensures ParseData("5 10") == Rejected
  {
    NumeralEnds("5");
    BadTokenRejects("5 10", "5", "10");
  }

  /** A numeral cannot start with its point: `".5 10"` is refused. */
  lemma RejectsLeadingPoint()
    ensures ParseData(".5 10") == Rejected
  {
    NumeralEnds(".5");
    BadTokenRejects(".5 10", ".5", "10");
  }

  /** A numeral cannot end with its point: `"10 5."` is refused. */
  lemma RejectsTrailingPoint()
    ensures ParseData("10 5.") == Rejected
  {
    NumeralEnds("5.");
    BadTokenRejects("10 5.", "10", "5.");
  }

  /** A negative coordinate is refused: `"0.5 -0.25"`. */
  lemma RejectsSign()
    ensures ParseData("0.5 -0.25") == Rejected
  {
    NegativeCoordinateRejected("0.5 -0.25");
  }
}
