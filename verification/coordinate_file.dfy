/**
 The parse loop of `UIUSHelper.get_data` in figure.py: the downloaded text
 is split on the exact separator `"\r\n"`, each piece is handed to
 `parse_data`, and the coordinates of the accepted pieces are appended, in
 file order, to the x and y arrays.

 The download (the HTML index search and the HTTP requests) is not
 modelled: it is an input saying which of the three outcomes occurred.
 */
module CoordinateFile {
  import opened CoordinateLine

  /** What the download part of `get_data` produced. */
  datatype Download =
    | NotListed          // no link to `<name>.dat` in the index page
    | NoResponse         // the request for the file returned nothing
    | NotUtf8            // the file's bytes are not valid UTF-8, so `decode()` raises
    | Fetched(text: string)

  /** What `get_data` gives back: the two coordinate arrays, or the `UnicodeDecodeError` it lets escape. */
  datatype Fetch =
    | Points(xs: seq<real>, ys: seq<real>)
    | Undecodable

  const Separator: string := "\r\n"

  // ---------------------------------------------------------------------
  // str.split("\r\n")
  // ---------------------------------------------------------------------

  ghost predicate SeparatorAt(s: string, i: int) {
    0 <= i && i + 1 < |s| && s[i] == '\r' && s[i + 1] == '\n'
  }

  /** `"\r\n"` occurs in `s`. */
  ghost predicate HasSeparator(s: string) {
    exists i :: SeparatorAt(s, i)
  }

  /** Python's `s.split("\r\n")`: the pieces between non-overlapping occurrences, left to right. */
  function Split(s: string): (lines: seq<string>)
    ensures |lines| >= 1
    decreases |s|
  {
    if s == [] then
      [""]
    else if |s| >= 2 && s[0] == '\r' && s[1] == '\n' then
      [""] + Split(s[2..])
    else
      var rest := Split(s[1..]);
      [[s[0]] + rest[0]] + rest[1..]
  }

  /** `"\r\n".join(lines)`: the inverse of `Split`. */
  function Join(lines: seq<string>): string
    requires |lines| >= 1
  {
    if |lines| == 1 then lines[0] else lines[0] + Separator + Join(lines[1..])
  }

  /** Splitting then joining gives back the text. */
  lemma {:induction false} JoinSplit(s: string)
    ensures Join(Split(s)) == s
    decreases |s|
  {
    if s == [] {
    } else if |s| >= 2 && s[0] == '\r' && s[1] == '\n' {
      JoinSplit(s[2..]);
      assert s == Separator + s[2..];
    } else {
      var rest := Split(s[1..]);
      JoinSplit(s[1..]);
      JoinCons(s[0], rest);
      assert s == [s[0]] + s[1..];
    }
  }

  /** A character put in front of the first piece ends up in front of the joined text. */
  lemma {:induction false} JoinCons(c: char, lines: seq<string>)
    requires |lines| >= 1
    ensures Join([[c] + lines[0]] + lines[1..]) == [c] + Join(lines)
  {
    var first := [c] + lines[0];
    var xs := [first] + lines[1..];
    assert |xs| == |lines| && xs[0] == first;
    if |lines| > 1 {
      var tail := Join(lines[1..]);
      assert xs[1..] == lines[1..];
      assert Join(xs) == first + Separator + tail;
      assert Join(lines) == lines[0] + Separator + tail;
      assert first + Separator + tail == [c] + (lines[0] + Separator + tail);
    }
  }

  /** No piece of a split contains the separator. */
  lemma {:induction false} SplitPiecesHaveNoSeparator(s: string)
    ensures forall k :: 0 <= k < |Split(s)| ==> !HasSeparator(Split(s)[k])
    decreases |s|
  {
    if s == [] {
      assert !SeparatorAt("", 0);
    } else if |s| >= 2 && s[0] == '\r' && s[1] == '\n' {
      SplitPiecesHaveNoSeparator(s[2..]);
      assert forall i :: !SeparatorAt("", i);
      assert forall k :: 1 <= k < |Split(s)| ==> Split(s)[k] == Split(s[2..])[k - 1];
    } else {
      var rest := Split(s[1..]);
      SplitPiecesHaveNoSeparator(s[1..]);
      assert forall k :: 1 <= k < |Split(s)| ==> Split(s)[k] == rest[k];
      FirstPiecePrefix(s[1..]);
      assert |rest[0]| >= 1 ==> rest[0][0] == s[1];
      ConsNoSeparator(s[0], rest[0]);
    }
  }

  /** A character in front of a separator-free piece adds a separator only if it is `'\r'` before a `'\n'`. */
  lemma {:induction false} ConsNoSeparator(c: char, p: string)
    requires !HasSeparator(p)
    requires |p| >= 1 ==> !(c == '\r' && p[0] == '\n')
    ensures !HasSeparator([c] + p)
  {
    assert forall i :: SeparatorAt([c] + p, i) ==> SeparatorAt(p, i - 1);
  }

  /** The first piece of a split is a prefix of the text. */
  lemma FirstPiecePrefix(s: string)
    ensures |Split(s)[0]| <= |s|
    ensures Split(s)[0] == s[..|Split(s)[0]|]
  {
    JoinSplit(s);
    var lines := Split(s);
    if |lines| > 1 {
      assert s == lines[0] + (Separator + Join(lines[1..]));
    }
  }

  /** A text without the separator is one piece. */
  lemma {:induction false} SplitWithoutSeparator(p: string)
    requires !HasSeparator(p)
    ensures Split(p) == [p]
    decreases |p|
  {
    if p != [] {
      assert !SeparatorAt(p, 0);
      assert forall i :: SeparatorAt(p[1..], i) ==> SeparatorAt(p, i + 1);
      SplitWithoutSeparator(p[1..]);
      assert [p[0]] + p[1..] == p;
    }
  }

  /** A separator-free piece followed by the separator is split off whole. */
  lemma {:induction false} SplitAfterPiece(p: string, t: string)
    requires !HasSeparator(p)
    ensures Split(p + Separator + t) == [p] + Split(t)
    decreases |p|
  {
    var s := p + Separator + t;
    if p == [] {
      assert s == Separator + t;
      assert s[2..] == t;
    } else {
      assert !SeparatorAt(p, 0);
      assert |p| == 1 ==> s[1] == '\r';
      assert |p| > 1 ==> s[1] == p[1];
      assert forall i :: SeparatorAt(p[1..], i) ==> SeparatorAt(p, i + 1);
      assert s[1..] == p[1..] + Separator + t;
      SplitAfterPiece(p[1..], t);
      assert [p[0]] + p[1..] == p;
    }
  }

  /** Splitting is the only way to cut the text into separator-free pieces. */
  lemma {:induction false} SplitJoin(lines: seq<string>)
    requires |lines| >= 1
    requires forall k :: 0 <= k < |lines| ==> !HasSeparator(lines[k])
    ensures Split(Join(lines)) == lines
    decreases |lines|
  {
    if |lines| == 1 {
      SplitWithoutSeparator(lines[0]);
    } else {
      SplitJoin(lines[1..]);
      SplitAfterPiece(lines[0], Join(lines[1..]));
      assert lines == [lines[0]] + lines[1..];
    }
  }

  // ---------------------------------------------------------------------
  // Filtering the lines
  // ---------------------------------------------------------------------

  /** The lines `parse_data` accepts, in file order. */
  function AcceptedLines(lines: seq<string>): (acc: seq<string>)
    ensures |acc| <= |lines|
    ensures forall k :: 0 <= k < |acc| ==> ParseData(acc[k]).ok
  {
    if lines == [] then
      []
    else
      var last := lines[|lines| - 1];
      AcceptedLines(lines[..|lines| - 1]) + (if ParseData(last).ok then [last] else [])
  }

  /** Filtering distributes over concatenation: the order of the file is kept. */
  lemma {:induction false} AcceptedLinesAppend(a: seq<string>, b: seq<string>)
    ensures AcceptedLines(a + b) == AcceptedLines(a) + AcceptedLines(b)
    decreases |b|
  {
    if b == [] {
      assert a + b == a;
    } else {
      var b' := b[..|b| - 1];
      assert (a + b)[..|a + b| - 1] == a + b';
      AcceptedLinesAppend(a, b');
    }
  }

  /** A line is kept exactly when it is one of the lines and `parse_data` accepts it. */
  lemma {:induction false} AcceptedLinesMembers(lines: seq<string>, l: string)
    ensures l in AcceptedLines(lines) <==> l in lines && ParseData(l).ok
    decreases |lines|
  {
    if lines != [] {
      var init := lines[..|lines| - 1];
      AcceptedLinesMembers(init, l);
      assert lines == init + [lines[|lines| - 1]];
    }
  }

  /** One more line of the file adds its point when it is accepted, and nothing otherwise. */
  lemma AcceptedLinesStep(lines: seq<string>, i: nat)
    requires i < |lines|
    ensures AcceptedLines(lines[..i + 1]) ==
      AcceptedLines(lines[..i]) + if ParseData(lines[i]).ok then [lines[i]] else []
  {
    assert lines[..i + 1][..i] == lines[..i];
  }

  /** `xs` and `ys` hold, position by position, the coordinates `parse_data` reads from `acc`. */
  ghost predicate PointsOf(acc: seq<string>, xs: seq<real>, ys: seq<real>) {
    && |xs| == |acc| && |ys| == |acc|
    && forall k :: 0 <= k < |acc| ==> ParseData(acc[k]) == Parsed(true, xs[k], ys[k])
  }

  lemma PointsOfAppend(acc: seq<string>, xs: seq<real>, ys: seq<real>, line: string)
    requires PointsOf(acc, xs, ys)
    requires ParseData(line).ok
    ensures PointsOf(acc + [line], xs + [ParseData(line).x], ys + [ParseData(line).y])
  {
  }

  /** `UIUSHelper.get_data` after the download: the coordinates of the accepted lines, in order. */
  method GetData(download: Download) returns (r: Fetch)
    ensures r.Undecodable? <==> download.NotUtf8?
    ensures download.NotListed? || download.NoResponse? ==> r == Points([], [])
    ensures download.Fetched? ==> r.Points? && PointsOf(AcceptedLines(Split(download.text)), r.xs, r.ys)
  {
    var xs: seq<real>, ys: seq<real> := [], [];
    if download.NotListed? || download.NoResponse? {
      return Points(xs, ys);
    }
    if download.NotUtf8? {
      return Undecodable;
    }
    var coords := Split(download.text);
    for i := 0 to |coords|
      invariant PointsOf(AcceptedLines(coords[..i]), xs, ys)
    {
      AcceptedLinesStep(coords, i);
      var res := ParseData(coords[i]);
      if res.ok {
        PointsOfAppend(AcceptedLines(coords[..i]), xs, ys, coords[i]);
        xs := xs + [res.x];
        ys := ys + [res.y];
      }
    }
    assert coords[..|coords|] == coords;
    return Points(xs, ys);
  }

  /** Without a `"\r\n"` the whole text is one line, so it yields at most one point. */
  lemma OneLineText(text: string)
    requires !HasSeparator(text)
    ensures |AcceptedLines(Split(text))| <= 1
  {
    SplitWithoutSeparator(text);
  }
}
