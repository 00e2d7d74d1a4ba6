# Airfoil coordinate parsing and shape point counts (aero, figure.py)

This project models the discrete part of `figure.py` in the aero potential-flow repository. There are two pieces.

1. **The coordinate-line recogniser `UIUSHelper.parse_data`.** A line of an
   airfoil `.dat` file is accepted only when the *whole* line matches
   `\s*(\d+\.?\d+)\s+(\d+\.?\d+)\s*`. The two groups become the x and y
   coordinates. Any other line gives `(False, 0, 0)`. A numeral has at least two
   digits and no sign or exponent. So `5`, `.5`, `5.` and every negative
   coordinate are refused, while `10` and `0.5` are accepted.
2. **The parse loop of `UIUSHelper.get_data`.** The downloaded text is split
   on the exact separator `"\r\n"`. Each piece goes through `parse_data`, and
   the accepted coordinates are appended in file order.

It also models the discrete facts of the shape builders `Grid`, `Figure`,
`Ellipse`, `Square`, `Triangle`, `Ogive` and `Airfoil`: which arguments their
`assert`s refuse, when `numpy.linspace` raises for a negative sample count,
and how many points each coordinate array gets.

Modules:

- `Chars` (`chars.dfy`) defines the character classes. `\s` is the exact set of
  characters Python's `str.isspace()` accepts. `\d` is an ASCII digit.
- `Numerals` (`numerals.dfy`) covers the numeral `\d+\.?\d+`.
  - A deterministic automaton recognises it.
  - The automaton is proved equal to the regular-expression language. That
    language is written as a concatenation split (`NumberSplit`).
  - `Value` gives the numeral's exact rational value.
  - `Format` is the inverse rendering, and a round-trip lemma connects the two.
- `CoordinateLine` (`coordinate_line.dfy`) holds `ParseData`.
  - `ParseData` is a tokenizer: skip whitespace, take a token, skip whitespace, take a token, then only whitespace may remain.
  - The lemmas prove that it accepts exactly the full matches of the pattern
    (`LineSplit`, `FullMatch`) and returns their two groups.
- `CoordinateFile` (`coordinate_file.dfy`) holds `Split` (`str.split("\r\n")`) with its inverse `Join`, the filter `AcceptedLines`, and the loop `GetData`.
- `Shapes` (`shapes.dfy`) holds the builders. A `Figure` records the lengths of its x and y arrays and its other fields. Failures are `Result` values: `AssertionFailed` for an `assert`, `NegativeSampleCount` for `numpy.linspace`'s `ValueError`, and `UnicodeDecodeError` for an airfoil file that is not UTF-8. Each builder's parameters carry its default values.

## Model

| member | source | states |
|---|---|---|
| Numerals.IsNumberCorrect | figure.py:160 | The automaton accepts a string exactly when it is digits, an optional single point, then digits. This is the language of `\d+\.?\d+`. |
| Numerals.NumeralEnds | figure.py:160 | An accepted numeral is at least two characters long and starts and ends with a digit. A lone digit, a leading or trailing point and a sign are therefore never part of a match. |
| Numerals.ValueIsScaledMantissa | figure.py:163-164 | The value of a matched numeral is its digits, read without the point, divided by ten to the number of digits after the point. This is the exact number `float()` approximates. |
| Numerals.FormatWhole | figure.py:160-164 | A whole number written without a point is accepted exactly when it has at least two digits. When accepted it reads back as itself. |
| Numerals.FormatRoundTrip | figure.py:160-164 | Rendering `n / 10^scale` with `scale` fraction digits and reading it back gives `n / 10^scale`. The rendering is accepted exactly when it has a fraction part or at least two digits. |
| CoordinateLine.ParseData | figure.py:154-165 | The coordinates returned are never negative. An accepted line has at least five characters: two numerals of two characters each and a separating whitespace. |
| CoordinateLine.ParseDataIsFullMatch | figure.py:160-165 | A line is accepted exactly when the whole line matches the pattern. Every other line gives `(False, 0, 0)`. |
| CoordinateLine.ParseComplete | figure.py:160-164 | For every way the pattern matches the line, the result is `True` with x the value of the first group and y the value of the second. |
| CoordinateLine.ParseSound | figure.py:160-164 | Every accepted line is a full match of the pattern. |
| CoordinateLine.MatchUnique | figure.py:160-163 | The pattern splits a line in at most one way, so the two groups are determined by the line. |
| CoordinateLine.ForeignCharacterRejects | figure.py:160-165 | A line that contains any character other than a digit, whitespace or a decimal point is rejected. This covers signs, exponents, commas and trailing text. |
| CoordinateLine.NegativeCoordinateRejected | figure.py:160-165 | A line with a minus sign never produces a point. |
| CoordinateLine.BadTokenRejects | figure.py:160-165 | A line made of two space-free tokens separated by one space is accepted exactly when both tokens are numerals. When accepted, it yields their values in order. |
| CoordinateLine.LineRoundTrip | figure.py:160-164 | A line written as two fixed-point numbers separated by a space reads back as those two values. It is rejected when either number is written as one bare digit. |
| CoordinateLine.ExampleAccepted | figure.py:160-164 | `"0.50 12"` reads as `(True, 0.5, 12.0)`. |
| CoordinateLine.RejectsLoneDigit | figure.py:160-165 | `"5 10"` gives `(False, 0, 0)`: a single digit is not a numeral. |
| CoordinateLine.RejectsLeadingPoint | figure.py:160-165 | `".5 10"` gives `(False, 0, 0)`: a numeral cannot start with its point. |
| CoordinateLine.RejectsTrailingPoint | figure.py:160-165 | `"10 5."` gives `(False, 0, 0)`: a numeral cannot end with its point. |
| CoordinateLine.RejectsSign | figure.py:160-165 | `"0.5 -0.25"` gives `(False, 0, 0)`: a negative coordinate drops the whole line. |
| CoordinateFile.JoinSplit | figure.py:179 | Joining the pieces of the split with `"\r\n"` gives back the downloaded text. |
| CoordinateFile.SplitPiecesHaveNoSeparator | figure.py:179 | No piece of the split contains `"\r\n"`. |
| CoordinateFile.SplitJoin | figure.py:179 | Cutting a text into pieces that contain no `"\r\n"` can only be done the way `Split` does it: the split is unique. |
| CoordinateFile.AcceptedLines | figure.py:180-184 | The loop keeps at most one entry per line of the file, and every line it keeps is one `parse_data` accepts. |
| CoordinateFile.AcceptedLinesAppend | figure.py:180-184 | The filter of two concatenated runs of lines is the filter of the first followed by the filter of the second, so file order is kept. |
| CoordinateFile.AcceptedLinesMembers | figure.py:180-184 | A line is kept exactly when it is one of the file's lines and `parse_data` accepts it. |
| CoordinateFile.GetData | figure.py:171-185 | When no file is found or nothing is read, both arrays are empty. When the file is not valid UTF-8, `decode()` raises and no arrays are returned. Otherwise x and y have one entry per accepted line, in file order, and position k holds the coordinates `parse_data` reads from the k-th accepted line. |
| CoordinateFile.OneLineText | figure.py:179-184 | A text with no `"\r\n"`, such as one with bare line-feed endings, is a single line and yields at most one point. |
| Shapes.Quarter | figure.py:79 | `int(0.25 * n)` truncates toward zero: it is the quarter of `n` rounded toward zero, also for negative `n`. |
| Shapes.MakeFigure | figure.py:41-48 | A figure is built exactly when its x and y arrays have equal length. Otherwise the assertion fails. When not given, the origin is (0, 0) and `num_points` is 100. |
| Shapes.MakeGrid | figure.py:15-28 | The grid is built exactly when width > 0, height > 0 and num_points >= 0. The defaults are origin (0, 0), width 50, height 50 and num_points 0. With num_points 0 it has width+1 by height+1 nodes, otherwise num_points on each axis. The mesh is never empty, which is what `xx.min()` needs. There is one stream-line start per row, all at x0. |
| Shapes.Ellipse | figure.py:57-66 | An ellipse is built exactly when a > 0, b > 0 and num_points >= 0, where num_points defaults to 100. The assert is checked before linspace. The result has num_points points in both arrays and records x0, y0 and num_points. |
| Shapes.Square | figure.py:75-96 | A square is built exactly when a > 0, b > 0 and num_points > -4, where num_points defaults to 400. Both arrays have `4 * (num_points / 4)` points, so at most three of the requested points are lost. Between -3 and -1 there are none. At -4 and below linspace raises. |
| Shapes.SideLengths | figure.py:106-120 | A side, whether sloped, horizontal or vertical, has num_points x values and num_points y values. A negative count raises. |
| Shapes.Triangle | figure.py:122-134 | A triangle is built exactly when all three corners have two coordinates, p1 != p2, p2 != p3 and num_points >= 0, where num_points defaults to 15. It has `3 * num_points` points and its origin at p1. It records `Figure.num_points` = 100, because the builder does not pass its own count on. |
| Shapes.TriangleMayCloseOnItself | figure.py:124-125 | The chained assert `p1 != p2 != p3` lets a "triangle" with p1 == p3 through. |
| Shapes.Ogive | figure.py:230-254 | An ogive is built exactly when length > base_r > nose_r > 0 and num_points >= 0, where num_points defaults to 20. Both arrays have `4 * num_points` points and the origin is (0, 0). It records `Figure.num_points` = 100, because the builder does not pass its own count on. |
| Shapes.Airfoil | figure.py:193-199 | An airfoil is built exactly when the file was fetched and at least one line was accepted. It has one point per accepted line and its origin at (0, 0), and it records `Figure.num_points` = 100. A file that is not UTF-8 fails with the decode error, and every other failure is the assertion. |
| Shapes.DemonstrationFigures | test.py:7-22 | The grid, ellipses, square and triangle that the demonstration script builds come out as it expects, with the builders' defaults filling in. `Grid(-10, -10, 20, 20)` has 21 by 21 nodes, and the triangle without a count has 45 points. |

## Left out

- The network part of `get_data` and the singleton `UIUSHelper.__new__` are not modelled. That covers fetching the index page, the BeautifulSoup search for the `<name>.dat` link and the `urlopen` calls. `GetData` takes the outcome as input instead: not listed, no response, bytes that are not valid UTF-8, or the decoded text. Which byte sequences fail to decode is not modelled.
- `CoordinateLine.ParseData`: the coordinates are exact rationals, not IEEE doubles. Python's `float()` rounding is not modelled.
- `Chars.IsDigit`: `\d` in a Python `str` pattern also matches non-ASCII decimal digits, and `float()` accepts them. Only the ASCII digits are modelled.
- `len(find_numbers.groups()) > 1` is always true for this pattern, which has two groups. It is not modelled as a separate check.
- Shape coordinate values are not modelled: the `numpy.linspace` steps, `cos`/`sin` and `Ogive.tangent` are floating point. Only lengths, preconditions and errors are modelled.
- Shapes.MakeGrid: states only the sizes of the grid, the mesh and the stream-line starts, not the node values or their offset by x0, y0.
- Shapes.SideLengths: the slope `k` is computed on exact reals. A float slope that underflows to zero, which would pick the other branch, is not modelled. It does not change the counts.
- Shapes.Square: `int(0.25 * num_points)` is modelled as exact truncation. The float product loses precision only above 2^53, and that case is not modelled.
- Arguments of the wrong Python type are not modelled: a non-integer `num_points`, or a point tuple that is not a sequence of numbers. Neither is running Python with `-O`, which removes the `assert` statements.
- The rest of the repository is floating-point numerics or rendering and is not part of this model:
  - `source_panel_method.py`: the panel integrals and the linear solve.
  - `flow.py`: the analytic velocity fields and the random flow.
  - `circulation.py`: spline interpolation and trapezoidal integration.
  - `plot.py` and `test.py`.
