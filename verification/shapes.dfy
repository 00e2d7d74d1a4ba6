/**
 The shape builders of figure.py (`Grid`, `Ellipse`, `Square`, `Triangle`,
 `Ogive`, `Airfoil` and their common base `Figure`), reduced to what is
 discrete about them: which arguments their `assert`s refuse, when
 `numpy.linspace` refuses a negative sample count, and how many points each
 coordinate array gets. The coordinate values themselves (linspace steps,
 trigonometry) are not modelled; a `Figure` records the lengths of its x
 and y arrays.
 */
module Shapes {
  import opened CoordinateFile

  /** The two ways a builder can fail. */
  datatype Error =
    | AssertionFailed       // an `assert` of the constructor does not hold
    | NegativeSampleCount   // `numpy.linspace` raises ValueError for a negative `num`
    | UnicodeDecodeError    // the downloaded airfoil file is not valid UTF-8

  datatype Result<T> = Ok(value: T) | Err(error: Error)

  /** The fields of a `Figure`, with its coordinate arrays reduced to their lengths. */
  datatype Figure = Figure(name: string, xLength: nat, yLength: nat, x0: real, y0: real, numPoints: int)

  /**
   `Figure.num_points` when the caller passes none. `Triangle`, `Ogive` and
   `Airfoil` never pass their own count on, so their figures record this.
   */
  const FigureNumPoints := 100

  // ---------------------------------------------------------------------
  // numpy and list building blocks
  // ---------------------------------------------------------------------

  /** Length of `numpy.linspace(start, stop, num)`. */
  function LinspaceLength(num: int): (r: Result<nat>)
    ensures r.Ok? <==> num >= 0
    ensures r.Ok? ==> r.value == num
    ensures r.Err? ==> r.error == NegativeSampleCount
  {
    if num < 0 then Err(NegativeSampleCount) else Ok(num)
  }

  /** Length of the list `[v] * n`: Python repeats zero times for a negative count. */
  function RepeatLength(n: int): (len: nat)
    ensures n >= 0 ==> len == n
    ensures n < 0 ==> len == 0
  {
    if n < 0 then 0 else n
  }

  /** `int(0.25 * n)`: a quarter of `n`, truncated toward zero. */
  function Quarter(n: int): (q: int)
    ensures n >= 0 ==> 0 <= q && 4 * q <= n < 4 * q + 4
    ensures n < 0 ==> q <= 0 && 4 * q - 4 < n <= 4 * q
  {
    if n >= 0 then n / 4 else -((-n) / 4)
  }

  /** `Figure.__init__`: the x and y arrays must have the same length. */
  function MakeFigure(name: string, xLength: nat, yLength: nat,
                      x0: real := 0.0, y0: real := 0.0, numPoints: int := FigureNumPoints): (r: Result<Figure>)
    ensures r.Ok? <==> xLength == yLength
    ensures r.Ok? ==> r.value == Figure(name, xLength, yLength, x0, y0, numPoints)
    ensures r.Err? ==> r.error == AssertionFailed
  {
    if xLength != yLength then Err(AssertionFailed) else Ok(Figure(name, xLength, yLength, x0, y0, numPoints))
  }

  // ---------------------------------------------------------------------
  // Grid
  // ---------------------------------------------------------------------

  /**
   The sizes of a `Grid`: `xNum` and `yNum` nodes per axis, a mesh of
   `yNum` rows by `xNum` columns, and one stream-line start per row, all at
   the abscissa `streamX`.
   */
  datatype Grid = Grid(xNum: nat, yNum: nat, meshRows: nat, meshColumns: nat, streamStarts: nat, streamX: int)

  /**
   `Grid.__init__`, with its defaults: a 50 by 50 square at the origin and
   one node per unit; a positive `num_points` overrides both axes.
   */
  function MakeGrid(x0: int := 0, y0: int := 0, width: int := 50, height: int := 50, numPoints: int := 0): (r: Result<Grid>)
    ensures r.Ok? <==> width > 0 && height > 0 && numPoints >= 0
    ensures r.Err? ==> r.error == AssertionFailed
    ensures r.Ok? ==> r.value.xNum >= 1 && r.value.yNum >= 1
    ensures r.Ok? && numPoints == 0 ==> r.value.xNum == width + 1 && r.value.yNum == height + 1
    ensures r.Ok? && numPoints > 0 ==> r.value.xNum == numPoints && r.value.yNum == numPoints
    ensures r.Ok? ==> r.value.meshRows == r.value.yNum && r.value.meshColumns == r.value.xNum
    ensures r.Ok? ==> r.value.streamStarts == r.value.yNum && r.value.streamX == x0
  {
    if !(width > 0 && height > 0 && numPoints >= 0) then
      Err(AssertionFailed)
    else
      var xNum: nat := if numPoints == 0 then width + 1 else numPoints;
      var yNum: nat := if numPoints == 0 then height + 1 else numPoints;
      // the mesh has one row per y node and one column per x node; the x
      // nodes run upwards from x0 (width > 0), so the smallest mesh abscissa,
      // where every stream line starts, is x0
      Ok(Grid(xNum, yNum, yNum, xNum, yNum, x0))
  }

  // ---------------------------------------------------------------------
  // Ellipse
  // ---------------------------------------------------------------------

  /** `Ellipse.__init__`: one point per sample angle, 100 angles unless told otherwise. */
  function Ellipse(a: real, b: real, x0: real := 0.0, y0: real := 0.0, numPoints: int := 100): (r: Result<Figure>)
    ensures r.Ok? <==> a > 0.0 && b > 0.0 && numPoints >= 0
    ensures !(a > 0.0 && b > 0.0) ==> r == Err(AssertionFailed)
    ensures a > 0.0 && b > 0.0 && numPoints < 0 ==> r == Err(NegativeSampleCount)
    ensures r.Ok? ==> r.value == Figure("Ellipse", numPoints, numPoints, x0, y0, numPoints)
  {
    if !(a > 0.0 && b > 0.0) then
      Err(AssertionFailed)
    else
      match LinspaceLength(numPoints)  // the sample angles; each gives one x and one y
      case Err(e) => Err(e)
      case Ok(n) => MakeFigure("Ellipse", n, n, x0, y0, numPoints)
  }

  // ---------------------------------------------------------------------
  // Square
  // ---------------------------------------------------------------------

  /** `Square.__init__`: four sides of a quarter of the points each, 400 points unless told otherwise. */
  function Square(a: real, b: real, x0: real := 0.0, y0: real := 0.0, numPoints: int := 400): (r: Result<Figure>)
    ensures r.Ok? <==> a > 0.0 && b > 0.0 && numPoints > -4
    ensures !(a > 0.0 && b > 0.0) ==> r == Err(AssertionFailed)
    ensures a > 0.0 && b > 0.0 && numPoints <= -4 ==> r == Err(NegativeSampleCount)
    ensures r.Ok? ==> r.value.xLength == r.value.yLength
    ensures r.Ok? ==> r.value.xLength == 4 * (if numPoints >= 0 then numPoints / 4 else 0)
    ensures r.Ok? && numPoints >= 0 ==> numPoints - 3 <= r.value.xLength <= numPoints
    ensures r.Ok? ==> r.value.name == "Square" && r.value.x0 == x0 && r.value.y0 == y0 && r.value.numPoints == numPoints
  {
    if !(a > 0.0 && b > 0.0) then
      Err(AssertionFailed)
    else
      var quarter := Quarter(numPoints);
      match LinspaceLength(quarter)  // the spaced coordinates of one side
      case Err(e) => Err(e)
      case Ok(side) =>
        // x: the right and left sides repeat one abscissa, the top is spaced
        // and the bottom is the top reversed
        var xLength := RepeatLength(quarter) + side + RepeatLength(quarter) + side;
        // y: the right side is spaced and the left is it reversed, the top
        // and bottom repeat one ordinate
        var yLength := side + RepeatLength(quarter) + side + RepeatLength(quarter);
        MakeFigure("Square", xLength, yLength, x0, y0, numPoints)
  }

  // ---------------------------------------------------------------------
  // Triangle
  // ---------------------------------------------------------------------

  /**
   `Triangle.lin_space`: the lengths of the x and y arrays of one side. A
   side that is neither sloped nor horizontal (a vertical one) repeats its x
   coordinate and spaces its y coordinates.
   */
  function SideLengths(p: seq<real>, q: seq<real>, numPoints: int): (r: Result<(nat, nat)>)
    requires |p| == 2 && |q| == 2
    ensures r.Ok? <==> numPoints >= 0
    ensures r.Ok? ==> r.value == (numPoints, numPoints)
    ensures r.Err? ==> r.error == NegativeSampleCount
  {
    var k := if q[0] != p[0] then (q[1] - p[1]) / (q[0] - p[0]) else 0.0;
    if k != 0.0 || p[1] == q[1] then
      // spaced abscissae; the ordinates lie on the line through p and q, one
      // per abscissa, or are spaced as well when the side is horizontal
      match LinspaceLength(numPoints)
      case Err(e) => Err(e)
      case Ok(n) => Ok((n, n))
    else
      // a vertical side: one abscissa repeated per point, spaced ordinates
      var xLength := RepeatLength(numPoints);
      match LinspaceLength(numPoints)
      case Err(e) => Err(e)
      case Ok(n) => Ok((xLength, n))
  }

  /**
   `Triangle.__init__`, 15 points per side unless told otherwise. The assert
   `p1 != p2 != p3` is a chained comparison: it refuses `p1 == p2` and
   `p2 == p3` but not `p1 == p3`.
   */
  function Triangle(p1: seq<real>, p2: seq<real>, p3: seq<real>, numPoints: int := 15): (r: Result<Figure>)
    ensures r.Ok? <==> |p1| == 2 && |p2| == 2 && |p3| == 2 && p1 != p2 && p2 != p3 && numPoints >= 0
    ensures !(|p1| == 2 && |p2| == 2 && |p3| == 2 && p1 != p2 && p2 != p3) ==> r == Err(AssertionFailed)
    ensures r.Ok? ==> r.value.xLength == r.value.yLength == 3 * numPoints
    ensures r.Ok? ==> r.value.name == "Triangle" && r.value.numPoints == FigureNumPoints
    ensures r.Ok? ==> r.value.x0 == p1[0] && r.value.y0 == p1[1]
  {
    if !(|p1| == |p2| == |p3| == 2) then
      Err(AssertionFailed)
    else if !(p1 != p2 && p2 != p3) then
      Err(AssertionFailed)
    else
      match SideLengths(p1, p2, numPoints)
      case Err(e) => Err(e)
      case Ok(s1) =>
        match SideLengths(p2, p3, numPoints)
        case Err(e) => Err(e)
        case Ok(s2) =>
          match SideLengths(p3, p1, numPoints)
          case Err(e) => Err(e)
          case Ok(s3) =>
            MakeFigure("Triangle", s1.0 + s2.0 + s3.0, s1.1 + s2.1 + s3.1, p1[0], p1[1])
  }

  /** A "triangle" whose first and last corners coincide passes the chained assert. */
  lemma TriangleMayCloseOnItself(p: seq<real>, q: seq<real>, numPoints: int)
    requires |p| == 2 && |q| == 2 && p != q && numPoints >= 0
    ensures Triangle(p, q, p, numPoints).Ok?
    ensures Triangle(p, q, p, numPoints).value.xLength == 3 * numPoints
  {
  }

  // ---------------------------------------------------------------------
  // Ogive
  // ---------------------------------------------------------------------

  /** `Ogive.__init__`: a flank, the nose arc, the mirrored flank and the base, `num_points` each (20 unless told otherwise). */
  function Ogive(baseRadius: real, noseRadius: real, length: real, numPoints: int := 20): (r: Result<Figure>)
    ensures r.Ok? <==> length > baseRadius > noseRadius > 0.0 && numPoints >= 0
    ensures !(length > baseRadius > noseRadius > 0.0) ==> r == Err(AssertionFailed)
    ensures r.Ok? ==> r.value.xLength == r.value.yLength == 4 * numPoints
    ensures r.Ok? ==> r.value == Figure("Ogive", 4 * numPoints, 4 * numPoints, 0.0, 0.0, FigureNumPoints)
  {
    if !(length > baseRadius > noseRadius > 0.0) then
      Err(AssertionFailed)
    else
      // the tangent point (arcsin, tan, arccos) only moves coordinates, never counts
      match LinspaceLength(numPoints)  // the flank, the arc angles and the base are each spaced this many times
      case Err(e) => Err(e)
      case Ok(n) =>
        // x: the flank, one per arc angle, the flank mirrored, the base
        var xLength := n + n + n + n;
        // y: one per flank abscissa, one per arc angle, the flank's reversed,
        // and the base's zero repeated once per point
        var yLength := n + n + n + RepeatLength(numPoints);
        MakeFigure("Ogive", xLength, yLength)
  }

  // ---------------------------------------------------------------------
  // Airfoil
  // ---------------------------------------------------------------------

  /** `Airfoil.__init__`: the coordinates `get_data` reads; there must be at least one point. */
  method Airfoil(name: string, download: Download) returns (r: Result<Figure>)
    ensures r.Ok? <==> download.Fetched? && |AcceptedLines(Split(download.text))| > 0
    ensures r.Err? && download.NotUtf8? ==> r.error == UnicodeDecodeError
    ensures r.Err? && !download.NotUtf8? ==> r.error == AssertionFailed
    ensures r.Ok? ==> var n := |AcceptedLines(Split(download.text))|;
      r.value == Figure(name, n, n, 0.0, 0.0, FigureNumPoints)
  {
    var fetch := GetData(download);
    if fetch.Undecodable? {
      return Err(UnicodeDecodeError);
    }
    if !(|fetch.xs| == |fetch.ys| > 0) {
      return Err(AssertionFailed);
    }
    r := MakeFigure(name, |fetch.xs|, |fetch.ys|);
  }

  /** The figures the repository's demonstration script builds, with the builders' defaults filling in. */
  lemma DemonstrationFigures()
    ensures MakeGrid(-10, -10, 20, 20) == Ok(Grid(21, 21, 21, 21, 21, -10))
    ensures Ellipse(8.0, 1.0, 0.0, -7.0, numPoints := 360) == Ok(Figure("Ellipse", 360, 360, 0.0, -7.0, 360))
    ensures Ellipse(2.0, 2.0, numPoints := 360) == Ok(Figure("Ellipse", 360, 360, 0.0, 0.0, 360))
    ensures Square(4.0, 4.0, 6.0, 5.0, numPoints := 360) == Ok(Figure("Square", 360, 360, 6.0, 5.0, 360))
    ensures Triangle([-3.0, 3.0], [-8.0, 3.0], [-5.5, 8.0]) == Ok(Figure("Triangle", 45, 45, -3.0, 3.0, 100))
  {
  }

  /** Each builder's own default count, when the caller gives none. */
  lemma DefaultCounts(p1: seq<real>, p2: seq<real>, p3: seq<real>)
    requires |p1| == 2 && |p2| == 2 && |p3| == 2 && p1 != p2 && p2 != p3
    ensures MakeGrid() == Ok(Grid(51, 51, 51, 51, 51, 0))
    ensures Ellipse(1.0, 1.0).value.xLength == 100
    ensures Square(1.0, 1.0).value.xLength == 400
    ensures Triangle(p1, p2, p3).value.xLength == 45
    ensures Ogive(1.0, 0.5, 2.0).value.xLength == 80
  {
  }
}
