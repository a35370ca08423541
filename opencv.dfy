/** The parts of the vision library that the pose code relies on, stated as
    the contracts the code assumes of them: the maximum half of
    `cv.minMaxLoc`, and an image that records `cv.line` and `cv.ellipse`
    calls as abstract drawing operations. */
module OpenCv {
  import opened PoseTypes

  /** A colour in the library's blue-green-red channel order. */
  datatype Bgr = Bgr(b: int, g: int, r: int)

  /** The `thickness` value the library calls `FILLED`. */
  const FILLED: int := -1

  /** One call of a drawing primitive, with the arguments it was given. */
  datatype DrawOp =
    | Line(pt1: Point, pt2: Point, color: Bgr, thickness: int)
    | Ellipse(center: Point, axes: (int, int), angle: int, startAngle: int,
              endAngle: int, color: Bgr, thickness: int)

  /** The maximum value of a grid and its location as an `(x, y)` pair. */
  datatype Extremum = Extremum(value: real, loc: Point)

  /** `p` holds the largest value of `g`. */
  ghost predicate IsMaxLoc(g: Grid, p: Point)
    requires IsGrid(g)
  {
    0 <= p.y < |g| && 0 <= p.x < |g[0]| &&
    forall r, c | 0 <= r < |g| && 0 <= c < |g[r]| :: g[r][c] <= g[p.y][p.x]
  }

  /** Every cell before `p` in row-major order is strictly smaller than `p`'s. */
  ghost predicate FirstInScan(g: Grid, p: Point)
    requires IsGrid(g) && 0 <= p.y < |g| && 0 <= p.x < |g[0]|
  {
    forall r, c | 0 <= r < |g| && 0 <= c < |g[r]| && (r < p.y || (r == p.y && c < p.x)) ::
      g[r][c] < g[p.y][p.x]
  }

  /** Index of the first largest element of a non-empty row. */
  function RowArgMax(row: seq<real>): (c: nat)
    requires |row| > 0
    ensures c < |row|
    ensures forall k | 0 <= k < |row| :: row[k] <= row[c]
    ensures forall k | 0 <= k < c :: row[k] < row[c]
    decreases |row|
  {
    if |row| == 1 then 0
    else
      var c := RowArgMax(row[..|row| - 1]);
      if row[|row| - 1] > row[c] then |row| - 1 else c
  }

  /** The maximum half of `cv.minMaxLoc`: the largest value of the grid and
      its `(column, row)` location, the first one in row-major order when
      several cells hold it. */
  function MaxLoc(g: Grid): (m: Extremum)
    requires IsGrid(g)
    ensures IsMaxLoc(g, m.loc) && FirstInScan(g, m.loc)
    ensures m.value == g[m.loc.y][m.loc.x]
    decreases |g|
  {
    var last := |g| - 1;
    var c := RowArgMax(g[last]);
    if last == 0 then Extremum(g[0][c], Point(c, 0))
    else
      var m := MaxLoc(g[..last]);
      if g[last][c] > m.value then Extremum(g[last][c], Point(c, last)) else m
  }

  /** The location `MaxLoc` reports is the only one that is a maximum and
      first in row-major order, so the tie-break fixes it completely. */
  lemma MaxLocUnique(g: Grid, p: Point)
    requires IsGrid(g) && IsMaxLoc(g, p) && FirstInScan(g, p)
    ensures p == MaxLoc(g).loc
  {
  }

  /** The image being annotated: its size is fixed and drawing appends to a
      log of operations that stands for the changed pixels. */
  class Canvas {
    const width: nat
    const height: nat
    var ops: seq<DrawOp>

    constructor (width: nat, height: nat)
      ensures this.width == width && this.height == height && ops == []
    {
      this.width := width;
      this.height := height;
      ops := [];
    }

    /** `cv.line(image, pt1, pt2, color, thickness)`. */
    method DrawLine(pt1: Point, pt2: Point, color: Bgr, thickness: int)
      modifies this
      ensures ops == old(ops) + [Line(pt1, pt2, color, thickness)]
    {
      ops := ops + [Line(pt1, pt2, color, thickness)];
    }

    /** `cv.ellipse(image, center, axes, angle, startAngle, endAngle, color, thickness)`. */
    method DrawEllipse(center: Point, axes: (int, int), angle: int, startAngle: int,
                       endAngle: int, color: Bgr, thickness: int)
      modifies this
      ensures ops == old(ops) + [Ellipse(center, axes, angle, startAngle, endAngle, color, thickness)]
    {
      ops := ops + [Ellipse(center, axes, angle, startAngle, endAngle, color, thickness)];
    }
  }
}
