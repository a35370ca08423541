/** Values shared by the pose-estimation model: optional entries, pixel
    points and the network's heatmap tensor. */
module PoseTypes {

  /** A detected location or its absence (`None` in the program). */
  datatype Option<+T> = None | Some(value: T)

  /** An `(x, y)` pixel or grid coordinate: `x` is the column, `y` the row. */
  datatype Point = Point(x: int, y: int)

  /** One 2-D heatmap slice, indexed `[row][column]`. */
  type Grid = seq<seq<real>>

  /** The network output `nnoutput`, indexed `[batch][channel][row][column]`. */
  type Tensor = seq<seq<Grid>>

  /** A non-empty rectangular grid, as a slice of an array of shape (rows, columns). */
  predicate IsGrid(g: Grid)
  {
    |g| > 0 && |g[0]| > 0 && forall r | 0 <= r < |g| :: |g[r]| == |g[0]|
  }

  /** The first `n` channel slices of batch 0 exist and are grids. */
  predicate HasChannels(t: Tensor, n: nat)
  {
    |t| > 0 && n <= |t[0]| && forall i | 0 <= i < n :: IsGrid(t[0][i])
  }

  /** A point inside a `width` by `height` image. */
  predicate InImage(p: Point, width: int, height: int)
  {
    0 <= p.x < width && 0 <= p.y < height
  }
}
