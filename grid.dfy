/** Images as the feature extractors hold them after loading: a 2-D array
    (height × width) or a 3-D array (height × width × channels), and the
    two-axis slice `img[top:bottom, left:right]` taken of them. */
module Grid {

  /** A half-open window of pixel indices: rows [top, bottom), columns [left, right). */
  datatype Rect = Rect(top: int, bottom: int, left: int, right: int)

  /** An image with `ndim == 2` (one value per pixel) or `ndim == 3` (a channel vector per pixel). */
  datatype Image<T> = Plane(plane: seq<seq<T>>) | Cube(cube: seq<seq<seq<T>>>)

  /** What `img[i, j]` yields: a scalar for a 2-D image, the whole channel vector for a 3-D one. */
  datatype Pixel<T> = Gray(value: T) | Color(channels: seq<T>)

  function NDim<T>(img: Image<T>): nat {
    if img.Plane? then 2 else 3
  }

  function Height<T>(img: Image<T>): nat {
    match img
    case Plane(g) => |g|
    case Cube(g) => |g|
  }

  /** Every row of `img` holds exactly `w` pixels. */
  predicate RowsOfWidth<T>(img: Image<T>, w: int) {
    match img
    case Plane(g) => forall i :: 0 <= i < |g| ==> |g[i]| == w
    case Cube(g) => forall i :: 0 <= i < |g| ==> |g[i]| == w
  }

  /** Row `i`, column `j` is a pixel of `img`. */
  predicate InImage<T>(img: Image<T>, i: int, j: int) {
    match img
    case Plane(g) => 0 <= i < |g| && 0 <= j < |g[i]|
    case Cube(g) => 0 <= i < |g| && 0 <= j < |g[i]|
  }

  /** `img[i, j]`: row `i` (along y), column `j` (along x). */
  function At<T>(img: Image<T>, i: int, j: int): Pixel<T>
    requires InImage(img, i, j)
  {
    match img
    case Plane(g) => Gray(g[i][j])
    case Cube(g) => Color(g[i][j])
  }

  /** `img.shape == shape`: [height, width] for a 2-D image, [height, width, channels] for a 3-D one.
      An image with no rows carries no width, so any width (and channel count) fits it: for a crop of
      height 0 the width numpy reports, `(0, w)`, is not constrained here. */
  predicate HasShape<T>(img: Image<T>, shape: seq<int>) {
    match img
    case Plane(g) =>
      |shape| == 2 && |g| == shape[0] &&
      forall i :: 0 <= i < |g| ==> |g[i]| == shape[1]
    case Cube(g) =>
      |shape| == 3 && |g| == shape[0] &&
      forall i :: 0 <= i < |g| ==> |g[i]| == shape[1] && forall j :: 0 <= j < |g[i]| ==> |g[i][j]| == shape[2]
  }

  predicate GridFits<P>(g: seq<seq<P>>, r: Rect) {
    0 <= r.top <= r.bottom <= |g| && 0 <= r.left <= r.right &&
    forall i :: 0 <= i < |g| ==> r.right <= |g[i]|
  }

  /** The window lies inside the image: no bound of the slice is negative or past the end of its axis. */
  predicate Fits<T>(img: Image<T>, r: Rect) {
    match img
    case Plane(g) => GridFits(g, r)
    case Cube(g) => GridFits(g, r)
  }

  /** `g[top:bottom, left:right]` for an in-bounds window; whatever a pixel holds is copied whole. */
  function SliceGrid<P>(g: seq<seq<P>>, r: Rect): (s: seq<seq<P>>)
    requires GridFits(g, r)
    ensures |s| == r.bottom - r.top
    ensures forall i :: 0 <= i < |s| ==> |s[i]| == r.right - r.left
    ensures forall i, j :: 0 <= i < |s| && 0 <= j < |s[i]| ==> s[i][j] == g[r.top + i][r.left + j]
  {
    seq(r.bottom - r.top, i requires 0 <= i < r.bottom - r.top => g[r.top + i][r.left..r.right])
  }

  /** For an image of known shape with at least one row, a window fits exactly when it lies
      within [0, height) × [0, width). */
  lemma FitsInShape<T>(img: Image<T>, shape: seq<int>, r: Rect)
    requires HasShape(img, shape) && shape[0] > 0
    ensures Fits(img, r) <==> 0 <= r.top <= r.bottom <= shape[0] && 0 <= r.left <= r.right <= shape[1]
  {
    match img
    case Plane(g) =>
      assert |g[0]| == shape[1];
    case Cube(g) =>
      assert |g[0]| == shape[1];
  }
}
