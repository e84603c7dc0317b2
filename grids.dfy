/** Image grids: the numpy arrays the engines work on, as values and as
    mutable buffers, and the zero padding that gives every pixel a full
    neighbourhood window.

    A grid is indexed [row][column][channel]. A 2-D (grey) numpy image is a
    grid with one channel; a 3-D (colour) image keeps its channel count. */
module Grids {

  type Grid = seq<seq<seq<int>>>

  datatype Shape = Shape(rows: nat, cols: nat, chans: nat)

  /** g is a rectangular rows x cols x chans grid. */
  predicate HasShape(g: Grid, s: Shape)
  {
    |g| == s.rows &&
    forall r :: 0 <= r < s.rows ==>
      |g[r]| == s.cols && forall c :: 0 <= c < s.cols ==> |g[r][c]| == s.chans
  }

  predicate InShape(s: Shape, r: int, c: int, k: int)
  {
    0 <= r < s.rows && 0 <= c < s.cols && 0 <= k < s.chans
  }

  /** A numpy array handed to the engines' entry points: its number of
      dimensions and its cells (a 2-D array has one channel). */
  datatype NdArray = NdArray(ndim: nat, shape: Shape, data: Grid)
  {
    predicate Valid()
    {
      HasShape(data, shape) && (ndim == 2 ==> shape.chans == 1)
    }
  }

  /** Two grids of one shape that agree on every cell are equal. */
  lemma GridExt(g: Grid, h: Grid, s: Shape)
    requires HasShape(g, s) && HasShape(h, s)
    requires forall r, c, k :: InShape(s, r, c, k) ==> g[r][c][k] == h[r][c][k]
    ensures g == h
  {
    forall r | 0 <= r < s.rows
      ensures g[r] == h[r]
    {
      forall c | 0 <= c < s.cols
        ensures g[r][c] == h[r][c]
      {
        assert forall k :: 0 <= k < s.chans ==> g[r][c][k] == h[r][c][k] by {
          forall k | 0 <= k < s.chans ensures g[r][c][k] == h[r][c][k] {
            assert InShape(s, r, c, k);
          }
        }
      }
    }
  }

  function ShapeOf(a: array3<int>): Shape
  {
    Shape(a.Length0, a.Length1, a.Length2)
  }

  /** The current contents of a buffer, as a value. */
  function Cells(a: array3<int>): (g: Grid)
    reads a
    ensures HasShape(g, ShapeOf(a))
    ensures forall r, c, k :: InShape(ShapeOf(a), r, c, k) ==> g[r][c][k] == a[r, c, k]
  {
    seq(a.Length0, r requires 0 <= r < a.Length0 reads a =>
      seq(a.Length1, c requires 0 <= c < a.Length1 reads a =>
        seq(a.Length2, k requires 0 <= k < a.Length2 reads a => a[r, c, k])))
  }

  /** The all-zero grid of shape s (np.zeros). */
  function Zeros(s: Shape): (g: Grid)
    ensures HasShape(g, s)
    ensures forall r, c, k :: InShape(s, r, c, k) ==> g[r][c][k] == 0
  {
    seq(s.rows, r => seq(s.cols, c => seq(s.chans, k => 0)))
  }

  function Padded(s: Shape, p: nat): Shape
  {
    Shape(s.rows + 2 * p, s.cols + 2 * p, s.chans)
  }

  predicate InBorder(s: Shape, p: nat, r: int, c: int)
  {
    r < p || r >= s.rows - p || c < p || c >= s.cols - p
  }

  /** np.pad with p zero cells on each side of the two spatial axes; the
      channel axis is not padded. */
  function Pad(g: Grid, s: Shape, p: nat): (h: Grid)
    requires HasShape(g, s)
    ensures HasShape(h, Padded(s, p))
    ensures forall r, c, k :: InShape(Padded(s, p), r, c, k) ==>
      h[r][c][k] == if InBorder(Padded(s, p), p, r, c) then 0 else g[r - p][c - p][k]
  {
    seq(s.rows + 2 * p, r requires 0 <= r < s.rows + 2 * p =>
      seq(s.cols + 2 * p, c requires 0 <= c < s.cols + 2 * p =>
        seq(s.chans, k requires 0 <= k < s.chans =>
          if r < p || r >= s.rows + p || c < p || c >= s.cols + p then 0 else g[r - p][c - p][k])))
  }

  /** The slice [p : rows - p, p : cols - p] of a padded grid of shape s. */
  function Unpad(h: Grid, s: Shape, p: nat): (g: Grid)
    requires HasShape(h, s) && 2 * p <= s.rows && 2 * p <= s.cols
    ensures HasShape(g, Shape(s.rows - 2 * p, s.cols - 2 * p, s.chans))
    ensures forall r, c, k :: InShape(Shape(s.rows - 2 * p, s.cols - 2 * p, s.chans), r, c, k) ==>
      g[r][c][k] == h[r + p][c + p][k]
  {
    seq(s.rows - 2 * p, r requires 0 <= r < s.rows - 2 * p =>
      seq(s.cols - 2 * p, c requires 0 <= c < s.cols - 2 * p =>
        seq(s.chans, k requires 0 <= k < s.chans => h[r + p][c + p][k])))
  }

  /** Stripping the padding gives back the image. */
  lemma UnpadPad(g: Grid, s: Shape, p: nat)
    requires HasShape(g, s)
    ensures Unpad(Pad(g, s, p), Padded(s, p), p) == g
  {
    var u := Unpad(Pad(g, s, p), Padded(s, p), p);
    forall r, c, k | InShape(s, r, c, k)
      ensures u[r][c][k] == g[r][c][k]
    {
      assert InShape(Padded(s, p), r + p, c + p, k);
    }
    GridExt(u, g, s);
  }

  /** A padded grid whose border is zero is the padding of its interior. */
  lemma PadUnpad(w: Grid, s: Shape, p: nat)
    requires HasShape(w, Padded(s, p))
    requires forall r, c, k :: InShape(Padded(s, p), r, c, k) && InBorder(Padded(s, p), p, r, c) ==> w[r][c][k] == 0
    ensures Pad(Unpad(w, Padded(s, p), p), s, p) == w
  {
    var ps := Padded(s, p);
    var u := Unpad(w, ps, p);
    forall r, c, k | InShape(ps, r, c, k)
      ensures Pad(u, s, p)[r][c][k] == w[r][c][k]
    {
      if !InBorder(ps, p, r, c) {
        assert InShape(s, r - p, c - p, k);
      }
    }
    GridExt(Pad(u, s, p), w, ps);
  }

  /** A new buffer holding g. */
  method FromGrid(g: Grid, s: Shape) returns (a: array3<int>)
    requires HasShape(g, s)
    ensures fresh(a) && ShapeOf(a) == s && Cells(a) == g
  {
    a := new int[s.rows, s.cols, s.chans]((r, c, k) requires InShape(s, r, c, k) => g[r][c][k]);
    GridExt(Cells(a), g, s);
  }

  /** ndarray.copy(): a new buffer with the contents of a. */
  method Copy(a: array3<int>) returns (b: array3<int>)
    ensures fresh(b) && ShapeOf(b) == ShapeOf(a) && Cells(b) == Cells(a)
  {
    b := new int[a.Length0, a.Length1, a.Length2]((r, c, k) reads a requires InShape(ShapeOf(a), r, c, k) => a[r, c, k]);
    GridExt(Cells(b), Cells(a), ShapeOf(a));
  }

  /** The ValueErrors the entry points raise for arrays of the wrong rank. */
  datatype ShapeError = NotAnImage | BadMask

  datatype Result<T> = Success(value: T) | Failure(error: ShapeError)

  /** What an entry point returns: the last image, or with surplus set the
      whole list of images. */
  datatype Restored = Final(image: Grid) | Frames(images: seq<Grid>)
}
