/** The inpainting engine (libs/inpaint.py): the Inpaint class, which
    repaints the scratched pixels named by a mask with the first level of
    least inpainting energy over their 5x5 neighbourhood, and the
    bayes_inpaint entry point.

    The image is padded by two zero cells so that every scratched pixel has
    a full 5x5 window. A sweep reads only from `prior`, writes the scratched
    pixels of a copy of it, and then replaces `prior` by that copy. */
module InpaintEngine {
  import opened Grids
  import opened Energy

  /** The shape of the one-channel mask that goes with an image of shape s. */
  function MaskShape(s: Shape): Shape
  {
    Shape(s.rows, s.cols, 1)
  }

  /** Pixel (r, c) of a one-channel mask is scratched: its value exceeds 200. */
  predicate Scratched(m: Grid, s: Shape, r: int, c: int)
    requires HasShape(m, s) && s.chans >= 1 && 0 <= r < s.rows && 0 <= c < s.cols
  {
    m[r][c][0] > 200
  }

  /** Row-major order on pixel coordinates. */
  predicate Before(p: (int, int), q: (int, int))
  {
    p.0 < q.0 || (p.0 == q.0 && p.1 < q.1)
  }

  /** The scratched pixels of row r among its first n columns, left to right. */
  function RowCoords(m: Grid, s: Shape, r: int, n: nat): (ps: seq<(int, int)>)
    requires HasShape(m, s) && s.chans >= 1 && 0 <= r < s.rows && n <= s.cols
    ensures forall p :: p in ps <==> p.0 == r && 0 <= p.1 < n && Scratched(m, s, r, p.1)
    ensures forall i, j :: 0 <= i < j < |ps| ==> ps[i].0 == r && Before(ps[i], ps[j])
  {
    if n == 0 then []
    else RowCoords(m, s, r, n - 1) + (if Scratched(m, s, r, n - 1) then [(r, n - 1)] else [])
  }

  /** np.where(m > 200) as a list of (row, column) pairs: the scratched pixels
      of the first n rows, in row-major order. */
  function MaskCoords(m: Grid, s: Shape, n: nat): (ps: seq<(int, int)>)
    requires HasShape(m, s) && s.chans >= 1 && n <= s.rows
    ensures forall p :: p in ps <==> 0 <= p.0 < n && 0 <= p.1 < s.cols && Scratched(m, s, p.0, p.1)
    ensures forall i, j :: 0 <= i < j < |ps| ==> Before(ps[i], ps[j])
  {
    if n == 0 then []
    else
      var head := MaskCoords(m, s, n - 1);
      var row := RowCoords(m, s, n - 1, s.cols);
      assert forall i :: 0 <= i < |head| ==> head[i] in head;
      assert forall j :: 0 <= j < |row| ==> row[j] in row;
      head + row
  }

  /** The coordinate list the engine keeps: the scratched pixels of the mask
      padded by two zero cells, in row-major order. */
  function MaskList(mask: Grid, s: Shape): seq<(int, int)>
    requires HasShape(mask, MaskShape(s))
  {
    MaskCoords(Pad(mask, MaskShape(s), 2), Padded(MaskShape(s), 2), s.rows + 4)
  }

  /** coords lists exactly the pixels of the padded image whose unpadded
      position the mask marks as scratched. */
  ghost predicate ListsScratched(coords: seq<(int, int)>, mask: Grid, s: Shape)
    requires HasShape(mask, MaskShape(s))
  {
    forall p :: p in coords <==>
      2 <= p.0 < s.rows + 2 && 2 <= p.1 < s.cols + 2 && Scratched(mask, MaskShape(s), p.0 - 2, p.1 - 2)
  }

  /** coords is in strictly increasing row-major order. */
  ghost predicate RowMajor(coords: seq<(int, int)>)
  {
    forall i, j :: 0 <= i < j < |coords| ==> Before(coords[i], coords[j])
  }

  /** Every listed pixel lies at least two cells inside a grid of shape s,
      so that its 5x5 window is in bounds. */
  ghost predicate InBand(ps: seq<(int, int)>, s: Shape)
  {
    forall p :: p in ps ==> 2 <= p.0 < s.rows - 2 && 2 <= p.1 < s.cols - 2
  }

  /** The padding is zero and zero is not above 200, so the listed pixels are
      exactly the scratched pixels of the unpadded mask, shifted by two, in
      row-major order. */
  lemma MaskListScratched(mask: Grid, s: Shape)
    requires HasShape(mask, MaskShape(s))
    ensures ListsScratched(MaskList(mask, s), mask, s)
    ensures RowMajor(MaskList(mask, s))
  {
    var ms := MaskShape(s);
    var pm := Pad(mask, ms, 2);
    forall r, c | 0 <= r < s.rows + 4 && 0 <= c < s.cols + 4
      ensures Scratched(pm, Padded(ms, 2), r, c) <==>
        2 <= r < s.rows + 2 && 2 <= c < s.cols + 2 && Scratched(mask, ms, r - 2, c - 2)
    {
      assert InShape(Padded(ms, 2), r, c, 0);
    }
  }

  /** The listed pixels all lie in the band of the padded image. */
  lemma ScratchedInBand(coords: seq<(int, int)>, mask: Grid, s: Shape)
    requires HasShape(mask, MaskShape(s)) && ListsScratched(coords, mask, s)
    ensures InBand(coords, Padded(s, 2))
  {
  }

  /** The constructor's mask extraction: np.where(mask > 200) on the padded
      mask, as a list of (row, column) pairs. */
  method FindScratched(mask: Grid, s: Shape) returns (coords: seq<(int, int)>)
    requires HasShape(mask, MaskShape(s))
    ensures ListsScratched(coords, mask, s) && RowMajor(coords)
  {
    coords := MaskList(mask, s);
    MaskListScratched(mask, s);
  }

  // -----------------------------------------------------------------------
  // Reference definition on unpadded images

  /** The number of channels a sweep repaints: range(3) for a colour image,
      the single channel of a grey one. */
  function Channels(color: bool): nat
  {
    if color then 3 else 1
  }

  /** The 5x5 window of channel k of g centred on (r, c), row-major: entry
      5 * i + j is g[r - 2 + i][c - 2 + j][k]. */
  function Window5(g: Grid, s: Shape, r: int, c: int, k: int): (w: seq<int>)
    requires HasShape(g, s) && 2 <= r < s.rows - 2 && 2 <= c < s.cols - 2 && 0 <= k < s.chans
    ensures |w| == 25
  {
    seq(25, t requires 0 <= t < 25 => g[r - 2 + t / 5][c - 2 + t % 5][k])
  }

  /** The level a repainted cell takes: the first minimiser of the
      inpainting energy of its 5x5 window in g. */
  function Repainted(g: Grid, s: Shape, cutoff: int, L: nat, r: int, c: int, k: int): int
    requires HasShape(g, s) && 2 <= r < s.rows - 2 && 2 <= c < s.cols - 2 && 0 <= k < s.chans && L > 0
  {
    ArgMin(InpaintEnergy(Window5(g, s, r, c, k), cutoff, L))
  }

  /** The prior before the first sweep, without its padding: a scratched
      pixel holds its seed in every channel, any other pixel the image's
      value. */
  function Seed(img: Grid, mask: Grid, seeds: Grid, s: Shape): (g: Grid)
    requires HasShape(img, s) && HasShape(mask, MaskShape(s)) && HasShape(seeds, s)
    ensures HasShape(g, s)
    ensures forall r, c, k :: InShape(s, r, c, k) ==>
      g[r][c][k] == if Scratched(mask, MaskShape(s), r, c) then seeds[r][c][k] else img[r][c][k]
  {
    seq(s.rows, r requires 0 <= r < s.rows =>
      seq(s.cols, c requires 0 <= c < s.cols =>
        seq(s.chans, k requires 0 <= k < s.chans =>
          if Scratched(mask, MaskShape(s), r, c) then seeds[r][c][k] else img[r][c][k])))
  }

  /** One pixel of a step: a scratched pixel in a repainted channel becomes
      the first level of least inpainting energy over the 5x5 window of g,
      cells outside the image counting as zero; anything else keeps its
      value. */
  function StepCell(g: Grid, mask: Grid, s: Shape, cutoff: int, L: nat, nch: nat, r: int, c: int, k: int): int
    requires HasShape(g, s) && HasShape(mask, MaskShape(s)) && L > 0 && InShape(s, r, c, k)
  {
    if Scratched(mask, MaskShape(s), r, c) && k < nch then
      Repainted(Pad(g, s, 2), Padded(s, 2), cutoff, L, r + 2, c + 2, k)
    else g[r][c][k]
  }

  /** One synchronous sweep on unpadded images. */
  function InpaintStep(g: Grid, mask: Grid, s: Shape, cutoff: int, L: nat, nch: nat): (next: Grid)
    requires HasShape(g, s) && HasShape(mask, MaskShape(s)) && L > 0
    ensures HasShape(next, s)
    ensures forall r, c, k :: InShape(s, r, c, k) ==> next[r][c][k] == StepCell(g, mask, s, cutoff, L, nch, r, c, k)
  {
    seq(s.rows, r requires 0 <= r < s.rows =>
      seq(s.cols, c requires 0 <= c < s.cols =>
        seq(s.chans, k requires 0 <= k < s.chans => StepCell(g, mask, s, cutoff, L, nch, r, c, k))))
  }

  /** The seeded image after n sweeps. */
  function InpaintIterate(img: Grid, mask: Grid, seeds: Grid, s: Shape, cutoff: int, L: nat, nch: nat, n: nat): (g: Grid)
    requires HasShape(img, s) && HasShape(mask, MaskShape(s)) && HasShape(seeds, s) && L > 0
    ensures HasShape(g, s)
  {
    if n == 0 then Seed(img, mask, seeds, s)
    else InpaintStep(InpaintIterate(img, mask, seeds, s, cutoff, L, nch, n - 1), mask, s, cutoff, L, nch)
  }

  // -----------------------------------------------------------------------
  // The engine's own sweep, on the padded prior

  /** One cell after a sweep over the padded prior: a listed pixel in a
      repainted channel takes the first minimiser of the inpainting energy
      of its window in prior, anything else keeps prior's value. */
  function SweepCell(prior: Grid, s: Shape, coords: seq<(int, int)>, cutoff: int, L: nat, nch: nat, r: int, c: int, k: int): int
    requires HasShape(prior, s) && InBand(coords, s) && L > 0 && InShape(s, r, c, k)
  {
    if (r, c) in coords && k < nch then Repainted(prior, s, cutoff, L, r, c, k)
    else prior[r][c][k]
  }

  /** The prior after one sweep. */
  function InpaintSweep(prior: Grid, s: Shape, coords: seq<(int, int)>, cutoff: int, L: nat, nch: nat): (next: Grid)
    requires HasShape(prior, s) && InBand(coords, s) && L > 0
    ensures HasShape(next, s)
    ensures forall r, c, k :: InShape(s, r, c, k) ==> next[r][c][k] == SweepCell(prior, s, coords, cutoff, L, nch, r, c, k)
  {
    seq(s.rows, r requires 0 <= r < s.rows =>
      seq(s.cols, c requires 0 <= c < s.cols =>
        seq(s.chans, k requires 0 <= k < s.chans => SweepCell(prior, s, coords, cutoff, L, nch, r, c, k))))
  }

  /** A sweep reads only prior, so the order in which the listed pixels are
      visited does not matter: two lists with the same members give the same
      sweep. */
  lemma SweepOrderFree(prior: Grid, s: Shape, coords: seq<(int, int)>, other: seq<(int, int)>, cutoff: int, L: nat, nch: nat)
    requires HasShape(prior, s) && InBand(coords, s) && L > 0
    requires forall p :: p in coords <==> p in other
    ensures InBand(other, s)
    ensures InpaintSweep(prior, s, coords, cutoff, L, nch) == InpaintSweep(prior, s, other, cutoff, L, nch)
  {
    GridExt(InpaintSweep(prior, s, coords, cutoff, L, nch), InpaintSweep(prior, s, other, cutoff, L, nch), s);
  }

  /** Writes the seed of every listed pixel into all its channels, in list
      order (the fancy-indexed assignment of the constructor). */
  method WriteSeeds(a: array3<int>, coords: seq<(int, int)>, seeds: Grid, ghost before: Grid)
    requires a.Length0 >= 4 && a.Length1 >= 4
    requires HasShape(before, ShapeOf(a)) && InBand(coords, ShapeOf(a))
    requires HasShape(seeds, Shape(a.Length0 - 4, a.Length1 - 4, a.Length2))
    requires forall r, c, k :: InShape(ShapeOf(a), r, c, k) ==> a[r, c, k] == before[r][c][k]
    modifies a
    ensures forall r, c, k :: InShape(ShapeOf(a), r, c, k) ==>
      a[r, c, k] == if (r, c) in coords then seeds[r - 2][c - 2][k] else before[r][c][k]
  {
    for j := 0 to |coords|
      invariant forall r, c, k :: InShape(ShapeOf(a), r, c, k) ==>
        a[r, c, k] == if (r, c) in coords[..j] then seeds[r - 2][c - 2][k] else before[r][c][k]
    {
      var (r, c) := coords[j];
      assert coords[j] in coords;
      assert coords[..j + 1] == coords[..j] + [coords[j]];
      for k := 0 to a.Length2
        invariant forall rr, cc, kk :: InShape(ShapeOf(a), rr, cc, kk) ==>
          a[rr, cc, kk] == if (rr, cc) in coords[..j] || (rr == r && cc == c && kk < k) then seeds[rr - 2][cc - 2][kk]
                           else before[rr][cc][kk]
      {
        a[r, c, k] := seeds[r - 2][c - 2][k];
      }
    }
    assert coords[..|coords|] == coords;
  }

  /** The slice a[r - 2 : r + 3, c - 2 : c + 3, k], row-major. */
  function Slice5(a: array3<int>, r: int, c: int, k: int): (w: seq<int>)
    reads a
    requires 2 <= r < a.Length0 - 2 && 2 <= c < a.Length1 - 2 && 0 <= k < a.Length2
    ensures |w| == 25
  {
    seq(25, t requires 0 <= t < 25 reads a => a[r - 2 + t / 5, c - 2 + t % 5, k])
  }

  /** Slicing a buffer that holds g gives g's window. */
  lemma SliceIsWindow(a: array3<int>, g: Grid, r: int, c: int, k: int)
    requires HasShape(g, ShapeOf(a))
    requires forall rr, cc, kk :: InShape(ShapeOf(a), rr, cc, kk) ==> a[rr, cc, kk] == g[rr][cc][kk]
    requires 2 <= r < a.Length0 - 2 && 2 <= c < a.Length1 - 2 && 0 <= k < a.Length2
    ensures Slice5(a, r, c, k) == Window5(g, ShapeOf(a), r, c, k)
  {
    var w := Slice5(a, r, c, k);
    var v := Window5(g, ShapeOf(a), r, c, k);
    forall t | 0 <= t < 25
      ensures w[t] == v[t]
    {
      assert InShape(ShapeOf(a), r - 2 + t / 5, c - 2 + t % 5, k);
    }
  }

  /** Repaints channels 0 .. nch - 1 of pixel (r, c) of post from the window
      of src (whose contents are g). */
  method RepaintPixel(post: array3<int>, src: array3<int>, ghost g: Grid, r: int, c: int, nch: nat, cutoff: int, L: nat)
    requires post != src && ShapeOf(post) == ShapeOf(src) && HasShape(g, ShapeOf(src)) && L > 0
    requires forall rr, cc, kk :: InShape(ShapeOf(src), rr, cc, kk) ==> src[rr, cc, kk] == g[rr][cc][kk]
    requires 2 <= r < src.Length0 - 2 && 2 <= c < src.Length1 - 2 && nch <= src.Length2
    modifies post
    ensures forall rr, cc, kk :: InShape(ShapeOf(post), rr, cc, kk) ==>
      post[rr, cc, kk] == if rr == r && cc == c && kk < nch then Repainted(g, ShapeOf(src), cutoff, L, r, c, kk)
                          else old(post[rr, cc, kk])
  {
    for k := 0 to nch
      invariant forall rr, cc, kk :: InShape(ShapeOf(post), rr, cc, kk) ==>
        post[rr, cc, kk] == if rr == r && cc == c && kk < k then Repainted(g, ShapeOf(src), cutoff, L, r, c, kk)
                            else old(post[rr, cc, kk])
    {
      SliceIsWindow(src, g, r, c, k);
      post[r, c, k] := ArgMin(InpaintEnergy(Slice5(src, r, c, k), cutoff, L));
    }
  }

  /** Inpaint: one engine instance over an image padded by two cells. */
  class Inpaint {
    const color: bool
    const shape: Shape              // padded shape: self.row, self.col, self.ch
    const im: array3<int>           // the padded input
    const mask: seq<(int, int)>     // the scratched pixels, row-major
    const cutoff: int
    const levels: nat               // len(self.bit), that is 2^bit
    var prior: array3<int>

    ghost predicate Valid()
      reads this
    {
      ShapeOf(im) == shape && ShapeOf(prior) == shape && im != prior &&
      shape.rows >= 4 && shape.cols >= 4 && 0 < levels <= 256 &&
      Channels(color) <= shape.chans && (!color ==> shape.chans == 1) &&
      InBand(mask, shape)
    }

    /** Inpaint(im, color, mask, cutoff, bit), with the random seeds of the
        scratched pixels given as the grid seeds. */
    constructor (img: Grid, color: bool, maskImg: Grid, seeds: Grid, s: Shape, cutoff: int, bit: nat)
      requires HasShape(img, s) && HasShape(maskImg, MaskShape(s)) && HasShape(seeds, s)
      requires color ==> s.chans >= 3
      requires !color ==> s.chans == 1
      requires bit <= 8
      ensures Valid() && fresh(im) && fresh(prior)
      ensures this.color == color && shape == Padded(s, 2) && this.cutoff == cutoff && levels == Levels(bit)
      ensures Cells(im) == Pad(img, s, 2)
      ensures ListsScratched(mask, maskImg, s) && RowMajor(mask)
      ensures Cells(prior) == Pad(Seed(img, maskImg, seeds, s), s, 2)
    {
      var ps := Padded(s, 2);
      var padded := Pad(img, s, 2);
      var coords := FindScratched(maskImg, s);
      ScratchedInBand(coords, maskImg, s);
      LevelsAtMost256(bit);
      var a := FromGrid(padded, ps);
      var p := Copy(a);
      WriteSeeds(p, coords, seeds, padded);
      SeededIsPadded(img, maskImg, seeds, s, coords, Cells(p));
      this.color := color;
      shape := ps;
      im := a;
      mask := coords;
      this.cutoff := cutoff;
      levels := Levels(bit);
      prior := p;
    }

    /** execute(): repaints every listed pixel in channels 0 .. nch - 1 of a
        copy of prior, reading only prior, then makes the copy the prior. */
    method Execute()
      requires Valid()
      modifies this`prior
      ensures Valid() && fresh(prior)
      ensures Cells(prior) == InpaintSweep(old(Cells(prior)), shape, mask, cutoff, levels, Channels(color))
    {
      ghost var pr := Cells(prior);
      var nch := Channels(color);
      var posterior := Copy(prior);
      for j := 0 to |mask|
        invariant fresh(posterior) && ShapeOf(posterior) == shape && prior == old(prior)
        invariant forall r, c, k :: InShape(shape, r, c, k) ==> prior[r, c, k] == pr[r][c][k]
        invariant forall r, c, k :: InShape(shape, r, c, k) ==>
          posterior[r, c, k] == if (r, c) in mask[..j] && k < nch then Repainted(pr, shape, cutoff, levels, r, c, k)
                                else pr[r][c][k]
      {
        var (r, c) := mask[j];
        assert mask[j] in mask;
        assert mask[..j + 1] == mask[..j] + [mask[j]];
        RepaintPixel(posterior, prior, pr, r, c, nch, cutoff, levels);
      }
      assert mask[..|mask|] == mask;
      RepaintedIsSweep(Cells(posterior), pr, shape, mask, cutoff, levels, nch);
      prior := Copy(posterior);
    }

    /** status(): the prior without its two-cell border. */
    function Status(): Grid
      reads this, prior
      requires Valid()
    {
      Unpad(Cells(prior), shape, 2)
    }
  }

  /** A grid that holds the repainted level at the listed pixels in
      channels below nch, and prior's value elsewhere, is the sweep. */
  lemma RepaintedIsSweep(post: Grid, prior: Grid, s: Shape, coords: seq<(int, int)>, cutoff: int, L: nat, nch: nat)
    requires HasShape(post, s) && HasShape(prior, s) && InBand(coords, s) && L > 0
    requires forall r, c, k :: InShape(s, r, c, k) ==>
      post[r][c][k] == if (r, c) in coords && k < nch then Repainted(prior, s, cutoff, L, r, c, k) else prior[r][c][k]
    ensures post == InpaintSweep(prior, s, coords, cutoff, L, nch)
  {
    GridExt(post, InpaintSweep(prior, s, coords, cutoff, L, nch), s);
  }

  /** 2^bit grows with bit. */
  lemma {:induction false} LevelsMonotone(bit: nat, m: nat)
    requires bit <= m
    ensures Levels(bit) <= Levels(m)
  {
    if bit < m {
      LevelsMonotone(bit, m - 1);
    }
  }

  /** 2^bit is at most 256 when bit is at most 8. */
  lemma LevelsAtMost256(bit: nat)
    requires bit <= 8
    ensures Levels(bit) <= 256
  {
    LevelsMonotone(bit, 8);
    assert Levels(8) == 256;
  }

  /** Writing the seeds of the listed pixels into the padded image gives the
      padded seeded image. */
  lemma SeededIsPadded(img: Grid, maskImg: Grid, seeds: Grid, s: Shape, coords: seq<(int, int)>, written: Grid)
    requires HasShape(img, s) && HasShape(maskImg, MaskShape(s)) && HasShape(seeds, s)
    requires ListsScratched(coords, maskImg, s) && HasShape(written, Padded(s, 2))
    requires forall r, c, k :: InShape(Padded(s, 2), r, c, k) ==>
      written[r][c][k] == if (r, c) in coords then seeds[r - 2][c - 2][k] else Pad(img, s, 2)[r][c][k]
    ensures written == Pad(Seed(img, maskImg, seeds, s), s, 2)
  {
    var ps := Padded(s, 2);
    var want := Pad(Seed(img, maskImg, seeds, s), s, 2);
    forall r, c, k | InShape(ps, r, c, k)
      ensures written[r][c][k] == want[r][c][k]
    {
      if !InBorder(ps, 2, r, c) {
        assert InShape(s, r - 2, c - 2, k);
      }
    }
    GridExt(written, want, ps);
  }

  // -----------------------------------------------------------------------
  // The engine against the reference definition

  /** Inside the padding, a sweep over the scratched pixels is a step of the
      unpadded image. */
  lemma SweepInterior(g: Grid, mask: Grid, s: Shape, coords: seq<(int, int)>, cutoff: int, L: nat, nch: nat)
    requires HasShape(g, s) && HasShape(mask, MaskShape(s)) && L > 0
    requires ListsScratched(coords, mask, s) && InBand(coords, Padded(s, 2))
    ensures Unpad(InpaintSweep(Pad(g, s, 2), Padded(s, 2), coords, cutoff, L, nch), Padded(s, 2), 2) ==
            InpaintStep(g, mask, s, cutoff, L, nch)
  {
    var u := Unpad(InpaintSweep(Pad(g, s, 2), Padded(s, 2), coords, cutoff, L, nch), Padded(s, 2), 2);
    var step := InpaintStep(g, mask, s, cutoff, L, nch);
    forall r, c, k | InShape(s, r, c, k)
      ensures u[r][c][k] == step[r][c][k]
    {
      assert (r + 2, c + 2) in coords <==> Scratched(mask, MaskShape(s), r, c);
      InteriorCell(g, mask, s, coords, cutoff, L, nch, u, step, r, c, k);
    }
    GridExt(u, step, s);
  }

  /** One pixel of that equation. */
  lemma InteriorCell(g: Grid, mask: Grid, s: Shape, coords: seq<(int, int)>, cutoff: int, L: nat, nch: nat,
                     u: Grid, step: Grid, r: int, c: int, k: int)
    requires HasShape(g, s) && HasShape(mask, MaskShape(s)) && L > 0 && InShape(s, r, c, k)
    requires InBand(coords, Padded(s, 2))
    requires (r + 2, c + 2) in coords <==> Scratched(mask, MaskShape(s), r, c)
    requires u == Unpad(InpaintSweep(Pad(g, s, 2), Padded(s, 2), coords, cutoff, L, nch), Padded(s, 2), 2)
    requires step == InpaintStep(g, mask, s, cutoff, L, nch)
    ensures u[r][c][k] == step[r][c][k]
  {
    assert InShape(Padded(s, 2), r + 2, c + 2, k) && !InBorder(Padded(s, 2), 2, r + 2, c + 2);
  }

  /** A sweep leaves the zero border of the padded prior alone. */
  lemma SweepBorder(g: Grid, s: Shape, coords: seq<(int, int)>, cutoff: int, L: nat, nch: nat)
    requires HasShape(g, s) && L > 0 && InBand(coords, Padded(s, 2))
    ensures forall r, c, k :: InShape(Padded(s, 2), r, c, k) && InBorder(Padded(s, 2), 2, r, c) ==>
      InpaintSweep(Pad(g, s, 2), Padded(s, 2), coords, cutoff, L, nch)[r][c][k] == 0
  {
  }

  /** A sweep of the padded prior over the scratched pixels is a step of the
      unpadded image, padded. */
  lemma SweepIsStep(g: Grid, mask: Grid, s: Shape, coords: seq<(int, int)>, cutoff: int, L: nat, nch: nat)
    requires HasShape(g, s) && HasShape(mask, MaskShape(s)) && L > 0
    requires ListsScratched(coords, mask, s)
    ensures InBand(coords, Padded(s, 2))
    ensures InpaintSweep(Pad(g, s, 2), Padded(s, 2), coords, cutoff, L, nch) ==
            Pad(InpaintStep(g, mask, s, cutoff, L, nch), s, 2)
  {
    ScratchedInBand(coords, mask, s);
    SweepInterior(g, mask, s, coords, cutoff, L, nch);
    SweepBorder(g, s, coords, cutoff, L, nch);
    PadUnpad(InpaintSweep(Pad(g, s, 2), Padded(s, 2), coords, cutoff, L, nch), s, 2);
  }

  /** The engine's prior after n sweeps is the n-th iterate, padded: one
      more sweep pads the next iterate, and status() strips the padding. */
  lemma IterateSweep(img: Grid, mask: Grid, seeds: Grid, s: Shape, coords: seq<(int, int)>, cutoff: int, L: nat, nch: nat, n: nat)
    requires HasShape(img, s) && HasShape(mask, MaskShape(s)) && HasShape(seeds, s) && L > 0
    requires ListsScratched(coords, mask, s)
    ensures InBand(coords, Padded(s, 2))
    ensures InpaintSweep(Pad(InpaintIterate(img, mask, seeds, s, cutoff, L, nch, n), s, 2), Padded(s, 2), coords, cutoff, L, nch) ==
            Pad(InpaintIterate(img, mask, seeds, s, cutoff, L, nch, n + 1), s, 2)
    ensures Unpad(Pad(InpaintIterate(img, mask, seeds, s, cutoff, L, nch, n + 1), s, 2), Padded(s, 2), 2) ==
            InpaintIterate(img, mask, seeds, s, cutoff, L, nch, n + 1)
  {
    SweepIsStep(InpaintIterate(img, mask, seeds, s, cutoff, L, nch, n), mask, s, coords, cutoff, L, nch);
    UnpadPad(InpaintIterate(img, mask, seeds, s, cutoff, L, nch, n + 1), s, 2);
  }

  /** The images inpaint_ls collects after the input: the status after 0 ..
      n - 1 sweeps. */
  function InpaintFrames(img: Grid, mask: Grid, seeds: Grid, s: Shape, cutoff: int, bit: nat, color: bool, n: nat): (fs: seq<Grid>)
    requires HasShape(img, s) && HasShape(mask, MaskShape(s)) && HasShape(seeds, s)
    ensures |fs| == n
    ensures forall j :: 0 <= j < n ==> fs[j] == InpaintIterate(img, mask, seeds, s, cutoff, Levels(bit), Channels(color), j)
  {
    if n == 0 then []
    else InpaintFrames(img, mask, seeds, s, cutoff, bit, color, n - 1) +
         [InpaintIterate(img, mask, seeds, s, cutoff, Levels(bit), Channels(color), n - 1)]
  }

  /** inpaint_ls after iters sweeps: the input, then the seeded image, then
      one image per sweep. */
  function InpaintHistory(img: Grid, mask: Grid, seeds: Grid, s: Shape, iters: nat, cutoff: int, bit: nat, color: bool): seq<Grid>
    requires HasShape(img, s) && HasShape(mask, MaskShape(s)) && HasShape(seeds, s)
  {
    [img] + InpaintFrames(img, mask, seeds, s, cutoff, bit, color, iters + 1)
  }

  /** inpaint_ls holds the input and then the iterates 0 .. iters in order. */
  lemma HistoryIsIterate(img: Grid, mask: Grid, seeds: Grid, s: Shape, iters: nat, cutoff: int, bit: nat, color: bool)
    requires HasShape(img, s) && HasShape(mask, MaskShape(s)) && HasShape(seeds, s)
    ensures |InpaintHistory(img, mask, seeds, s, iters, cutoff, bit, color)| == iters + 2
    ensures InpaintHistory(img, mask, seeds, s, iters, cutoff, bit, color)[0] == img
    ensures forall i :: 0 <= i <= iters ==>
      InpaintHistory(img, mask, seeds, s, iters, cutoff, bit, color)[i + 1] ==
      InpaintIterate(img, mask, seeds, s, cutoff, Levels(bit), Channels(color), i)
  {
  }

  /** The body of bayes_inpaint once the ranks are checked: builds the
      engine, then runs iters sweeps, collecting inpaint_ls. */
  method InpaintImages(img: Grid, color: bool, mask: Grid, seeds: Grid, s: Shape, iters: nat, cutoff: int, bit: nat)
    returns (hist: seq<Grid>)
    requires HasShape(img, s) && HasShape(mask, MaskShape(s)) && HasShape(seeds, s) && bit <= 8
    requires color ==> s.chans >= 3
    requires !color ==> s.chans == 1
    ensures hist == InpaintHistory(img, mask, seeds, s, iters, cutoff, bit, color)
  {
    ghost var L := Levels(bit);
    ghost var nch := Channels(color);
    var e := new Inpaint(img, color, mask, seeds, s, cutoff, bit);
    UnpadPad(Seed(img, mask, seeds, s), s, 2);
    hist := [img, e.Status()];
    for i := 0 to iters
      invariant fresh(e) && e.Valid() && e.color == color && e.shape == Padded(s, 2) && e.cutoff == cutoff && e.levels == L
      invariant ListsScratched(e.mask, mask, s)
      invariant Cells(e.prior) == Pad(InpaintIterate(img, mask, seeds, s, cutoff, L, nch, i), s, 2)
      invariant hist == [img] + InpaintFrames(img, mask, seeds, s, cutoff, bit, color, i + 1)
    {
      IterateSweep(img, mask, seeds, s, e.mask, cutoff, L, nch, i);
      e.Execute();
      hist := hist + [e.Status()];
    }
  }

  /** bayes_inpaint(im, mask, iters, cutoff, bit, surplus), with the random
      seeds of the scratched pixels given as the grid seeds. */
  method BayesInpaint(a: NdArray, m: NdArray, seeds: Grid, iters: nat, cutoff: int, bit: nat, surplus: bool)
    returns (res: Result<Restored>)
    requires a.Valid() && m.Valid() && HasShape(seeds, a.shape) && bit <= 8
    requires m.ndim == 2 ==> m.shape == MaskShape(a.shape)
    requires a.ndim == 3 ==> a.shape.chans >= 3
    ensures res.Failure? <==> (a.ndim != 2 && a.ndim != 3) || m.ndim != 2
    ensures res.Failure? ==> res.error == if a.ndim != 2 && a.ndim != 3 then NotAnImage else BadMask
    ensures res.Success? ==>
      (var h := InpaintHistory(a.data, m.data, seeds, a.shape, iters, cutoff, bit, a.ndim == 3);
       res.value == if surplus then Frames(h) else Final(h[|h| - 1]))
  {
    if a.ndim != 2 && a.ndim != 3 {
      return Failure(NotAnImage);
    }
    if m.ndim != 2 {
      return Failure(BadMask);
    }
    var hist := InpaintImages(a.data, a.ndim == 3, m.data, seeds, a.shape, iters, cutoff, bit);
    if surplus {
      res := Success(Frames(hist));
    } else {
      res := Success(Final(hist[|hist| - 1]));
    }
  }

  // -----------------------------------------------------------------------
  // Properties of the restoration

  /** A pixel the mask does not mark keeps the input's value in every
      channel, after any number of sweeps. */
  lemma {:induction false} IterateKeepsImage(img: Grid, mask: Grid, seeds: Grid, s: Shape, cutoff: int, L: nat, nch: nat, n: nat, r: int, c: int, k: int)
    requires HasShape(img, s) && HasShape(mask, MaskShape(s)) && HasShape(seeds, s) && L > 0
    requires InShape(s, r, c, k) && !Scratched(mask, MaskShape(s), r, c)
    ensures InpaintIterate(img, mask, seeds, s, cutoff, L, nch, n)[r][c][k] == img[r][c][k]
  {
    if n > 0 {
      IterateKeepsImage(img, mask, seeds, s, cutoff, L, nch, n - 1, r, c, k);
    }
  }

  /** A channel the sweeps do not repaint (channel 3 and up of a colour
      image) keeps its random seed at a scratched pixel. */
  lemma {:induction false} IterateKeepsSeed(img: Grid, mask: Grid, seeds: Grid, s: Shape, cutoff: int, L: nat, nch: nat, n: nat, r: int, c: int, k: int)
    requires HasShape(img, s) && HasShape(mask, MaskShape(s)) && HasShape(seeds, s) && L > 0
    requires InShape(s, r, c, k) && Scratched(mask, MaskShape(s), r, c) && k >= nch
    ensures InpaintIterate(img, mask, seeds, s, cutoff, L, nch, n)[r][c][k] == seeds[r][c][k]
  {
    if n > 0 {
      IterateKeepsSeed(img, mask, seeds, s, cutoff, L, nch, n - 1, r, c, k);
    }
  }

  /** With seeds drawn from [0, 256) and at most 256 levels, every scratched
      pixel holds a value in [0, 256) after any number of sweeps, so it fits
      the 8-bit image; a repainted channel after one sweep or more holds a
      level below L. */
  lemma ScratchedInRange(img: Grid, mask: Grid, seeds: Grid, s: Shape, cutoff: int, L: nat, nch: nat, n: nat, r: int, c: int, k: int)
    requires HasShape(img, s) && HasShape(mask, MaskShape(s)) && HasShape(seeds, s) && 0 < L <= 256
    requires InShape(s, r, c, k) && Scratched(mask, MaskShape(s), r, c) && 0 <= seeds[r][c][k] < 256
    ensures 0 <= InpaintIterate(img, mask, seeds, s, cutoff, L, nch, n)[r][c][k] < 256
    ensures n > 0 && k < nch ==> InpaintIterate(img, mask, seeds, s, cutoff, L, nch, n)[r][c][k] < L
  {
    if k >= nch {
      IterateKeepsSeed(img, mask, seeds, s, cutoff, L, nch, n, r, c, k);
    }
  }

  /** With no scratched pixel every sweep leaves the image as it is. */
  lemma NoScratchIsIdentity(img: Grid, mask: Grid, seeds: Grid, s: Shape, cutoff: int, L: nat, nch: nat, n: nat)
    requires HasShape(img, s) && HasShape(mask, MaskShape(s)) && HasShape(seeds, s) && L > 0
    requires forall r, c :: 0 <= r < s.rows && 0 <= c < s.cols ==> !Scratched(mask, MaskShape(s), r, c)
    ensures InpaintIterate(img, mask, seeds, s, cutoff, L, nch, n) == img
    ensures forall p :: p !in MaskList(mask, s)
  {
    var g := InpaintIterate(img, mask, seeds, s, cutoff, L, nch, n);
    forall r, c, k | InShape(s, r, c, k)
      ensures g[r][c][k] == img[r][c][k]
    {
      IterateKeepsImage(img, mask, seeds, s, cutoff, L, nch, n, r, c, k);
    }
    GridExt(g, img, s);
    MaskListScratched(mask, s);
  }

  /** A repainted pixel whose 20 energy cells all hold the level v (cells
      outside the image count as zero) takes the level v, when the cutoff is
      positive. */
  lemma StepConsensus(g: Grid, mask: Grid, s: Shape, cutoff: int, L: nat, nch: nat, r: int, c: int, k: int, v: int)
    requires HasShape(g, s) && HasShape(mask, MaskShape(s)) && L > 0 && InShape(s, r, c, k)
    requires Scratched(mask, MaskShape(s), r, c) && k < nch && cutoff > 0 && 0 <= v < L
    requires forall t :: 0 <= t < 25 && UsedByInpaint(t / 5, t % 5) ==>
      Window5(Pad(g, s, 2), Padded(s, 2), r + 2, c + 2, k)[t] == v
    ensures InpaintStep(g, mask, s, cutoff, L, nch)[r][c][k] == v
  {
    InpaintConsensus(Window5(Pad(g, s, 2), Padded(s, 2), r + 2, c + 2, k), v, cutoff, L);
  }

  // -----------------------------------------------------------------------
  // The grey branch of execute() as written

  /** What execute() does on a grey image as written. */
  datatype GreyOutcome = NameError | Copied(prior: Grid)

  /** The grey branch indexes posterior and prior with the channel variable
      of the colour branch's loop, which is never bound on this path: the
      first listed pixel raises UnboundLocalError (a NameError), and only an
      empty list lets the prior be copied unchanged. */
  function GreyExecuteAsWritten(prior: Grid, coords: seq<(int, int)>): GreyOutcome
  {
    if |coords| == 0 then Copied(prior) else NameError
  }

  /** One scratched pixel in a grey mask is enough for the branch as written
      to raise, while the intended sweep (channel 0, Channels(false) == 1)
      gives that pixel a level below L. */
  lemma GreyAsWrittenRaises(prior: Grid, g: Grid, mask: Grid, s: Shape, cutoff: int, L: nat, r: int, c: int)
    requires HasShape(g, s) && HasShape(mask, MaskShape(s)) && s.chans == 1 && L > 0
    requires 0 <= r < s.rows && 0 <= c < s.cols && Scratched(mask, MaskShape(s), r, c)
    ensures GreyExecuteAsWritten(prior, MaskList(mask, s)).NameError?
    ensures InpaintStep(g, mask, s, cutoff, L, Channels(false))[r][c][0] < L
  {
    MaskListScratched(mask, s);
    assert (r + 2, c + 2) in MaskList(mask, s);
    assert InShape(s, r, c, 0);
  }
}
