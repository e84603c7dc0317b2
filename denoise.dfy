/** The iterative denoising engine (libs/denoise.py): the Denoise class,
    whose sweeps set every interior pixel to the first level of least
    denoising energy, and the bayes_denoise entry point.

    A sweep is synchronous: every pixel reads its neighbours from the frozen
    snapshot `posterior` and its observation from the padded input `im`, and
    writes only its own cell of the working buffer `denoiseIm`; the snapshot
    is replaced by a copy of the working buffer once the sweep is over. */
module DenoiseEngine {
  import opened Grids
  import opened Energy

  /** The 3x3 window of channel k of g centred on (r, c), row-major. */
  function Window3(g: Grid, s: Shape, r: int, c: int, k: int): (w: seq<int>)
    requires HasShape(g, s) && 1 <= r < s.rows - 1 && 1 <= c < s.cols - 1 && 0 <= k < s.chans
    ensures |w| == 9
  {
    [g[r - 1][c - 1][k], g[r - 1][c][k], g[r - 1][c + 1][k],
     g[r][c - 1][k], g[r][c][k], g[r][c + 1][k],
     g[r + 1][c - 1][k], g[r + 1][c][k], g[r + 1][c + 1][k]]
  }

  /** The cells a sweep writes: all but the one-cell border. */
  predicate Interior(s: Shape, r: int, c: int)
  {
    1 <= r < s.rows - 1 && 1 <= c < s.cols - 1
  }

  /** The level a sweep gives one cell: at an interior cell, the first
      minimiser of the denoising energy with the observation from im and the
      neighbours from the snapshot post; elsewhere the working buffer's value
      is left as it is. */
  function SweepCell(im: Grid, post: Grid, work: Grid, s: Shape, lam: int, cutoff: int, L: nat,
                     r: int, c: int, k: int): int
    requires HasShape(im, s) && HasShape(post, s) && HasShape(work, s) && InShape(s, r, c, k) && L > 0
  {
    if Interior(s, r, c) then ArgMin(DenoiseEnergy(im[r][c][k], Window3(post, s, r, c, k), lam, cutoff, L))
    else work[r][c][k]
  }

  /** The working buffer after one sweep over snapshot post. */
  function DenoiseSweep(im: Grid, post: Grid, work: Grid, s: Shape, lam: int, cutoff: int, L: nat): (next: Grid)
    requires HasShape(im, s) && HasShape(post, s) && HasShape(work, s) && L > 0
    ensures HasShape(next, s)
    ensures forall r, c, k :: InShape(s, r, c, k) ==>
      next[r][c][k] == SweepCell(im, post, work, s, lam, cutoff, L, r, c, k)
  {
    seq(s.rows, r requires 0 <= r < s.rows =>
      seq(s.cols, c requires 0 <= c < s.cols =>
        seq(s.chans, k requires 0 <= k < s.chans => SweepCell(im, post, work, s, lam, cutoff, L, r, c, k))))
  }

  /** Denoise: one engine instance over a padded image. */
  class Denoise {
    const shape: Shape        // padded shape: self.row, self.col, self.ch
    const lam: int
    const cutoff: int
    const levels: nat         // len(self.bit), that is 2^bit
    const im: array3<int>     // the padded input; never written
    var posterior: array3<int>
    const denoiseIm: array3<int>

    ghost predicate Valid()
      reads this
    {
      ShapeOf(im) == shape && ShapeOf(posterior) == shape && ShapeOf(denoiseIm) == shape &&
      shape.rows >= 2 && shape.cols >= 2 && levels > 0 &&
      im != posterior && im != denoiseIm && posterior != denoiseIm
    }

    /** Pads the image with one zero cell on each side of both spatial axes;
        the snapshot starts as the padded image and the working buffer as
        zeros. */
    constructor (img: Grid, s: Shape, lam: int, cutoff: int, bit: nat)
      requires HasShape(img, s)
      ensures Valid() && fresh(im) && fresh(posterior) && fresh(denoiseIm)
      ensures shape == Padded(s, 1) && this.lam == lam && this.cutoff == cutoff && levels == Levels(bit)
      ensures Cells(im) == Pad(img, s, 1) && Cells(posterior) == Pad(img, s, 1)
      ensures Cells(denoiseIm) == Zeros(Padded(s, 1))
    {
      var padded := FromGrid(Pad(img, s, 1), Padded(s, 1));
      var post := FromGrid(Pad(img, s, 1), Padded(s, 1));
      var work := FromGrid(Zeros(Padded(s, 1)), Padded(s, 1));
      shape := Padded(s, 1);
      this.lam := lam;
      this.cutoff := cutoff;
      levels := Levels(bit);
      im := padded;
      posterior := post;
      denoiseIm := work;
    }

    /** One sweep: every interior cell of every channel of the working buffer
        gets its level from the snapshot, then the snapshot becomes a copy of
        the working buffer. */
    method Execute()
      requires Valid()
      modifies this`posterior, denoiseIm
      ensures Valid() && fresh(posterior)
      ensures Cells(denoiseIm) == DenoiseSweep(Cells(im), old(Cells(posterior)), old(Cells(denoiseIm)), shape, lam, cutoff, levels)
      ensures Cells(posterior) == Cells(denoiseIm)
    {
      ghost var orig, post, work := Cells(im), Cells(posterior), Cells(denoiseIm);
      ghost var next := DenoiseSweep(orig, post, work, shape, lam, cutoff, levels);
      for k := 0 to shape.chans
        invariant posterior == old(posterior)
        invariant forall rr, cc, kk :: InShape(shape, rr, cc, kk) ==>
          denoiseIm[rr, cc, kk] == if kk < k then next[rr][cc][kk] else work[rr][cc][kk]
      {
        SweepChannel(k, orig, post, work, next);
      }
      GridExt(Cells(denoiseIm), next, shape);
      posterior := Copy(denoiseIm);
    }

    /** The loop over the rows of a sweep: channel k of the working buffer
        gets its swept values, and the other channels are left alone. */
    method SweepChannel(k: nat, ghost orig: Grid, ghost post: Grid, ghost work: Grid, ghost next: Grid)
      requires Valid() && k < shape.chans
      requires HasShape(orig, shape) && HasShape(post, shape) && HasShape(work, shape)
      requires forall rr, cc, kk :: InShape(shape, rr, cc, kk) ==>
        orig[rr][cc][kk] == im[rr, cc, kk] && post[rr][cc][kk] == posterior[rr, cc, kk]
      requires forall rr, cc :: InShape(shape, rr, cc, k) ==> denoiseIm[rr, cc, k] == work[rr][cc][k]
      requires next == DenoiseSweep(orig, post, work, shape, lam, cutoff, levels)
      modifies denoiseIm
      ensures forall rr, cc, kk :: InShape(shape, rr, cc, kk) ==>
        denoiseIm[rr, cc, kk] == if kk == k then next[rr][cc][kk] else old(denoiseIm[rr, cc, kk])
    {
      for r := 1 to shape.rows - 1
        invariant forall rr, cc, kk :: InShape(shape, rr, cc, kk) ==>
          denoiseIm[rr, cc, kk] == if kk == k && rr < r then next[rr][cc][kk] else old(denoiseIm[rr, cc, kk])
      {
        SweepRow(k, r, orig, post, next);
      }
    }

    /** The innermost loop of a sweep: row r of channel k. */
    method SweepRow(k: nat, r: nat, ghost orig: Grid, ghost post: Grid, ghost next: Grid)
      requires Valid() && k < shape.chans && 1 <= r < shape.rows - 1
      requires HasShape(orig, shape) && HasShape(post, shape) && HasShape(next, shape)
      requires forall rr, cc, kk :: InShape(shape, rr, cc, kk) ==>
        orig[rr][cc][kk] == im[rr, cc, kk] && post[rr][cc][kk] == posterior[rr, cc, kk]
      requires forall cc :: 1 <= cc < shape.cols - 1 ==>
        next[r][cc][k] == ArgMin(DenoiseEnergy(orig[r][cc][k], Window3(post, shape, r, cc, k), lam, cutoff, levels))
      modifies denoiseIm
      ensures forall rr, cc, kk :: InShape(shape, rr, cc, kk) ==>
        denoiseIm[rr, cc, kk] == if kk == k && rr == r && 1 <= cc < shape.cols - 1 then next[rr][cc][kk] else old(denoiseIm[rr, cc, kk])
    {
      for c := 1 to shape.cols - 1
        invariant forall rr, cc, kk :: InShape(shape, rr, cc, kk) ==>
          denoiseIm[rr, cc, kk] == if kk == k && rr == r && 1 <= cc < c then next[rr][cc][kk] else old(denoiseIm[rr, cc, kk])
      {
        var nei := [posterior[r - 1, c - 1, k], posterior[r - 1, c, k], posterior[r - 1, c + 1, k],
                    posterior[r, c - 1, k], posterior[r, c, k], posterior[r, c + 1, k],
                    posterior[r + 1, c - 1, k], posterior[r + 1, c, k], posterior[r + 1, c + 1, k]];
        assert nei == Window3(post, shape, r, c, k);
        denoiseIm[r, c, k] := ArgMin(DenoiseEnergy(im[r, c, k], nei, lam, cutoff, levels));
      }
    }

    /** The working buffer with its one-cell border removed. */
    function Status(): Grid
      reads this, denoiseIm
      requires Valid()
    {
      Unpad(Cells(denoiseIm), shape, 1)
    }
  }

  // -----------------------------------------------------------------------
  // bayes_denoise

  /** The snapshot and the working buffer of an engine. */
  datatype Buffers = Buffers(posterior: Grid, work: Grid)

  /** The buffers after n sweeps of an engine built over the padded image
      orig: the snapshot starts as orig and the working buffer as zeros, and
      each sweep leaves both equal to the swept working buffer. */
  function DenoiseRun(orig: Grid, s: Shape, lam: int, cutoff: int, L: nat, n: nat): (b: Buffers)
    requires HasShape(orig, s) && L > 0
    ensures HasShape(b.posterior, s) && HasShape(b.work, s)
  {
    if n == 0 then Buffers(orig, Zeros(s))
    else
      var b := DenoiseRun(orig, s, lam, cutoff, L, n - 1);
      var w := DenoiseSweep(orig, b.posterior, b.work, s, lam, cutoff, L);
      Buffers(w, w)
  }

  /** The image status() shows after n sweeps of an engine built over img:
      the working buffer with its one-cell border stripped. */
  function DenoiseFrame(img: Grid, s: Shape, lam: int, cutoff: int, bit: nat, n: nat): (g: Grid)
    requires HasShape(img, s)
    ensures HasShape(g, s)
  {
    Unpad(DenoiseRun(Pad(img, s, 1), Padded(s, 1), lam, cutoff, Levels(bit), n).work, Padded(s, 1), 1)
  }

  /** The statuses after sweeps 1 .. n, in order. */
  function DenoiseFrames(img: Grid, s: Shape, lam: int, cutoff: int, bit: nat, n: nat): (fs: seq<Grid>)
    requires HasShape(img, s)
    ensures |fs| == n
    ensures forall j :: 0 <= j < n ==> fs[j] == DenoiseFrame(img, s, lam, cutoff, bit, j + 1)
  {
    if n == 0 then [] else DenoiseFrames(img, s, lam, cutoff, bit, n - 1) + [DenoiseFrame(img, s, lam, cutoff, bit, n)]
  }

  /** The list bayes_denoise builds: the input, then the status after each
      of the iters sweeps. */
  function DenoiseHistory(img: Grid, s: Shape, iters: nat, lam: int, cutoff: int, bit: nat): (h: seq<Grid>)
    requires HasShape(img, s)
  {
    [img] + DenoiseFrames(img, s, lam, cutoff, bit, iters)
  }

  /** bayes_denoise: rejects an array that is neither 2-D nor 3-D, otherwise
      runs iters sweeps and returns the last image or the whole history. */
  method BayesDenoise(a: NdArray, iters: nat, lam: int, cutoff: int, bit: nat, surplus: bool)
    returns (res: Result<Restored>)
    requires a.Valid()
    ensures res.Failure? <==> a.ndim != 2 && a.ndim != 3
    ensures res.Failure? ==> res.error == NotAnImage
    ensures res.Success? ==>
      (var h := DenoiseHistory(a.data, a.shape, iters, lam, cutoff, bit);
       res.value == if surplus then Frames(h) else Final(h[iters]))
  {
    if a.ndim != 3 && a.ndim != 2 {
      return Failure(NotAnImage);
    }
    var d := new Denoise(a.data, a.shape, lam, cutoff, bit);
    var hist := [a.data];
    ghost var padded := Pad(a.data, a.shape, 1);
    ghost var s := Padded(a.shape, 1);
    for i := 0 to iters
      invariant d.Valid() && fresh(d) && fresh(d.denoiseIm)
      invariant d.shape == s && d.lam == lam && d.cutoff == cutoff && d.levels == Levels(bit)
      invariant Cells(d.im) == padded
      invariant Cells(d.posterior) == DenoiseRun(padded, s, lam, cutoff, Levels(bit), i).posterior
      invariant Cells(d.denoiseIm) == DenoiseRun(padded, s, lam, cutoff, Levels(bit), i).work
      invariant hist == [a.data] + DenoiseFrames(a.data, a.shape, lam, cutoff, bit, i)
    {
      d.Execute();
      hist := hist + [d.Status()];
    }
    if surplus {
      res := Success(Frames(hist));
    } else {
      res := Success(Final(hist[|hist| - 1]));
    }
  }

  // -----------------------------------------------------------------------
  // Properties of the sweeps and of the history

  /** A sweep is synchronous: what the working buffer held in the interior
      before the sweep (for instance cells this sweep has already written)
      has no influence on its result. */
  lemma SweepIgnoresWorkInterior(im: Grid, post: Grid, work1: Grid, work2: Grid, s: Shape, lam: int, cutoff: int, L: nat)
    requires HasShape(im, s) && HasShape(post, s) && HasShape(work1, s) && HasShape(work2, s) && L > 0
    requires forall r, c, k :: InShape(s, r, c, k) && !Interior(s, r, c) ==> work1[r][c][k] == work2[r][c][k]
    ensures DenoiseSweep(im, post, work1, s, lam, cutoff, L) == DenoiseSweep(im, post, work2, s, lam, cutoff, L)
  {
    GridExt(DenoiseSweep(im, post, work1, s, lam, cutoff, L), DenoiseSweep(im, post, work2, s, lam, cutoff, L), s);
  }

  /** The border of the working buffer stays zero through any number of
      sweeps. */
  lemma {:induction false} RunBorderZero(orig: Grid, s: Shape, lam: int, cutoff: int, L: nat, n: nat)
    requires HasShape(orig, s) && L > 0
    ensures forall r, c, k :: InShape(s, r, c, k) && InBorder(s, 1, r, c) ==>
      DenoiseRun(orig, s, lam, cutoff, L, n).work[r][c][k] == 0
  {
    if n > 0 {
      RunBorderZero(orig, s, lam, cutoff, L, n - 1);
    }
  }

  /** An interior cell of the working buffer after sweep n + 1: the first
      minimiser of the denoising energy against the snapshot left by sweep
      n. */
  lemma RunCell(orig: Grid, s: Shape, lam: int, cutoff: int, L: nat, n: nat, r: int, c: int, k: int)
    requires HasShape(orig, s) && L > 0 && InShape(s, r, c, k) && Interior(s, r, c)
    ensures DenoiseRun(orig, s, lam, cutoff, L, n + 1).work[r][c][k] ==
      ArgMin(DenoiseEnergy(orig[r][c][k], Window3(DenoiseRun(orig, s, lam, cutoff, L, n).posterior, s, r, c, k), lam, cutoff, L))
  {
    var b := DenoiseRun(orig, s, lam, cutoff, L, n);
    var next := DenoiseSweep(orig, b.posterior, b.work, s, lam, cutoff, L);
    assert DenoiseRun(orig, s, lam, cutoff, L, n + 1).work == next;
    assert next[r][c][k] == SweepCell(orig, b.posterior, b.work, s, lam, cutoff, L, r, c, k);
  }

  /** After n >= 1 sweeps the snapshot is the shown image with a zero border
      put back around it. */
  lemma SnapshotIsPaddedFrame(img: Grid, s: Shape, lam: int, cutoff: int, bit: nat, n: nat)
    requires HasShape(img, s) && n >= 1
    ensures DenoiseRun(Pad(img, s, 1), Padded(s, 1), lam, cutoff, Levels(bit), n).posterior ==
      Pad(DenoiseFrame(img, s, lam, cutoff, bit, n), s, 1)
  {
    var b := DenoiseRun(Pad(img, s, 1), Padded(s, 1), lam, cutoff, Levels(bit), n);
    assert b.posterior == b.work;
    RunBorderZero(Pad(img, s, 1), Padded(s, 1), lam, cutoff, Levels(bit), n);
    PadUnpad(b.work, s, 1);
  }

  /** One pixel of a step on unpadded images: the first level of least
      denoising energy for its observation in img and its eight neighbours
      in prev, cells outside the image counting as zero. */
  function StepCell(img: Grid, prev: Grid, s: Shape, lam: int, cutoff: int, L: nat, r: int, c: int, k: int): int
    requires HasShape(img, s) && HasShape(prev, s) && L > 0 && InShape(s, r, c, k)
  {
    ArgMin(DenoiseEnergy(img[r][c][k], Window3(Pad(prev, s, 1), Padded(s, 1), r + 1, c + 1, k), lam, cutoff, L))
  }

  /** One sweep on unpadded images: every pixel becomes its StepCell. */
  function DenoiseStep(img: Grid, prev: Grid, s: Shape, lam: int, cutoff: int, L: nat): (next: Grid)
    requires HasShape(img, s) && HasShape(prev, s) && L > 0
    ensures HasShape(next, s)
    ensures forall r, c, k :: InShape(s, r, c, k) ==> next[r][c][k] == StepCell(img, prev, s, lam, cutoff, L, r, c, k)
  {
    seq(s.rows, r requires 0 <= r < s.rows =>
      seq(s.cols, c requires 0 <= c < s.cols =>
        seq(s.chans, k requires 0 <= k < s.chans => StepCell(img, prev, s, lam, cutoff, L, r, c, k))))
  }

  /** A sweep of the engine over the padded input and the padded previous
      image, with its border stripped, is one step. */
  lemma SweepIsStep(img: Grid, prev: Grid, work: Grid, s: Shape, lam: int, cutoff: int, L: nat)
    requires HasShape(img, s) && HasShape(prev, s) && HasShape(work, Padded(s, 1)) && L > 0
    ensures Unpad(DenoiseSweep(Pad(img, s, 1), Pad(prev, s, 1), work, Padded(s, 1), lam, cutoff, L), Padded(s, 1), 1) ==
      DenoiseStep(img, prev, s, lam, cutoff, L)
  {
    var ps := Padded(s, 1);
    var f := Unpad(DenoiseSweep(Pad(img, s, 1), Pad(prev, s, 1), work, ps, lam, cutoff, L), ps, 1);
    var step := DenoiseStep(img, prev, s, lam, cutoff, L);
    forall r, c, k | InShape(s, r, c, k)
      ensures f[r][c][k] == step[r][c][k]
    {
      assert InShape(ps, r + 1, c + 1, k) && Interior(ps, r + 1, c + 1);
      assert Pad(img, s, 1)[r + 1][c + 1][k] == img[r][c][k];
    }
    GridExt(f, step, s);
  }

  /** Each frame is one synchronous step from the one before it, the first
      step starting from the input itself. */
  lemma FrameStep(img: Grid, s: Shape, lam: int, cutoff: int, bit: nat, n: nat)
    requires HasShape(img, s)
    ensures DenoiseFrame(img, s, lam, cutoff, bit, n + 1) ==
      DenoiseStep(img, if n == 0 then img else DenoiseFrame(img, s, lam, cutoff, bit, n), s, lam, cutoff, Levels(bit))
  {
    var prev := if n == 0 then img else DenoiseFrame(img, s, lam, cutoff, bit, n);
    var b := DenoiseRun(Pad(img, s, 1), Padded(s, 1), lam, cutoff, Levels(bit), n);
    if n > 0 {
      SnapshotIsPaddedFrame(img, s, lam, cutoff, bit, n);
    }
    SweepIsStep(img, prev, b.work, s, lam, cutoff, Levels(bit));
  }

  /** n synchronous steps from the input: the reference definition of what
      the engine computes. */
  function DenoiseIterate(img: Grid, s: Shape, lam: int, cutoff: int, L: nat, n: nat): (g: Grid)
    requires HasShape(img, s) && L > 0
    ensures HasShape(g, s)
  {
    if n == 0 then img else DenoiseStep(img, DenoiseIterate(img, s, lam, cutoff, L, n - 1), s, lam, cutoff, L)
  }

  /** The image shown after n >= 1 sweeps is n steps from the input. */
  lemma {:induction false} FrameIsIterate(img: Grid, s: Shape, lam: int, cutoff: int, bit: nat, n: nat)
    requires HasShape(img, s) && n >= 1
    ensures DenoiseFrame(img, s, lam, cutoff, bit, n) == DenoiseIterate(img, s, lam, cutoff, Levels(bit), n)
  {
    FrameStep(img, s, lam, cutoff, bit, n - 1);
    if n > 1 {
      FrameIsIterate(img, s, lam, cutoff, bit, n - 1);
    }
  }

  /** The list bayes_denoise returns is the iteration of the synchronous
      step: entry i is i steps from the input. */
  lemma HistoryIsIterate(img: Grid, s: Shape, iters: nat, lam: int, cutoff: int, bit: nat)
    requires HasShape(img, s)
    ensures forall i :: 0 <= i <= iters ==>
      DenoiseHistory(img, s, iters, lam, cutoff, bit)[i] == DenoiseIterate(img, s, lam, cutoff, Levels(bit), i)
  {
    forall i | 1 <= i <= iters
      ensures DenoiseHistory(img, s, iters, lam, cutoff, bit)[i] == DenoiseIterate(img, s, lam, cutoff, Levels(bit), i)
    {
      FrameIsIterate(img, s, lam, cutoff, bit, i);
    }
  }

  /** A step yields levels in [0, L - 1]. */
  lemma StepRange(img: Grid, prev: Grid, s: Shape, lam: int, cutoff: int, L: nat)
    requires HasShape(img, s) && HasShape(prev, s) && L > 0
    ensures forall r, c, k :: InShape(s, r, c, k) ==> 0 <= DenoiseStep(img, prev, s, lam, cutoff, L)[r][c][k] < L
  {
  }

  /** After at least one step every value lies in [0, L - 1]. */
  lemma IterateRange(img: Grid, s: Shape, lam: int, cutoff: int, L: nat, n: nat)
    requires HasShape(img, s) && L > 0 && n >= 1
    ensures forall r, c, k :: InShape(s, r, c, k) ==> 0 <= DenoiseIterate(img, s, lam, cutoff, L, n)[r][c][k] < L
  {
    StepRange(img, DenoiseIterate(img, s, lam, cutoff, L, n - 1), s, lam, cutoff, L);
  }

  /** Every entry of grid g clamped into [0, L - 1]. */
  function ClampGrid(g: Grid, s: Shape, L: nat): (h: Grid)
    requires HasShape(g, s) && L > 0
    ensures HasShape(h, s)
    ensures forall r, c, k :: InShape(s, r, c, k) ==> h[r][c][k] == Clamp(g[r][c][k], 0, L - 1)
  {
    seq(s.rows, r requires 0 <= r < s.rows =>
      seq(s.cols, c requires 0 <= c < s.cols =>
        seq(s.chans, k requires 0 <= k < s.chans => Clamp(g[r][c][k], 0, L - 1))))
  }

  /** With lam = 0 or cutoff = 0 a step ignores the previous image and
      returns the observation clamped into [0, L - 1]. */
  lemma StepDataOnly(img: Grid, prev: Grid, s: Shape, lam: int, cutoff: int, L: nat)
    requires HasShape(img, s) && HasShape(prev, s) && L > 0 && (lam == 0 || cutoff == 0)
    ensures DenoiseStep(img, prev, s, lam, cutoff, L) == ClampGrid(img, s, L)
  {
    var step := DenoiseStep(img, prev, s, lam, cutoff, L);
    forall r, c, k | InShape(s, r, c, k)
      ensures step[r][c][k] == ClampGrid(img, s, L)[r][c][k]
    {
      DataOnlyArgMin(img[r][c][k], Window3(Pad(prev, s, 1), Padded(s, 1), r + 1, c + 1, k), lam, cutoff, L);
    }
    GridExt(step, ClampGrid(img, s, L), s);
  }

  /** With lam = 0 or cutoff = 0 every image after the input is the input
      clamped into [0, L - 1]. */
  lemma IterateDataOnly(img: Grid, s: Shape, lam: int, cutoff: int, L: nat, n: nat)
    requires HasShape(img, s) && L > 0 && (lam == 0 || cutoff == 0) && n >= 1
    ensures DenoiseIterate(img, s, lam, cutoff, L, n) == ClampGrid(img, s, L)
  {
    StepDataOnly(img, DenoiseIterate(img, s, lam, cutoff, L, n - 1), s, lam, cutoff, L);
  }

  /** At any pixel of the all-zero image, with zero neighbours, level 0 has
      the least energy. */
  lemma ZeroCell(s: Shape, lam: int, cutoff: int, L: nat, r: int, c: int, k: int)
    requires lam >= 0 && cutoff >= 0 && L > 0 && InShape(s, r, c, k)
    ensures ArgMin(DenoiseEnergy(0, Window3(Pad(Zeros(s), s, 1), Padded(s, 1), r + 1, c + 1, k), lam, cutoff, L)) == 0
  {
    var ps := Padded(s, 1);
    PadZeros(s);
    var w := Window3(Zeros(ps), ps, r + 1, c + 1, k);
    ZeroWindow(s, r, c, k, w);
    DenoiseFlatArgMin(0, w, lam, cutoff, L);
  }

  /** Every cell of a window of the zero grid is zero. */
  lemma ZeroWindow(s: Shape, r: int, c: int, k: int, w: seq<int>)
    requires InShape(s, r, c, k) && w == Window3(Zeros(Padded(s, 1)), Padded(s, 1), r + 1, c + 1, k)
    ensures forall i :: 0 <= i < |w| ==> w[i] == 0
  {
    var ps := Padded(s, 1);
    assert InShape(ps, r, c, k) && InShape(ps, r + 2, c + 2, k);
    assert InShape(ps, r, c + 2, k) && InShape(ps, r + 2, c, k);
    assert InShape(ps, r + 1, c + 1, k) && InShape(ps, r + 1, c, k);
    assert InShape(ps, r, c + 1, k) && InShape(ps, r + 2, c + 1, k) && InShape(ps, r + 1, c + 2, k);
  }


  /** Padding the all-zero image gives the larger all-zero image. */
  lemma PadZeros(s: Shape)
    ensures Pad(Zeros(s), s, 1) == Zeros(Padded(s, 1))
  {
    GridExt(Pad(Zeros(s), s, 1), Zeros(Padded(s, 1)), Padded(s, 1));
  }

  /** A step from the all-zero image on the all-zero image gives zeros when
      lam >= 0 and cutoff >= 0. */
  lemma StepZeros(s: Shape, lam: int, cutoff: int, L: nat)
    requires lam >= 0 && cutoff >= 0 && L > 0
    ensures DenoiseStep(Zeros(s), Zeros(s), s, lam, cutoff, L) == Zeros(s)
  {
    var z := Zeros(s);
    var step := DenoiseStep(z, z, s, lam, cutoff, L);
    forall r, c, k | InShape(s, r, c, k)
      ensures step[r][c][k] == z[r][c][k]
    {
      ZeroCell(s, lam, cutoff, L, r, c, k);
    }
    GridExt(step, z, s);
  }

  /** An all-zero image is a fixed point: for lam >= 0 and cutoff >= 0 every
      step leaves it all zero. */
  lemma {:induction false} ZeroImageFixedPoint(s: Shape, lam: int, cutoff: int, L: nat, n: nat)
    requires lam >= 0 && cutoff >= 0 && L > 0
    ensures DenoiseIterate(Zeros(s), s, lam, cutoff, L, n) == Zeros(s)
  {
    if n > 0 {
      ZeroImageFixedPoint(s, lam, cutoff, L, n - 1);
      StepZeros(s, lam, cutoff, L);
    }
  }

  /** An interior pixel whose observation and whole 3x3 neighbourhood in
      prev hold the level v keeps v under a step, for lam >= 0 and
      cutoff >= 0. Near the border the zero padding counts as a neighbour,
      so there the property fails (ConstantImageBorderMoves). */
  lemma StepFlat(img: Grid, prev: Grid, s: Shape, lam: int, cutoff: int, L: nat, r: int, c: int, k: int, v: int)
    requires HasShape(img, s) && HasShape(prev, s) && InShape(s, r, c, k)
    requires lam >= 0 && cutoff >= 0 && 0 <= v < L
    requires 1 <= r < s.rows - 1 && 1 <= c < s.cols - 1 && img[r][c][k] == v
    requires forall i, j :: r - 1 <= i <= r + 1 && c - 1 <= j <= c + 1 ==> prev[i][j][k] == v
    ensures DenoiseStep(img, prev, s, lam, cutoff, L)[r][c][k] == v
  {
    var w := Window3(Pad(prev, s, 1), Padded(s, 1), r + 1, c + 1, k);
    FlatWindow(prev, s, r, c, k, v, w);
    DenoiseFlatArgMin(v, w, lam, cutoff, L);
    assert DenoiseStep(img, prev, s, lam, cutoff, L)[r][c][k] == StepCell(img, prev, s, lam, cutoff, L, r, c, k);
  }

  /** The padded window of an interior pixel whose 3x3 neighbourhood holds v
      holds v everywhere. */
  lemma FlatWindow(prev: Grid, s: Shape, r: int, c: int, k: int, v: int, w: seq<int>)
    requires HasShape(prev, s) && InShape(s, r, c, k) && 1 <= r < s.rows - 1 && 1 <= c < s.cols - 1
    requires forall i, j :: r - 1 <= i <= r + 1 && c - 1 <= j <= c + 1 ==> prev[i][j][k] == v
    requires w == Window3(Pad(prev, s, 1), Padded(s, 1), r + 1, c + 1, k)
    ensures forall i :: 0 <= i < |w| ==> w[i] == v
  {
    var ps := Padded(s, 1);
    assert InShape(ps, r, c, k) && InShape(ps, r + 2, c + 2, k);
    assert InShape(ps, r, c + 2, k) && InShape(ps, r + 2, c, k);
    assert InShape(ps, r + 1, c + 1, k) && InShape(ps, r + 1, c, k);
    assert InShape(ps, r, c + 1, k) && InShape(ps, r + 2, c + 1, k) && InShape(ps, r + 1, c + 2, k);
  }

  /** Before any sweep status() shows the zero working buffer, not the
      input. */
  lemma StatusBeforeSweep(img: Grid, s: Shape, lam: int, cutoff: int, bit: nat)
    requires HasShape(img, s)
    ensures DenoiseFrame(img, s, lam, cutoff, bit, 0) == Zeros(s)
  {
    GridExt(DenoiseFrame(img, s, lam, cutoff, bit, 0), Zeros(s), s);
  }

  /** A constant image is not a fixed point in general: the zero padding pulls
      border pixels down. The 1x1 image holding 1, stepped once with lam = 1,
      cutoff = 1 and two levels, becomes 0 (energy 1 at level 0, 8 at level
      1). */
  lemma ConstantImageBorderMoves()
    ensures DenoiseIterate([[[1]]], Shape(1, 1, 1), 1, 1, Levels(1), 1)[0][0][0] == 0
  {
    var s := Shape(1, 1, 1);
    var w := Window3(Pad([[[1]]], s, 1), Padded(s, 1), 1, 1, 0);
    SinglePixelWindow();
    SinglePixelArgMin(w);
  }

  /** Padding a single pixel surrounds it with eight zeros. */
  lemma SinglePixelWindow()
    ensures forall i :: 0 <= i < 9 && i != 4 ==>
      Window3(Pad([[[1]]], Shape(1, 1, 1), 1), Padded(Shape(1, 1, 1), 1), 1, 1, 0)[i] == 0
  {
    var ps := Padded(Shape(1, 1, 1), 1);
    assert InShape(ps, 0, 0, 0) && InShape(ps, 2, 2, 0) && InShape(ps, 0, 2, 0) && InShape(ps, 2, 0, 0);
  }

  /** Observation 1 among eight zero neighbours, lam = 1, cutoff = 1 and two
      levels: level 0 costs 1, level 1 costs 8. */
  lemma SinglePixelArgMin(nei: seq<int>)
    requires |nei| == 9 && forall i :: 0 <= i < 9 && i != 4 ==> nei[i] == 0
    ensures ArgMin(DenoiseEnergy(1, nei, 1, 1, Levels(1))) == 0
  {
    assert Levels(1) == 2;
    assert Trunc(1, 0, 1) == 1;
    assert DenoiseSmooth(0, nei, 1) == 0 && DenoiseSmooth(1, nei, 1) == 8;
    var e := DenoiseEnergy(1, nei, 1, 1, 2);
    ArgMinIs(e, 0);
  }
}
