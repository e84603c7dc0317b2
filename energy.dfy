/** Per-pixel energies of the restoration engines and the first-occurrence
    argmin used to pick a level from them (libs/energy.py and numpy's argmin).

    A neighbourhood window is a flat row-major sequence: a 3x3 window has
    9 entries (cell [i, j] at index 3*i + j), a 5x5 window has 25 entries
    (cell [i, j] at index 5*i + j). An energy vector has one entry per
    candidate level 0 .. L-1, in level order. */
module Energy {

  /** The number of candidate levels, 2^bit: the length of np.arange(2**bit). */
  function Levels(bit: nat): (n: nat)
    ensures n >= 1
  {
    if bit == 0 then 1 else 2 * Levels(bit - 1)
  }

  /** numpy's clip: minimum(maximum(x, lo), hi). When lo > hi the result is hi. */
  function Clip(x: int, lo: int, hi: int): int
  {
    var y := if x < lo then lo else x;
    if y > hi then hi else y
  }

  /** The truncated quadratic clip((v - n)^2, 0, cutoff) that one neighbour n
      contributes to the energy of level v. */
  function Trunc(v: int, n: int, cutoff: int): (t: int)
    ensures t <= cutoff
    ensures t == cutoff || t == (v - n) * (v - n)
    ensures 0 <= cutoff ==> 0 <= t <= (v - n) * (v - n)
  {
    SquareNonNeg(v - n);
    Clip((v - n) * (v - n), 0, cutoff)
  }

  lemma SquareNonNeg(x: int)
    ensures x * x >= 0
  {
    if x < 0 {
      assert x * x == (-x) * (-x);
    }
  }

  /** The smoothness sum of the denoising energy: the eight cells of the 3x3
      window other than the centre [1, 1] (index 4). */
  function DenoiseSmooth(v: int, nei: seq<int>, cutoff: int): int
    requires |nei| == 9
  {
    Trunc(v, nei[0], cutoff) + Trunc(v, nei[1], cutoff) + Trunc(v, nei[2], cutoff) +
    Trunc(v, nei[3], cutoff) + Trunc(v, nei[5], cutoff) +
    Trunc(v, nei[6], cutoff) + Trunc(v, nei[7], cutoff) + Trunc(v, nei[8], cutoff)
  }

  /** Denoising energy of level v: (v - center)^2 + lam * smoothness. */
  function DenoiseAt(v: int, center: int, nei: seq<int>, lam: int, cutoff: int): int
    requires |nei| == 9
  {
    (v - center) * (v - center) + lam * DenoiseSmooth(v, nei, cutoff)
  }

  /** Energy.denoise: the denoising energy of every level 0 .. L-1. */
  function DenoiseEnergy(center: int, nei: seq<int>, lam: int, cutoff: int, L: nat): seq<int>
    requires |nei| == 9
  {
    seq(L, v => DenoiseAt(v, center, nei, lam, cutoff))
  }

  /** Energy.inpaint at level v: the truncated quadratics of the 20 cells of
      the 5x5 window other than the centre [2, 2] and the corners [0, 0],
      [0, 4], [4, 0], [4, 4]; there is no data term. */
  function InpaintAt(v: int, nei: seq<int>, cutoff: int): int
    requires |nei| == 25
  {
    Trunc(v, nei[1], cutoff) + Trunc(v, nei[2], cutoff) + Trunc(v, nei[3], cutoff) +
    Trunc(v, nei[5], cutoff) + Trunc(v, nei[6], cutoff) + Trunc(v, nei[7], cutoff) +
    Trunc(v, nei[8], cutoff) + Trunc(v, nei[9], cutoff) +
    Trunc(v, nei[10], cutoff) + Trunc(v, nei[11], cutoff) +
    Trunc(v, nei[13], cutoff) + Trunc(v, nei[14], cutoff) +
    Trunc(v, nei[15], cutoff) + Trunc(v, nei[16], cutoff) + Trunc(v, nei[17], cutoff) +
    Trunc(v, nei[18], cutoff) + Trunc(v, nei[19], cutoff) +
    Trunc(v, nei[21], cutoff) + Trunc(v, nei[22], cutoff) + Trunc(v, nei[23], cutoff)
  }

  /** Energy.inpaint: the inpainting energy of every level 0 .. L-1. */
  function InpaintEnergy(nei: seq<int>, cutoff: int, L: nat): seq<int>
    requires |nei| == 25
  {
    seq(L, v => InpaintAt(v, nei, cutoff))
  }

  /** np.argmin: the index of the first occurrence of the least value (the
      lemma ArgMinFirstMinimum states that it is). */
  function ArgMin(e: seq<int>): (i: nat)
    requires |e| > 0
    ensures i < |e|
  {
    if |e| == 1 then 0
    else
      var t := ArgMin(e[1..]);
      if e[0] <= e[1..][t] then 0 else t + 1
  }

  /** ArgMin(e) holds a least value of e, and every earlier entry is
      strictly greater. */
  lemma {:induction false} ArgMinFirstMinimum(e: seq<int>)
    requires |e| > 0
    ensures forall j :: 0 <= j < |e| ==> e[ArgMin(e)] <= e[j]
    ensures forall j :: 0 <= j < ArgMin(e) ==> e[ArgMin(e)] < e[j]
  {
    if |e| > 1 {
      ArgMinFirstMinimum(e[1..]);
      var t := ArgMin(e[1..]);
      forall j | 1 <= j < |e| ensures e[j] == e[1..][j - 1] { }
    }
  }

  /** An index that is a minimum and strictly below everything before it is
      the argmin. */
  lemma ArgMinIs(e: seq<int>, i: nat)
    requires i < |e|
    requires forall j :: 0 <= j < |e| ==> e[i] <= e[j]
    requires forall j :: 0 <= j < i ==> e[i] < e[j]
    ensures ArgMin(e) == i
  {
    ArgMinFirstMinimum(e);
  }

  // ---------------------------------------------------------------------
  // Which window cells the energies use

  /** Cell [i, j] of the 5x5 window enters the inpainting energy. */
  predicate UsedByInpaint(i: int, j: int)
  {
    !(i == 2 && j == 2) && !((i == 0 || i == 4) && (j == 0 || j == 4))
  }

  /** The sum, over the 5x5 cells from flat index i on that the rule above
      selects, of their truncated quadratics. */
  function UsedSum(v: int, nei: seq<int>, cutoff: int, i: nat): int
    requires |nei| == 25 && i <= 25
    decreases 25 - i
  {
    if i == 25 then 0
    else (if UsedByInpaint(i / 5, i % 5) then Trunc(v, nei[i], cutoff) else 0) + UsedSum(v, nei, cutoff, i + 1)
  }

  /** The number of 5x5 cells from flat index i on that the rule selects. */
  function UsedCount(i: nat): nat
    requires i <= 25
    decreases 25 - i
  {
    if i == 25 then 0 else (if UsedByInpaint(i / 5, i % 5) then 1 else 0) + UsedCount(i + 1)
  }

  // ---------------------------------------------------------------------
  // Properties of the denoising energy

  /** The window centre nei[1, 1] has no influence on the denoising energy. */
  lemma DenoiseIgnoresCentre(center: int, nei: seq<int>, x: int, lam: int, cutoff: int, L: nat)
    requires |nei| == 9
    ensures DenoiseEnergy(center, nei[4 := x], lam, cutoff, L) == DenoiseEnergy(center, nei, lam, cutoff, L)
  {
  }

  /** With a non-negative cutoff every truncated term lies in [0, cutoff], so
      the smoothness sum lies in [0, 8 * cutoff]. */
  lemma DenoiseSmoothBounds(v: int, nei: seq<int>, cutoff: int)
    requires |nei| == 9 && cutoff >= 0
    ensures 0 <= DenoiseSmooth(v, nei, cutoff) <= 8 * cutoff
  {
  }

  /** For lam >= 0 and cutoff >= 0 the denoising energy of v lies between the
      data term (v - center)^2 and (v - center)^2 + 8 * lam * cutoff. */
  lemma DenoiseEnergyBounds(center: int, nei: seq<int>, lam: int, cutoff: int, L: nat, v: nat)
    requires |nei| == 9 && lam >= 0 && cutoff >= 0 && v < L
    ensures |DenoiseEnergy(center, nei, lam, cutoff, L)| == L
    ensures (v - center) * (v - center) <= DenoiseEnergy(center, nei, lam, cutoff, L)[v]
    ensures DenoiseEnergy(center, nei, lam, cutoff, L)[v] <= (v - center) * (v - center) + 8 * lam * cutoff
  {
    DenoiseSmoothBounds(v, nei, cutoff);
    WeightedBounds((v - center) * (v - center), lam, DenoiseSmooth(v, nei, cutoff), cutoff);
  }

  lemma WeightedBounds(d: int, lam: int, s: int, cutoff: int)
    requires lam >= 0 && 0 <= s <= 8 * cutoff
    ensures d <= d + lam * s <= d + 8 * lam * cutoff
  {
    MulBounds(lam, s, 8 * cutoff);
    assert lam * (8 * cutoff) == 8 * lam * cutoff;
  }

  lemma MulBounds(a: int, b: int, c: int)
    requires a >= 0 && 0 <= b <= c
    ensures 0 <= a * b <= a * c
  {
    assert a * c - a * b == a * (c - b);
  }

  /** With lam = 0 or cutoff = 0 only the data term is left. */
  lemma DenoiseDataOnly(center: int, nei: seq<int>, lam: int, cutoff: int, L: nat, v: nat)
    requires |nei| == 9 && (lam == 0 || cutoff == 0) && v < L
    ensures DenoiseEnergy(center, nei, lam, cutoff, L)[v] == (v - center) * (v - center)
  {
    if cutoff == 0 {
      assert DenoiseSmooth(v, nei, cutoff) == 0;
    }
  }

  /** x clamped into [lo, hi]. */
  function Clamp(x: int, lo: int, hi: int): (y: int)
    requires lo <= hi
    ensures lo <= y <= hi
    ensures lo <= x <= hi ==> y == x
  {
    if x < lo then lo else if x > hi then hi else x
  }

  lemma SquareLess(a: int, b: int)
    requires 0 <= a < b
    ensures a * a < b * b
  {
    assert b * b - a * a == (b - a) * (b + a);
    assert (b - a) * (b + a) >= b + a by {
      MulBounds(b + a, 1, b - a);
    }
  }

  /** Level m is the one closest to center: every other level is farther. */
  lemma ClampIsNearest(center: int, L: nat, v: int)
    requires L > 0 && 0 <= v < L && v != Clamp(center, 0, L - 1)
    ensures (Clamp(center, 0, L - 1) - center) * (Clamp(center, 0, L - 1) - center) < (v - center) * (v - center)
  {
    var m := Clamp(center, 0, L - 1);
    if center < 0 {
      SquareLess(m - center, v - center);
    } else if center > L - 1 {
      SquareLess(center - m, center - v);
      assert (m - center) * (m - center) == (center - m) * (center - m);
      assert (v - center) * (v - center) == (center - v) * (center - v);
    } else if v < center {
      SquareLess(0, center - v);
      assert (v - center) * (v - center) == (center - v) * (center - v);
    } else {
      SquareLess(0, v - center);
    }
  }

  /** With lam = 0 or cutoff = 0 the chosen level is center clamped into
      [0, L - 1], whatever the neighbours are. */
  lemma DataOnlyArgMin(center: int, nei: seq<int>, lam: int, cutoff: int, L: nat)
    requires |nei| == 9 && (lam == 0 || cutoff == 0) && L > 0
    ensures ArgMin(DenoiseEnergy(center, nei, lam, cutoff, L)) == Clamp(center, 0, L - 1)
  {
    var e := DenoiseEnergy(center, nei, lam, cutoff, L);
    var m := Clamp(center, 0, L - 1);
    DenoiseDataOnly(center, nei, lam, cutoff, L, m);
    forall j | 0 <= j < L && j != m
      ensures e[m] < e[j]
    {
      DenoiseDataOnly(center, nei, lam, cutoff, L, j);
      ClampIsNearest(center, L, j);
    }
    ArgMinIs(e, m);
  }

  /** A pixel whose observation and eight neighbours all equal a level c keeps
      c, for any lam >= 0 and cutoff >= 0. */
  lemma DenoiseFlatArgMin(c: int, nei: seq<int>, lam: int, cutoff: int, L: nat)
    requires |nei| == 9 && lam >= 0 && cutoff >= 0 && 0 <= c < L
    requires forall i :: 0 <= i < 9 && i != 4 ==> nei[i] == c
    ensures ArgMin(DenoiseEnergy(c, nei, lam, cutoff, L)) == c
  {
    var e := DenoiseEnergy(c, nei, lam, cutoff, L);
    assert DenoiseSmooth(c, nei, cutoff) == 0;
    assert e[c] == 0;
    forall j | 0 <= j < L && j != c
      ensures e[c] < e[j]
    {
      DenoiseEnergyBounds(c, nei, lam, cutoff, L, j);
      if j < c { SquareLess(0, c - j); assert (j - c) * (j - c) == (c - j) * (c - j); }
      else { SquareLess(0, j - c); }
    }
    ArgMinIs(e, c);
  }

  // ---------------------------------------------------------------------
  // Properties of the inpainting energy

  /** The inpainting energy is the sum over exactly the cells the rule
      UsedByInpaint selects, and there are 20 of them. */
  lemma InpaintSumsUsedCells(v: int, nei: seq<int>, cutoff: int)
    requires |nei| == 25
    ensures InpaintAt(v, nei, cutoff) == UsedSum(v, nei, cutoff, 0)
    ensures UsedCount(0) == 20
  {
    UsedRows(v, nei, cutoff);
    assert UsedCount(20) == 3;
    assert UsedCount(10) == 4 + 5 + UsedCount(20);
    assert UsedCount(0) == 3 + 5 + UsedCount(10);
  }

  lemma UsedRows(v: int, nei: seq<int>, cutoff: int)
    requires |nei| == 25
    ensures UsedSum(v, nei, cutoff, 20) == Trunc(v, nei[21], cutoff) + Trunc(v, nei[22], cutoff) + Trunc(v, nei[23], cutoff)
    ensures UsedSum(v, nei, cutoff, 15) == Trunc(v, nei[15], cutoff) + Trunc(v, nei[16], cutoff) + Trunc(v, nei[17], cutoff) +
      Trunc(v, nei[18], cutoff) + Trunc(v, nei[19], cutoff) + UsedSum(v, nei, cutoff, 20)
    ensures UsedSum(v, nei, cutoff, 10) == Trunc(v, nei[10], cutoff) + Trunc(v, nei[11], cutoff) +
      Trunc(v, nei[13], cutoff) + Trunc(v, nei[14], cutoff) + UsedSum(v, nei, cutoff, 15)
    ensures UsedSum(v, nei, cutoff, 5) == Trunc(v, nei[5], cutoff) + Trunc(v, nei[6], cutoff) + Trunc(v, nei[7], cutoff) +
      Trunc(v, nei[8], cutoff) + Trunc(v, nei[9], cutoff) + UsedSum(v, nei, cutoff, 10)
    ensures UsedSum(v, nei, cutoff, 0) == Trunc(v, nei[1], cutoff) + Trunc(v, nei[2], cutoff) + Trunc(v, nei[3], cutoff) +
      UsedSum(v, nei, cutoff, 5)
  {

  }

  /** Values in the centre and the four corners of the 5x5 window do not
      affect the inpainting energy. */
  lemma InpaintIgnoresUnused(nei: seq<int>, other: seq<int>, cutoff: int, L: nat)
    requires |nei| == 25 && |other| == 25
    requires forall i :: 0 <= i < 25 && UsedByInpaint(i / 5, i % 5) ==> nei[i] == other[i]
    ensures InpaintEnergy(nei, cutoff, L) == InpaintEnergy(other, cutoff, L)
  {
    assert nei[1] == other[1] && nei[2] == other[2] && nei[3] == other[3];
    assert nei[5] == other[5] && nei[6] == other[6] && nei[7] == other[7] && nei[8] == other[8] && nei[9] == other[9];
    assert nei[10] == other[10] && nei[11] == other[11] && nei[13] == other[13] && nei[14] == other[14];
    assert nei[15] == other[15] && nei[16] == other[16] && nei[17] == other[17] && nei[18] == other[18] && nei[19] == other[19];
    assert nei[21] == other[21] && nei[22] == other[22] && nei[23] == other[23];
    forall v | 0 <= v < L
      ensures InpaintAt(v, nei, cutoff) == InpaintAt(v, other, cutoff)
    {
    }
  }

  /** With a non-negative cutoff the inpainting energy lies in [0, 20 * cutoff]. */
  lemma InpaintEnergyBounds(nei: seq<int>, cutoff: int, L: nat, v: nat)
    requires |nei| == 25 && cutoff >= 0 && v < L
    ensures 0 <= InpaintEnergy(nei, cutoff, L)[v] <= 20 * cutoff
  {
  }

  /** With a positive cutoff, when all 20 used cells hold the same level n the
      energy is 0 at n and positive at every other level, so n is chosen. */
  lemma InpaintConsensus(nei: seq<int>, n: int, cutoff: int, L: nat)
    requires |nei| == 25 && cutoff > 0 && 0 <= n < L
    requires forall i :: 0 <= i < 25 && UsedByInpaint(i / 5, i % 5) ==> nei[i] == n
    ensures InpaintEnergy(nei, cutoff, L)[n] == 0
    ensures forall v :: 0 <= v < L && v != n ==> InpaintEnergy(nei, cutoff, L)[v] > 0
    ensures ArgMin(InpaintEnergy(nei, cutoff, L)) == n
  {
    var e := InpaintEnergy(nei, cutoff, L);
    forall v | 0 <= v < L
      ensures e[v] == 20 * Trunc(v, n, cutoff)
    {
      InpaintAtUniform(v, nei, n, cutoff);
    }
    forall v | 0 <= v < L && v != n
      ensures e[v] > 0
    {
      TruncPositive(v, n, cutoff);
    }
    ArgMinIs(e, n);
  }

  /** When every used cell holds n, each of the 20 terms is Trunc(v, n). */
  lemma InpaintAtUniform(v: int, nei: seq<int>, n: int, cutoff: int)
    requires |nei| == 25
    requires forall i :: 0 <= i < 25 && UsedByInpaint(i / 5, i % 5) ==> nei[i] == n
    ensures InpaintAt(v, nei, cutoff) == 20 * Trunc(v, n, cutoff)
  {
    assert nei[1] == n && nei[2] == n && nei[3] == n;
    assert nei[5] == n && nei[6] == n && nei[7] == n && nei[8] == n && nei[9] == n;
    assert nei[10] == n && nei[11] == n && nei[13] == n && nei[14] == n;
    assert nei[15] == n && nei[16] == n && nei[17] == n && nei[18] == n && nei[19] == n;
    assert nei[21] == n && nei[22] == n && nei[23] == n;
  }

  /** A level other than n pays a positive price against neighbour n. */
  lemma TruncPositive(v: int, n: int, cutoff: int)
    requires cutoff > 0 && v != n
    ensures Trunc(v, n, cutoff) > 0
  {
    if v < n {
      SquareLess(0, n - v);
      assert (v - n) * (v - n) == (n - v) * (n - v);
    } else {
      SquareLess(0, v - n);
    }
  }
}
