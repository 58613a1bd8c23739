/**
 * `generate_flow_field`: a flow field derived from a noise grid.
 *
 * The noise buffer is filled with one noise sample per cell, every interior
 * cell of the flow field receives the rotated central difference of the
 * noise (the curl of a scalar potential), the largest vector length over the
 * whole field is found with a running maximum, and every vector is divided by
 * it. The noise function and the vector length are parameters (see
 * `Vectors.IsLength`).
 */
module FlowField {
  import opened Grid
  import opened Vectors

  /** `f32::MIN`, the seed of the running maximum. */
  const F32Min: real := -340282346638528859811704183484516925440.0

  /** The noise sample of cell (x, y): the noise at ((x - ox) / s, (y - oy) / s, oz / s). */
  function NoiseAt(noise: (real, real, real) -> real, scale: real, ox: real, oy: real, oz: real,
                   x: nat, y: nat): real
    requires scale != 0.0
  {
    noise(((x as real) - ox) / scale, ((y as real) - oy) / scale, oz / scale)
  }

  /** The filled noise buffer: every cell, boundary included, holds its own sample. */
  function NoiseGrid(noise: (real, real, real) -> real, scale: real, ox: real, oy: real, oz: real,
                     w: nat, h: nat): (r: seq<real>)
    requires w > 0 && scale != 0.0
    ensures |r| == w * h
  {
    seq(w * h, i requires 0 <= i < w * h => NoiseAt(noise, scale, ox, oy, oz, i % w, i / w))
  }

  /**
   * The stencil at flat index `i`: x is the difference of the noise one row
   * below and one row above, y is minus the difference of the noise one
   * column right and one column left.
   */
  function Curl(n: seq<real>, w: nat, i: nat): Vec2D
    requires 1 <= w <= i && i + w < |n|
  {
    Vec2D(n[i + w] - n[i - w], -(n[i + 1] - n[i - 1]))
  }

  /**
   * The flow field after the stencil pass: interior cells hold the curl of
   * the noise `n`, boundary cells keep their previous vector. (The range
   * conjuncts of the guard hold for every interior cell, see
   * `Grid.InteriorNeighbours`.)
   */
  function Stencilled(n: seq<real>, prev: seq<Vec2D>, w: nat, h: nat): (r: seq<Vec2D>)
    requires w > 0 && |n| == w * h && |prev| == w * h
    ensures |r| == w * h
  {
    seq(w * h, i requires 0 <= i < w * h =>
      if Interior(i, w, h) && w <= i && i + w < w * h then Curl(n, w, i) else prev[i])
  }

  /** The larger of two values (`f32::max` on values that are not NaN). */
  function Max(a: real, b: real): real
  {
    if a >= b then a else b
  }

  /** The running maximum of the lengths in `s`, seeded with `F32Min`. */
  function MaxLength(len: Vec2D -> real, s: seq<Vec2D>): real
  {
    if |s| == 0 then F32Min else Max(MaxLength(len, s[..|s| - 1]), len(s[|s| - 1]))
  }

  /** Every vector of `s` divided by the same scalar `m`. */
  function Normalised(s: seq<Vec2D>, m: real): (r: seq<Vec2D>)
    requires m != 0.0
    ensures |r| == |s|
  {
    seq(|s|, i requires 0 <= i < |s| => Divided(s[i], m))
  }

  /**
   * The running maximum is the largest length in `s`: no element is longer,
   * and unless `s` is empty (or all lengths are below the seed) some element
   * has exactly that length.
   */
  lemma {:induction false} MaxLengthIsMaximum(len: Vec2D -> real, s: seq<Vec2D>)
    ensures MaxLength(len, s) >= F32Min
    ensures forall j :: 0 <= j < |s| ==> len(s[j]) <= MaxLength(len, s)
    ensures MaxLength(len, s) == F32Min || exists j :: 0 <= j < |s| && MaxLength(len, s) == len(s[j])
  {
    if |s| > 0 {
      var t := s[..|s| - 1];
      MaxLengthIsMaximum(len, t);
      assert forall j :: 0 <= j < |t| ==> s[j] == t[j];
      if MaxLength(len, s) != F32Min && MaxLength(len, s) != len(s[|s| - 1]) {
        var j :| 0 <= j < |t| && MaxLength(len, t) == len(t[j]);
        assert MaxLength(len, s) == len(s[j]);
      }
    }
  }

  /** For a true length the maximum over a non-empty field is attained by some cell. */
  lemma MaxLengthAttained(len: Vec2D -> real, s: seq<Vec2D>)
    requires IsLength(len) && |s| > 0
    ensures MaxLength(len, s) >= 0.0
    ensures exists j :: 0 <= j < |s| && MaxLength(len, s) == len(s[j])
  {
    MaxLengthIsMaximum(len, s);
    assert len(s[0]) >= 0.0;
  }

  /**
   * Normalising by the maximum length: every vector then has length at most
   * 1, and a vector of maximal length has length exactly 1.
   */
  lemma NormalisedUnit(len: Vec2D -> real, s: seq<Vec2D>)
    requires IsLength(len) && MaxLength(len, s) > 0.0
    ensures forall i :: 0 <= i < |s| ==> len(Normalised(s, MaxLength(len, s))[i]) <= 1.0
    ensures exists i :: 0 <= i < |s| && len(Normalised(s, MaxLength(len, s))[i]) == 1.0
  {
    var m := MaxLength(len, s);
    var r := Normalised(s, m);
    MaxLengthIsMaximum(len, s);
    forall i | 0 <= i < |s|
      ensures len(r[i]) <= 1.0
    {
      LengthOfDivided(len, s[i], m);
      DivAtMostOne(len(s[i]), m);
    }
    var j :| 0 <= j < |s| && m == len(s[j]);
    LengthOfDivided(len, s[j], m);
    DivSelf(m);
    assert len(r[j]) == 1.0;
  }

  /**
   * Normalisation divides every vector by the same positive scalar: each
   * output is its input scaled by `1 / m` (so its direction is kept), and the
   * order of the lengths of any two vectors is kept.
   */
  lemma NormalisedUniform(len: Vec2D -> real, s: seq<Vec2D>, m: real, i: nat, j: nat)
    requires IsLength(len) && m > 0.0 && i < |s| && j < |s|
    ensures Normalised(s, m)[i].x * m == s[i].x && Normalised(s, m)[i].y * m == s[i].y
    ensures len(Normalised(s, m)[i]) <= len(Normalised(s, m)[j]) <==> len(s[i]) <= len(s[j])
  {
    LengthOfDivided(len, s[i], m);
    LengthOfDivided(len, s[j], m);
    DivMono(len(s[i]), len(s[j]), m);
  }

  /** A quantity no larger than a positive `m`, divided by `m`, is at most 1. */
  lemma DivAtMostOne(p: real, m: real)
    requires m > 0.0 && p <= m
    ensures p / m <= 1.0
  {
    DivMono(p, m, m);
  }

  /** A positive quantity divided by itself is 1. */
  lemma DivSelf(m: real)
    requires m > 0.0
    ensures m / m == 1.0
  {
  }

  /** Division by a positive scalar preserves order, in both directions. */
  lemma DivMono(p: real, q: real, m: real)
    requires m > 0.0
    ensures p / m <= q / m <==> p <= q
  {
    assert q / m - p / m == (q - p) / m;
  }

  /** Interior cell (x, y) of the stencil pass in grid coordinates. */
  lemma StencilledAt(n: seq<real>, prev: seq<Vec2D>, w: nat, h: nat, x: nat, y: nat)
    requires |n| == w * h && |prev| == w * h
    requires 1 <= x <= w - 2 && 1 <= y <= h - 2
    ensures Index(x + 1, y, w) < w * h && Index(x, y + 1, w) < w * h
    ensures Stencilled(n, prev, w, h)[Index(x, y, w)] ==
      Vec2D(n[Index(x, y + 1, w)] - n[Index(x, y - 1, w)], -(n[Index(x + 1, y, w)] - n[Index(x - 1, y, w)]))
  {
    var c := Index(x, y, w);
    IndexInBounds(x + 1, y, w, h);
    IndexInBounds(x, y + 1, w, h);
    InteriorAt(x, y, w, h);
    InteriorNeighbours(c, w, h);
    NextRow(x, y, w);
    NextRow(x, y - 1, w);
  }

  /** Boundary cells are not touched by the stencil pass. */
  lemma StencilledBoundary(n: seq<real>, prev: seq<Vec2D>, w: nat, h: nat)
    requires w > 0 && |n| == w * h && |prev| == w * h
    ensures forall j {:trigger Stencilled(n, prev, w, h)[j]} ::
      0 <= j < w * h && !Interior(j, w, h) ==> Stencilled(n, prev, w, h)[j] == prev[j]
  {
  }

  /**
   * A flow field whose boundary is zero keeps a zero boundary through the
   * stencil pass and the normalisation.
   */
  lemma BoundaryStaysZero(n: seq<real>, prev: seq<Vec2D>, w: nat, h: nat, m: real)
    requires w > 0 && |n| == w * h && |prev| == w * h && m != 0.0
    requires forall j :: 0 <= j < w * h && !Interior(j, w, h) ==> prev[j] == Zero
    ensures forall j :: 0 <= j < w * h && !Interior(j, w, h) ==>
      Normalised(Stencilled(n, prev, w, h), m)[j] == Zero
  {
    StencilledBoundary(n, prev, w, h);
  }

  /** Noise cell (x, y) in grid coordinates. */
  lemma NoiseGridAt(noise: (real, real, real) -> real, scale: real, ox: real, oy: real, oz: real,
                    w: nat, h: nat, x: nat, y: nat)
    requires scale != 0.0 && x < w && y < h
    ensures Index(x, y, w) < w * h
    ensures NoiseGrid(noise, scale, ox, oy, oz, w, h)[Index(x, y, w)] ==
      noise(((x as real) - ox) / scale, ((y as real) - oy) / scale, oz / scale)
  {
    IndexInBounds(x, y, w, h);
    RowCol(x, y, w);
  }

  /**
   * `generate_flow_field`. The division by the maximum length is only
   * defined when that maximum is positive; the source does not guard the
   * case of a field with no non-zero vector.
   */
  method GenerateFlowField(flow: array<Vec2D>, noiseBuf: array<real>, w: nat, h: nat,
                           noise: (real, real, real) -> real, len: Vec2D -> real,
                           scale: real, ox: real, oy: real, oz: real)
    requires w >= 2 && h >= 2 && flow.Length == w * h && noiseBuf.Length == w * h && scale != 0.0
    requires MaxLength(len, Stencilled(NoiseGrid(noise, scale, ox, oy, oz, w, h), flow[..], w, h)) > 0.0
    modifies flow, noiseBuf
    ensures noiseBuf[..] == NoiseGrid(noise, scale, ox, oy, oz, w, h)
    ensures var s := Stencilled(noiseBuf[..], old(flow[..]), w, h);
      flow[..] == Normalised(s, MaxLength(len, s))
  {
    FillNoise(noiseBuf, w, h, noise, scale, ox, oy, oz);
    ApplyStencil(flow, noiseBuf, w, h);
    var m := MaxScan(flow, len);
    Normalise(flow, m);
  }

  /** The noise fill: every cell, row by row, receives its sample. */
  method FillNoise(noiseBuf: array<real>, w: nat, h: nat, noise: (real, real, real) -> real,
                   scale: real, ox: real, oy: real, oz: real)
    requires w > 0 && noiseBuf.Length == w * h && scale != 0.0
    modifies noiseBuf
    ensures noiseBuf[..] == NoiseGrid(noise, scale, ox, oy, oz, w, h)
  {
    ghost var target := NoiseGrid(noise, scale, ox, oy, oz, w, h);
    var y, row := 0, 0;
    while y < h
      invariant 0 <= y <= h && row == y * w && row <= w * h
      invariant forall j {:trigger target[j]} :: 0 <= j < row ==> noiseBuf[j] == target[j]
    {
      IndexInBounds(w - 1, y, w, h);
      var x := 0;
      while x < w
        invariant 0 <= x <= w
        invariant forall j {:trigger target[j]} :: 0 <= j < row + x ==> noiseBuf[j] == target[j]
      {
        RowCol(x, y, w);
        noiseBuf[row + x] := noise(((x as real) - ox) / scale, ((y as real) - oy) / scale, oz / scale);
        x := x + 1;
      }
      NextRow(0, y, w);
      y, row := y + 1, row + w;
    }
    assert noiseBuf[..] == target;
  }

  /** The stencil pass over the interior rows. */
  method ApplyStencil(flow: array<Vec2D>, noiseBuf: array<real>, w: nat, h: nat)
    requires w >= 2 && h >= 2 && flow.Length == w * h && noiseBuf.Length == w * h
    modifies flow
    ensures flow[..] == Stencilled(noiseBuf[..], old(flow[..]), w, h)
  {
    ghost var n, prev := noiseBuf[..], flow[..];
    ghost var target := Stencilled(n, prev, w, h);
    StencilledBoundary(n, prev, w, h);
    TopRowNotInterior(w, h);
    MulAtLeast(h, w);
    var y, row := 1, w;
    while y < h - 1
      invariant 1 <= y <= h - 1 && row == y * w && row <= w * h
      invariant forall j {:trigger target[j]} :: 0 <= j < row ==> flow[j] == target[j]
      invariant forall j :: row <= j < w * h ==> flow[j] == prev[j]
      invariant noiseBuf[..] == n
    {
      StencilRowEnds(n, prev, w, h, y);
      StencilRowInterior(n, prev, w, h, y);
      StencilRow(flow, noiseBuf, w, row, n, prev, target);
      NextRow(0, y, w);
      y, row := y + 1, row + w;
    }
    StencilComplete(n, prev, w, h, flow[..]);
  }

  /**
   * The stencil pass over one interior row, which starts at flat index
   * `row`; what the row needs of the finished pass `target` is given cell by
   * cell (`StencilRowEnds`, `StencilRowInterior`).
   */
  method StencilRow(flow: array<Vec2D>, noiseBuf: array<real>, w: nat, row: nat,
                    ghost n: seq<real>, ghost prev: seq<Vec2D>, ghost target: seq<Vec2D>)
    requires w >= 2 && w <= row && noiseBuf[..] == n
    requires |n| == flow.Length == |prev| == |target| && row + 2 * w <= |target|
    requires target[row] == prev[row] && target[row + w - 1] == prev[row + w - 1]
    requires forall j {:trigger target[j]} :: row < j < row + w - 1 ==> target[j] == Curl(n, w, j)
    requires forall j {:trigger target[j]} :: 0 <= j < row ==> flow[j] == target[j]
    requires forall j :: row <= j < |target| ==> flow[j] == prev[j]
    modifies flow
    ensures forall j {:trigger target[j]} :: 0 <= j < row + w ==> flow[j] == target[j]
    ensures forall j :: row + w <= j < |target| ==> flow[j] == prev[j]
  {
    var x, i := 1, row + 1;
    while x < w - 1
      invariant 1 <= x <= w - 1 && i == row + x
      invariant forall j {:trigger target[j]} :: 0 <= j < i ==> flow[j] == target[j]
      invariant forall j :: i <= j < |target| ==> flow[j] == prev[j]
    {
      flow[i] := Vec2D(noiseBuf[i + w] - noiseBuf[i - w], -(noiseBuf[i + 1] - noiseBuf[i - 1]));
      x, i := x + 1, i + 1;
    }
  }

  /** The first and last cells of interior row `y` keep their previous vector. */
  lemma StencilRowEnds(n: seq<real>, prev: seq<Vec2D>, w: nat, h: nat, y: nat)
    requires w >= 2 && 1 <= y <= h - 2 && |n| == w * h && |prev| == w * h
    ensures w <= y * w && y * w + 2 * w <= w * h
    ensures Stencilled(n, prev, w, h)[y * w] == prev[y * w]
    ensures Stencilled(n, prev, w, h)[y * w + w - 1] == prev[y * w + w - 1]
  {
    InnerRowBounds(w, h, y);
    InteriorAt(0, y, w, h);
    InteriorAt(w - 1, y, w, h);
  }

  /** Every other cell of interior row `y` holds the curl of the noise. */
  lemma StencilRowInterior(n: seq<real>, prev: seq<Vec2D>, w: nat, h: nat, y: nat)
    requires w >= 2 && 1 <= y <= h - 2 && |n| == w * h && |prev| == w * h
    ensures w <= y * w && y * w + 2 * w <= w * h
    ensures forall j {:trigger Stencilled(n, prev, w, h)[j]} :: y * w < j < y * w + w - 1 ==>
      Stencilled(n, prev, w, h)[j] == Curl(n, w, j)
  {
    InnerRowBounds(w, h, y);
    forall j | y * w < j < y * w + w - 1
      ensures Stencilled(n, prev, w, h)[j] == Curl(n, w, j)
    {
      RowCellInterior(w, h, y, j);
      InteriorNeighbours(j, w, h);
    }
  }

  /**
   * A field that agrees with the stencil pass on every row above the last
   * and still holds the previous vectors on the last row is the finished pass.
   */
  lemma StencilComplete(n: seq<real>, prev: seq<Vec2D>, w: nat, h: nat, r: seq<Vec2D>)
    requires w > 0 && h > 0 && |n| == w * h && |prev| == w * h && |r| == w * h
    requires forall j {:trigger Stencilled(n, prev, w, h)[j]} ::
      0 <= j < (h - 1) * w ==> r[j] == Stencilled(n, prev, w, h)[j]
    requires forall j :: (h - 1) * w <= j < w * h ==> r[j] == prev[j]
    ensures r == Stencilled(n, prev, w, h)
  {
    StencilledBoundary(n, prev, w, h);
    BottomRowNotInterior(w, h);
    forall j | 0 <= j < w * h
      ensures r[j] == Stencilled(n, prev, w, h)[j]
    {
      if j >= (h - 1) * w {
        assert !Interior(j, w, h);
      }
    }
  }

  /** The scan for the largest vector length; the field is only read. */
  method MaxScan(flow: array<Vec2D>, len: Vec2D -> real) returns (m: real)
    ensures m == MaxLength(len, flow[..])
  {
    m := F32Min;
    var i := 0;
    while i < flow.Length
      invariant 0 <= i <= flow.Length
      invariant m == MaxLength(len, flow[..i])
    {
      assert flow[..i + 1][..i] == flow[..i];
      m := Max(m, len(flow[i]));
      i := i + 1;
    }
    assert flow[..flow.Length] == flow[..];
  }

  /** The uniform division of every vector by `m`. */
  method Normalise(flow: array<Vec2D>, m: real)
    requires m != 0.0
    modifies flow
    ensures flow[..] == Normalised(old(flow[..]), m)
  {
    ghost var s := flow[..];
    var i := 0;
    while i < flow.Length
      invariant 0 <= i <= flow.Length
      invariant forall j :: 0 <= j < i ==> flow[j] == Divided(s[j], m)
      invariant forall j :: i <= j < flow.Length ==> flow[j] == s[j]
    {
      flow[i] := Vec2D(flow[i].x / m, flow[i].y / m);
      i := i + 1;
    }
  }
}
