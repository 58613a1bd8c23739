/**
 * One upwind advection step of the density field (`simulate`).
 *
 * The density `d` (mass_distr) is advected through the flow field `f`; the
 * result is written into the interior of the scratch buffer `b`
 * (mass_buffer), and the two buffers are then exchanged, so that the caller's
 * current density is the freshly written one.
 */
module Advection {
  import opened Grid
  import opened Vectors

  /**
   * The one-sided difference along one axis, taken from the side the flow
   * comes from: forward (`forward - centre`) when the flow component `v` is
   * negative, backward (`centre - back`) otherwise.
   */
  function UpwindDifference(back: real, centre: real, forward: real, v: real): real
  {
    if v < 0.0 then forward - centre else centre - back
  }

  /**
   * The new density of interior cell `i`: an explicit Euler step with
   * coefficient 0.5 along the directional derivative, built from the upwind
   * difference on each axis (the row neighbours for x, the neighbours one row
   * up and down, `w` cells apart, for y).
   */
  function UpwindAt(d: seq<real>, f: seq<Vec2D>, w: nat, i: nat): real
    requires 1 <= w <= i && i + w < |d| && |f| == |d|
  {
    var gx := UpwindDifference(d[i - 1], d[i], d[i + 1], f[i].x);
    var gy := UpwindDifference(d[i - w], d[i], d[i + w], f[i].y);
    d[i] - 0.5 * (f[i].x * gx + f[i].y * gy)
  }

  /** The upwind update written out from its two one-sided differences. */
  lemma UpwindValue(d: seq<real>, f: seq<Vec2D>, w: nat, i: nat, gx: real, gy: real)
    requires 1 <= w <= i && i + w < |d| && |f| == |d|
    requires gx == UpwindDifference(d[i - 1], d[i], d[i + 1], f[i].x)
    requires gy == UpwindDifference(d[i - w], d[i], d[i + w], f[i].y)
    ensures UpwindAt(d, f, w, i) == d[i] - 0.5 * (f[i].x * gx + f[i].y * gy)
  {
  }

  /**
   * The scratch buffer after the interior pass: interior cells hold the
   * upwind update of `d`, every boundary cell keeps its value in `b`. (The
   * range conjuncts of the guard hold for every interior cell, see
   * `Grid.InteriorNeighbours`; they keep the neighbour reads in range.)
   */
  function Advect(d: seq<real>, b: seq<real>, f: seq<Vec2D>, w: nat, h: nat): (r: seq<real>)
    requires w > 0 && |d| == w * h && |b| == w * h && |f| == w * h
    ensures |r| == w * h
  {
    seq(w * h, i requires 0 <= i < w * h =>
      if Interior(i, w, h) && w <= i && i + w < w * h then UpwindAt(d, f, w, i) else b[i])
  }

  /** Boundary cells of the pass keep the value they had in the scratch buffer. */
  lemma AdvectBoundary(d: seq<real>, b: seq<real>, f: seq<Vec2D>, w: nat, h: nat)
    requires w > 0 && |d| == w * h && |b| == w * h && |f| == w * h
    ensures forall j {:trigger Advect(d, b, f, w, h)[j]} ::
      0 <= j < w * h && !Interior(j, w, h) ==> Advect(d, b, f, w, h)[j] == b[j]
  {
  }

  /** Interior cells of the pass hold the upwind update of the density. */
  lemma AdvectInterior(d: seq<real>, b: seq<real>, f: seq<Vec2D>, w: nat, h: nat, i: nat)
    requires w > 0 && |d| == w * h && |b| == w * h && |f| == w * h && Interior(i, w, h)
    ensures w <= i && i + w < w * h
    ensures Advect(d, b, f, w, h)[i] == UpwindAt(d, f, w, i)
  {
    InteriorNeighbours(i, w, h);
  }

  /** The first and last cells of interior row `y` keep their scratch value. */
  lemma RowEnds(d: seq<real>, b: seq<real>, f: seq<Vec2D>, w: nat, h: nat, y: nat)
    requires w >= 2 && 1 <= y <= h - 2 && |d| == w * h && |b| == w * h && |f| == w * h
    ensures w <= y * w && y * w + 2 * w <= w * h
    ensures Advect(d, b, f, w, h)[y * w] == b[y * w]
    ensures Advect(d, b, f, w, h)[y * w + w - 1] == b[y * w + w - 1]
  {
    InnerRowBounds(w, h, y);
    InteriorAt(0, y, w, h);
    InteriorAt(w - 1, y, w, h);
  }

  /** Every other cell of interior row `y` holds the upwind update. */
  lemma RowInterior(d: seq<real>, b: seq<real>, f: seq<Vec2D>, w: nat, h: nat, y: nat)
    requires w >= 2 && 1 <= y <= h - 2 && |d| == w * h && |b| == w * h && |f| == w * h
    ensures w <= y * w && y * w + 2 * w <= w * h
    ensures forall j {:trigger Advect(d, b, f, w, h)[j]} :: y * w < j < y * w + w - 1 ==>
      Advect(d, b, f, w, h)[j] == UpwindAt(d, f, w, j)
  {
    InnerRowBounds(w, h, y);
    forall j | y * w < j < y * w + w - 1
      ensures Advect(d, b, f, w, h)[j] == UpwindAt(d, f, w, j)
    {
      RowCellInterior(w, h, y, j);
      AdvectInterior(d, b, f, w, h, j);
    }
  }

  /**
   * A buffer that agrees with the pass on every row above the last and still
   * holds the scratch values on the last row is the finished pass.
   */
  lemma PassComplete(d: seq<real>, b: seq<real>, f: seq<Vec2D>, w: nat, h: nat, r: seq<real>)
    requires w > 0 && h > 0 && |d| == w * h && |b| == w * h && |f| == w * h && |r| == w * h
    requires forall j {:trigger Advect(d, b, f, w, h)[j]} ::
      0 <= j < (h - 1) * w ==> r[j] == Advect(d, b, f, w, h)[j]
    requires forall j :: (h - 1) * w <= j < w * h ==> r[j] == b[j]
    ensures r == Advect(d, b, f, w, h)
  {
    AdvectBoundary(d, b, f, w, h);
    BottomRowNotInterior(w, h);
    forall j | 0 <= j < w * h
      ensures r[j] == Advect(d, b, f, w, h)[j]
    {
      if j >= (h - 1) * w {
        assert !Interior(j, w, h);
      }
    }
  }

  /**
   * Interior cell (x, y) in grid coordinates: the old density minus half the
   * flow times the upwind gradient, where the x difference looks at the cell
   * to the right when `F.x < 0` and to the left otherwise (so `F.x == 0`
   * takes the backward difference), and the y difference at the next row
   * when `F.y < 0` and at the previous row otherwise.
   */
  lemma AdvectAt(d: seq<real>, b: seq<real>, f: seq<Vec2D>, w: nat, h: nat, x: nat, y: nat)
    requires |d| == w * h && |b| == w * h && |f| == w * h
    requires 1 <= x <= w - 2 && 1 <= y <= h - 2
    ensures Index(x + 1, y, w) < w * h && Index(x, y + 1, w) < w * h
    ensures var c, v := Index(x, y, w), f[Index(x, y, w)];
      var gx := if v.x < 0.0 then d[Index(x + 1, y, w)] - d[c] else d[c] - d[Index(x - 1, y, w)];
      var gy := if v.y < 0.0 then d[Index(x, y + 1, w)] - d[c] else d[c] - d[Index(x, y - 1, w)];
      Advect(d, b, f, w, h)[c] == d[c] - 0.5 * (v.x * gx + v.y * gy)
  {
    var c := Index(x, y, w);
    IndexInBounds(x + 1, y, w, h);
    IndexInBounds(x, y + 1, w, h);
    InteriorAt(x, y, w, h);
    AdvectInterior(d, b, f, w, h, c);
    NextRow(x, y, w);
    NextRow(x, y - 1, w);
  }

  /**
   * Cells of row 0, row h - 1, column 0 and column w - 1 are never written:
   * they keep the value the scratch buffer had.
   */
  lemma AdvectBoundaryAt(d: seq<real>, b: seq<real>, f: seq<Vec2D>, w: nat, h: nat, x: nat, y: nat)
    requires |d| == w * h && |b| == w * h && |f| == w * h
    requires x < w && y < h && (x == 0 || x == w - 1 || y == 0 || y == h - 1)
    ensures Index(x, y, w) < w * h && Advect(d, b, f, w, h)[Index(x, y, w)] == b[Index(x, y, w)]
  {
    IndexInBounds(x, y, w, h);
    InteriorAt(x, y, w, h);
  }

  /** An interior cell whose flow vector is zero keeps its density. */
  lemma AdvectZeroFlow(d: seq<real>, b: seq<real>, f: seq<Vec2D>, w: nat, h: nat, i: nat)
    requires w > 0 && |d| == w * h && |b| == w * h && |f| == w * h
    requires i < w * h && Interior(i, w, h) && f[i] == Zero
    ensures Advect(d, b, f, w, h)[i] == d[i]
  {
    AdvectInterior(d, b, f, w, h, i);
  }

  /**
   * An interior cell whose four neighbours have its own density keeps it,
   * whatever the flow.
   */
  lemma AdvectFlat(d: seq<real>, b: seq<real>, f: seq<Vec2D>, w: nat, h: nat, i: nat)
    requires w > 0 && |d| == w * h && |b| == w * h && |f| == w * h && Interior(i, w, h)
    requires w <= i && i + w < w * h
    requires d[i - 1] == d[i] == d[i + 1] && d[i - w] == d[i] == d[i + w]
    ensures Advect(d, b, f, w, h)[i] == d[i]
  {
    AdvectInterior(d, b, f, w, h, i);
  }

  /** All values of `s` lie in [lo, hi]. */
  ghost predicate Within(s: seq<real>, lo: real, hi: real)
  {
    forall i :: 0 <= i < |s| ==> lo <= s[i] <= hi
  }

  /** Both components of every flow vector lie in [-1, 1]. */
  ghost predicate UnitBounded(f: seq<Vec2D>)
  {
    forall i :: 0 <= i < |f| ==> -1.0 <= f[i].x <= 1.0 && -1.0 <= f[i].y <= 1.0
  }

  /**
   * A discrete maximum principle: when every flow component is at most 1 in
   * magnitude, each new value is a convex combination of the old value and
   * two upwind neighbours, so the pass creates no new extremes.
   */
  lemma AdvectWithin(d: seq<real>, b: seq<real>, f: seq<Vec2D>, w: nat, h: nat, lo: real, hi: real)
    requires w > 0 && |d| == w * h && |b| == w * h && |f| == w * h
    requires Within(d, lo, hi) && Within(b, lo, hi) && UnitBounded(f)
    ensures Within(Advect(d, b, f, w, h), lo, hi)
  {
    var r := Advect(d, b, f, w, h);
    forall i | 0 <= i < |r|
      ensures lo <= r[i] <= hi
    {
      if Interior(i, w, h) {
        AdvectInterior(d, b, f, w, h, i);
        UpwindWithin(d, f, w, i, lo, hi);
      }
    }
  }

  /** The upwind update of one cell stays within the bounds of its stencil. */
  lemma UpwindWithin(d: seq<real>, f: seq<Vec2D>, w: nat, i: nat, lo: real, hi: real)
    requires 1 <= w <= i && i + w < |d| && |f| == |d|
    requires lo <= d[i - w] <= hi && lo <= d[i - 1] <= hi && lo <= d[i] <= hi
    requires lo <= d[i + 1] <= hi && lo <= d[i + w] <= hi
    requires -1.0 <= f[i].x <= 1.0 && -1.0 <= f[i].y <= 1.0
    ensures lo <= UpwindAt(d, f, w, i) <= hi
  {
    var v, c := f[i], d[i];
    var ux := if v.x < 0.0 then d[i + 1] else d[i - 1];
    var uy := if v.y < 0.0 then d[i + w] else d[i - w];
    var ax := if v.x < 0.0 then -v.x else v.x;
    var ay := if v.y < 0.0 then -v.y else v.y;
    assert v.x * UpwindDifference(d[i - 1], c, d[i + 1], v.x) == -(ax * (ux - c));
    assert v.y * UpwindDifference(d[i - w], c, d[i + w], v.y) == -(ay * (uy - c));
    ConvexStep(c, ux, uy, ax, ay, lo, hi);
  }

  /**
   * `c + a/2 (u - c) + b/2 (v - c)` with weights `a, b` in [0, 1] is a convex
   * combination of `c`, `u` and `v`, so it stays in any interval holding all three.
   */
  lemma ConvexStep(c: real, u: real, v: real, a: real, b: real, lo: real, hi: real)
    requires lo <= c <= hi && lo <= u <= hi && lo <= v <= hi
    requires 0.0 <= a <= 1.0 && 0.0 <= b <= 1.0
    ensures lo <= c + 0.5 * (a * (u - c)) + 0.5 * (b * (v - c)) <= hi
  {
    ConvexUpper(c, u, v, a, b, hi);
    ConvexUpper(-c, -u, -v, a, b, -lo);
    Negate(a, u - c);
    Negate(b, v - c);
  }

  /** The upper half of `ConvexStep`. */
  lemma ConvexUpper(c: real, u: real, v: real, a: real, b: real, hi: real)
    requires c <= hi && u <= hi && v <= hi
    requires 0.0 <= a <= 1.0 && 0.0 <= b <= 1.0
    ensures c + 0.5 * (a * (u - c)) + 0.5 * (b * (v - c)) <= hi
  {
    WeightedBelow(u - c, v - c, a, b, hi - c);
  }

  /** Half weights in [0, 1] on two terms below a non-negative bound keep their sum below it. */
  lemma WeightedBelow(x: real, y: real, a: real, b: real, d: real)
    requires x <= d && y <= d && 0.0 <= d
    requires 0.0 <= a <= 1.0 && 0.0 <= b <= 1.0
    ensures 0.5 * (a * x) + 0.5 * (b * y) <= d
  {
    MulMono(a, x, d);
    MulMono(b, y, d);
    MulWeight(a, d);
    MulWeight(b, d);
    assert 0.5 * (a * x) + 0.5 * (b * y) <= 0.5 * (a * d) + 0.5 * (b * d);
    assert 0.5 * (a * d) + 0.5 * (b * d) <= d;
  }

  /** Moves a sign out of a product. */
  lemma Negate(k: real, p: real)
    ensures k * (-p) == -(k * p)
  {
  }

  /** Multiplying by a non-negative factor preserves order. */
  lemma MulMono(k: real, p: real, q: real)
    requires k >= 0.0 && p <= q
    ensures k * p <= k * q
  {
    assert k * q - k * p == k * (q - p);
  }

  /** A weight in [0, 1] shrinks a non-negative quantity. */
  lemma MulWeight(k: real, p: real)
    requires 0.0 <= k <= 1.0 && p >= 0.0
    ensures k * p <= p
  {
    MulMono(p, k, 1.0);
  }

  /**
   * `simulate`: writes the interior update into `buffer`, then swaps the two
   * buffers. The swap is modelled by returning the two array references
   * exchanged: the caller continues with `newDistr` as its density and
   * `newBuffer` as its scratch buffer. `flow` and the old density are only
   * read.
   */
  method Simulate(flow: array<Vec2D>, distr: array<real>, buffer: array<real>, w: nat, h: nat)
    returns (newDistr: array<real>, newBuffer: array<real>)
    requires w >= 2 && h >= 2 && distr != buffer
    requires flow.Length == w * h && distr.Length == w * h && buffer.Length == w * h
    modifies buffer
    ensures newDistr == buffer && newBuffer == distr
    ensures newDistr[..] == Advect(old(distr[..]), old(buffer[..]), flow[..], w, h)
    ensures newBuffer[..] == old(distr[..])
  {
    ghost var d, fl, b0 := distr[..], flow[..], buffer[..];
    ghost var target := Advect(d, b0, fl, w, h);
    AdvectBoundary(d, b0, fl, w, h);
    TopRowNotInterior(w, h);
    MulAtLeast(h, w);
    var y, row := 1, w;
    while y < h - 1
      invariant 1 <= y <= h - 1 && row == y * w && row <= w * h
      invariant forall j {:trigger target[j]} :: 0 <= j < row ==> buffer[j] == target[j]
      invariant forall j :: row <= j < w * h ==> buffer[j] == b0[j]
      invariant distr[..] == d && flow[..] == fl
    {
      RowEnds(d, b0, fl, w, h, y);
      RowInterior(d, b0, fl, w, h, y);
      AdvectRow(flow, distr, buffer, w, row, d, fl, b0, target);
      NextRow(0, y, w);
      y, row := y + 1, row + w;
    }
    PassComplete(d, b0, fl, w, h, buffer[..]);
    newDistr, newBuffer := buffer, distr;
  }

  /**
   * The pass over one interior row, which starts at flat index `row`: its
   * interior cells receive their upwind update, so the prefix of `buffer`
   * that agrees with the finished pass `target` grows by one full row. What
   * the row needs of `target` is given cell by cell (`RowEnds`, `RowInterior`).
   */
  method AdvectRow(flow: array<Vec2D>, distr: array<real>, buffer: array<real>, w: nat, row: nat,
                   ghost d: seq<real>, ghost fl: seq<Vec2D>, ghost b0: seq<real>, ghost target: seq<real>)
    requires w >= 2 && w <= row && distr != buffer && distr[..] == d && flow[..] == fl
    requires |d| == |fl| == buffer.Length == |b0| == |target| && row + 2 * w <= |target|
    requires target[row] == b0[row] && target[row + w - 1] == b0[row + w - 1]
    requires forall j {:trigger target[j]} :: row < j < row + w - 1 ==>
      target[j] == UpwindAt(d, fl, w, j)
    requires forall j {:trigger target[j]} :: 0 <= j < row ==> buffer[j] == target[j]
    requires forall j :: row <= j < |target| ==> buffer[j] == b0[j]
    modifies buffer
    ensures forall j {:trigger target[j]} :: 0 <= j < row + w ==> buffer[j] == target[j]
    ensures forall j :: row + w <= j < |target| ==> buffer[j] == b0[j]
  {
    var x, i := 1, row + 1;
    while x < w - 1
      invariant 1 <= x <= w - 1 && i == row + x
      invariant forall j {:trigger target[j]} :: 0 <= j < i ==> buffer[j] == target[j]
      invariant forall j :: i <= j < |target| ==> buffer[j] == b0[j]
    {
      var f := flow[i];
      var gx := if f.x < 0.0 then distr[i + 1] - distr[i] else distr[i] - distr[i - 1];
      var gy := if f.y < 0.0 then distr[i + w] - distr[i] else distr[i] - distr[i - w];
      var diff := f.x * gx + f.y * gy;
      var value := distr[i] - 0.5 * diff;
      assert gx == UpwindDifference(d[i - 1], d[i], d[i + 1], fl[i].x);
      assert gy == UpwindDifference(d[i - w], d[i], d[i + w], fl[i].y);
      UpwindValue(d, fl, w, i, gx, gy);
      buffer[i] := value;
      x, i := x + 1, i + 1;
    }
  }
}
