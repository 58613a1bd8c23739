/**
 * Row-major grid arithmetic. A `w` by `h` grid is a flat buffer of length
 * `w * h`; cell (x, y) lives at index `y * w + x`, so index `i` is in column
 * `i % w` and row `i / w`.
 */
module Grid {

  /** Flat index of cell (x, y) in a grid `w` cells wide. */
  function Index(x: nat, y: nat, w: nat): nat
  {
    y * w + x
  }

  /**
   * Cell `i` is an interior cell: neither in row 0 or row h - 1, nor in
   * column 0 or column w - 1. Only these cells are written by the stencils.
   */
  predicate Interior(i: nat, w: nat, h: nat)
    requires w > 0
  {
    1 <= i % w <= w - 2 && 1 <= i / w <= h - 2
  }

  /** Column and row of `Index(x, y, w)` are `x` and `y` again. */
  lemma RowCol(x: nat, y: nat, w: nat)
    requires x < w
    ensures Index(x, y, w) / w == y && Index(x, y, w) % w == x
  {
    var i := y * w + x;
    var q, r := i / w, i % w;
    assert i == q * w + r && 0 <= r < w;
    if q < y {
      assert (y - q) * w >= w by { MulAtLeast(y - q, w); }
      assert false;
    } else if q > y {
      assert (q - y) * w >= w by { MulAtLeast(q - y, w); }
      assert false;
    }
  }

  /** A positive multiple of `w` is at least `w`. */
  lemma MulAtLeast(k: int, w: nat)
    requires k >= 1
    ensures k * w >= w
  {
  }

  /** Every cell of the grid has an index inside the buffer. */
  lemma IndexInBounds(x: nat, y: nat, w: nat, h: nat)
    requires x < w && y < h
    ensures Index(x, y, w) < w * h
  {
    assert (h - y) * w >= w by { MulAtLeast(h - y, w); }
    assert h * w == y * w + (h - y) * w;
  }

  /** Every index of the buffer is the index of its own column and row. */
  lemma IndexOfRowCol(i: nat, w: nat)
    requires w > 0
    ensures Index(i % w, i / w, w) == i
  {
  }

  /**
   * The four neighbours of an interior cell lie inside the buffer, and the
   * neighbours one row up and down are `w` cells away.
   */
  lemma InteriorNeighbours(i: nat, w: nat, h: nat)
    requires w > 0 && Interior(i, w, h)
    ensures w <= i - 1 && i + w + 1 < w * h
    ensures i + w == Index(i % w, i / w + 1, w) && i - w == Index(i % w, i / w - 1, w)
  {
    var x, y := i % w, i / w;
    IndexOfRowCol(i, w);
    NextRow(x, y, w);
    NextRow(x, y - 1, w);
    MulAtLeast(y, w);
    IndexInBounds(x + 1, y + 1, w, h);
  }

  /** The cell one row down is `w` cells further on. */
  lemma NextRow(x: nat, y: nat, w: nat)
    ensures Index(x, y + 1, w) == Index(x, y, w) + w
  {
  }

  /** Cell (x, y) is interior exactly when both coordinates are away from the edges. */
  lemma InteriorAt(x: nat, y: nat, w: nat, h: nat)
    requires x < w
    ensures Interior(Index(x, y, w), w, h) <==> 1 <= x <= w - 2 && 1 <= y <= h - 2
  {
    RowCol(x, y, w);
  }

  /** No cell of the first row is interior. */
  lemma TopRowNotInterior(w: nat, h: nat)
    requires w > 0
    ensures forall j :: 0 <= j < w ==> !Interior(j, w, h)
  {
    forall j | 0 <= j < w
      ensures !Interior(j, w, h)
    {
      RowCol(j, 0, w);
    }
  }

  /** No cell of the last row is interior. */
  lemma BottomRowNotInterior(w: nat, h: nat)
    requires w > 0 && h > 0
    ensures forall j :: (h - 1) * w <= j < w * h ==> !Interior(j, w, h)
  {
    forall j | (h - 1) * w <= j < w * h
      ensures !Interior(j, w, h)
    {
      IndexOfRowCol(j, w);
      if j / w < h - 1 {
        MulAtLeast(h - 1 - j / w, w);
        assert j < (j / w + 1) * w;
      }
    }
  }

  /** An interior row starts at or after the second row and is followed by a full row. */
  lemma InnerRowBounds(w: nat, h: nat, y: nat)
    requires 1 <= y <= h - 2
    ensures w <= y * w && y * w + 2 * w <= w * h
  {
    MulAtLeast(y, w);
    MulAtLeast(h - y - 1, w);
    assert w * h == y * w + w + (h - y - 1) * w;
  }

  /** The cells of interior row `y` strictly between its first and last are interior. */
  lemma RowCellInterior(w: nat, h: nat, y: nat, j: nat)
    requires w >= 2 && 1 <= y <= h - 2 && y * w < j < y * w + w - 1
    ensures Interior(j, w, h)
  {
    var x := j - y * w;
    assert Index(x, y, w) == j;
    InteriorAt(x, y, w, h);
  }
}
