/**
 * `load_mass_distribution`: the initial density grid.
 *
 * A decoded greyscale image (`res_x` by `res_y`) no larger than the target
 * grid is centred in a zero-filled `target_res_x` by `target_res_y` grid,
 * with the floor of half the spare room as padding on the left and on the
 * top, and every pixel stores its luma divided by 255. Opening and decoding
 * the file is not modelled: the decoded image, or its absence, is an input.
 */
module MassDistr {
  import opened Wrappers
  import opened Grid

  /** An 8-bit luma sample. */
  newtype Byte = b: int | 0 <= b < 256

  /** A decoded greyscale image, one sequence of luma samples per pixel row. */
  datatype LumaImage = LumaImage(width: nat, height: nat, rows: seq<seq<Byte>>)
  {
    /** Each of the `height` rows holds `width` samples. */
    predicate Valid()
    {
      |rows| == height && forall y :: 0 <= y < height ==> |rows[y]| == width
    }
  }

  /** Why no density grid was produced. */
  datatype LoadError =
    | OpenFailed   // the file could not be opened or decoded
    | TooLarge     // the image is wider or taller than the target grid

  /** The density stored for a luma sample. */
  function Shade(b: Byte): (r: real)
    ensures 0.0 <= r <= 1.0
    ensures r * 255.0 == b as real
  {
    (b as real) / 255.0
  }

  /** The padding before an image side `res` centred in a target side `target`. */
  function Padding(target: nat, res: nat): (r: nat)
    requires res <= target
    ensures 2 * r <= target - res <= 2 * r + 1
    ensures r + res <= target
  {
    (target - res) / 2
  }

  /** The image fits into the target grid. */
  predicate Fits(img: LumaImage, tw: nat, th: nat)
  {
    img.width <= tw && img.height <= th
  }

  /** The flat target index of pixel (x, y). */
  function PixelIndex(img: LumaImage, tw: nat, th: nat, x: nat, y: nat): nat
    requires Fits(img, tw, th)
  {
    Index(Padding(tw, img.width) + x, Padding(th, img.height) + y, tw)
  }

  /**
   * The density of target cell `i`: the shade of the pixel that covers it,
   * or 0 outside the placed rectangle.
   */
  function CellValue(img: LumaImage, tw: nat, th: nat, i: nat): real
    requires img.Valid() && Fits(img, tw, th) && tw > 0
  {
    var px, py := Padding(tw, img.width), Padding(th, img.height);
    var col, row := i % tw, i / tw;
    if px <= col < px + img.width && py <= row < py + img.height
    then Shade(img.rows[row - py][col - px])
    else 0.0
  }

  /** The whole placed density grid, cell by cell. */
  function Placed(img: LumaImage, tw: nat, th: nat): (r: seq<real>)
    requires img.Valid() && Fits(img, tw, th)
    ensures |r| == tw * th
  {
    if tw == 0 then [] else seq(tw * th, i requires 0 <= i < tw * th => CellValue(img, tw, th, i))
  }

  /** Every pixel of an image that fits lands inside the target buffer. */
  lemma PixelInBounds(img: LumaImage, tw: nat, th: nat, x: nat, y: nat)
    requires Fits(img, tw, th) && x < img.width && y < img.height
    ensures PixelIndex(img, tw, th, x, y) < tw * th
  {
    IndexInBounds(Padding(tw, img.width) + x, Padding(th, img.height) + y, tw, th);
  }

  /** Distinct pixels land on distinct cells. */
  lemma PixelsDistinct(img: LumaImage, tw: nat, th: nat, x1: nat, y1: nat, x2: nat, y2: nat)
    requires Fits(img, tw, th) && x1 < img.width && x2 < img.width
    requires PixelIndex(img, tw, th, x1, y1) == PixelIndex(img, tw, th, x2, y2)
    ensures x1 == x2 && y1 == y2
  {
    var px, py := Padding(tw, img.width), Padding(th, img.height);
    RowCol(px + x1, py + y1, tw);
    RowCol(px + x2, py + y2, tw);
  }

  /** The cell of pixel (x, y) holds that pixel's luma divided by 255. */
  lemma PlacedAt(img: LumaImage, tw: nat, th: nat, x: nat, y: nat)
    requires img.Valid() && Fits(img, tw, th) && x < img.width && y < img.height
    ensures PixelIndex(img, tw, th, x, y) < tw * th
    ensures Placed(img, tw, th)[PixelIndex(img, tw, th, x, y)] == (img.rows[y][x] as real) / 255.0
  {
    PixelInBounds(img, tw, th, x, y);
    RowCol(Padding(tw, img.width) + x, Padding(th, img.height) + y, tw);
  }

  /** Every cell that no pixel covers is 0: a non-zero cell is the cell of some pixel. */
  lemma PlacedOutside(img: LumaImage, tw: nat, th: nat, i: nat)
    requires img.Valid() && Fits(img, tw, th) && i < tw * th
    ensures Placed(img, tw, th)[i] != 0.0 ==>
      exists x: nat, y: nat :: x < img.width && y < img.height && PixelIndex(img, tw, th, x, y) == i
  {
    var px, py := Padding(tw, img.width), Padding(th, img.height);
    var col, row := i % tw, i / tw;
    if px <= col < px + img.width && py <= row < py + img.height {
      IndexOfRowCol(i, tw);
      assert PixelIndex(img, tw, th, col - px, row - py) == i;
    }
  }

  /** Every density of the placed grid lies in [0, 1]. */
  lemma PlacedRange(img: LumaImage, tw: nat, th: nat)
    requires img.Valid() && Fits(img, tw, th)
    ensures forall i :: 0 <= i < tw * th ==> 0.0 <= Placed(img, tw, th)[i] <= 1.0
  {
  }

  /**
   * `load_mass_distribution`: the error for a file that cannot be opened,
   * the error for an image larger than the target in either direction, and
   * otherwise the placed density grid.
   */
  method LoadMassDistribution(decoded: Option<LumaImage>, tw: nat, th: nat)
    returns (r: Result<seq<real>, LoadError>)
    requires decoded.Some? ==> decoded.value.Valid()
    ensures decoded.None? ==> r == Failure(OpenFailed)
    ensures decoded.Some? && !Fits(decoded.value, tw, th) ==> r == Failure(TooLarge)
    ensures decoded.Some? && Fits(decoded.value, tw, th) ==>
      r.Success? && r.value == Placed(decoded.value, tw, th)
  {
    if decoded.None? {
      return Failure(OpenFailed);
    }
    var img := decoded.value;
    if img.width <= tw && img.height <= th {
      var cells := Place(img, tw, th);
      return Success(cells);
    } else {
      return Failure(TooLarge);
    }
  }

  /**
   * The placement loop: a zero-filled buffer, then each pixel in row-major
   * order written at its target index.
   */
  method Place(img: LumaImage, tw: nat, th: nat) returns (cells: seq<real>)
    requires img.Valid() && Fits(img, tw, th)
    ensures cells == Placed(img, tw, th)
  {
    var n := tw * th;
    var a := new real[n](_ => 0.0);
    if tw == 0 {
      return a[..];
    }
    ghost var target := Placed(img, tw, th);
    var px, py := (tw - img.width) / 2, (th - img.height) / 2;
    var y, base := 0, py * tw + px;
    ZeroBefore(img, tw, th);
    while y < img.height
      invariant 0 <= y <= img.height && base == PixelIndex(img, tw, th, 0, y)
      invariant forall j {:trigger target[j]} :: 0 <= j < n && j < base ==> a[j] == target[j]
      invariant forall j :: base <= j < n ==> a[j] == 0.0
    {
      PlaceRow(a, img, tw, th, y, base, target);
      NextRow(px, py + y, tw);
      y, base := y + 1, base + tw;
    }
    PlaceComplete(img, tw, th, a[..], base);
    return a[..];
  }

  /**
   * One pixel row: pixel (x, y) is written at `base + x`, where `base` is the
   * target index of the row's first pixel; the margins up to the first pixel
   * of the next row stay 0.
   */
  method PlaceRow(a: array<real>, img: LumaImage, tw: nat, th: nat, y: nat, base: nat,
                  ghost target: seq<real>)
    requires img.Valid() && Fits(img, tw, th) && tw > 0 && y < img.height
    requires a.Length == tw * th && target == Placed(img, tw, th)
    requires base == PixelIndex(img, tw, th, 0, y)
    requires forall j {:trigger target[j]} :: 0 <= j < a.Length && j < base ==> a[j] == target[j]
    requires forall j :: base <= j < a.Length ==> a[j] == 0.0
    modifies a
    ensures forall j {:trigger target[j]} :: 0 <= j < a.Length && j < base + tw ==> a[j] == target[j]
    ensures forall j :: base + tw <= j < a.Length ==> a[j] == 0.0
  {
    RowFits(img, tw, th, y);
    var x := 0;
    while x < img.width
      invariant 0 <= x <= img.width
      invariant forall j {:trigger target[j]} :: 0 <= j < base + x ==> a[j] == target[j]
      invariant forall j :: base + x <= j < a.Length ==> a[j] == 0.0
    {
      PlacedAt(img, tw, th, x, y);
      a[base + x] := (img.rows[y][x] as real) / 255.0;
      x := x + 1;
    }
    ZeroGap(img, tw, th, y);
  }

  /** The row of pixel row `y` lies inside the target buffer. */
  lemma RowFits(img: LumaImage, tw: nat, th: nat, y: nat)
    requires Fits(img, tw, th) && y < img.height
    ensures PixelIndex(img, tw, th, 0, y) + img.width <= tw * th
  {
    var px, py := Padding(tw, img.width), Padding(th, img.height);
    MulAtLeast(th - py - y, tw);
    assert tw * th == (py + y) * tw + (th - py - y) * tw;
  }

  /** The cells before the first pixel are 0. */
  lemma ZeroBefore(img: LumaImage, tw: nat, th: nat)
    requires img.Valid() && Fits(img, tw, th) && tw > 0
    ensures forall j {:trigger Placed(img, tw, th)[j]} ::
      0 <= j < tw * th && j < PixelIndex(img, tw, th, 0, 0) ==> Placed(img, tw, th)[j] == 0.0
  {
    var px, py := Padding(tw, img.width), Padding(th, img.height);
    forall j | 0 <= j < tw * th && j < py * tw + px
      ensures CellValue(img, tw, th, j) == 0.0
    {
      BeforeRow(j, tw, py, px);
    }
  }

  /** An index before column `px < w` of row `r` is in an earlier row, or in row `r` left of `px`. */
  lemma BeforeRow(j: nat, w: nat, r: nat, px: nat)
    requires px < w && j < r * w + px
    ensures j / w < r || (j / w == r && j % w < px)
  {
    var q, c := j / w, j % w;
    IndexOfRowCol(j, w);
    if q > r {
      MulAtLeast(q - r, w);
      assert false;
    }
  }

  /**
   * The cells between the last pixel of row `y` and the first pixel of row
   * `y + 1` (the right margin of one target row and the left margin of the
   * next) are 0.
   */
  lemma ZeroGap(img: LumaImage, tw: nat, th: nat, y: nat)
    requires img.Valid() && Fits(img, tw, th) && tw > 0 && y < img.height
    ensures forall j {:trigger Placed(img, tw, th)[j]} ::
      0 <= j < tw * th && PixelIndex(img, tw, th, 0, y) + img.width <= j < PixelIndex(img, tw, th, 0, y) + tw
      ==> Placed(img, tw, th)[j] == 0.0
  {
    var px, py := Padding(tw, img.width), Padding(th, img.height);
    var row := (py + y) * tw;
    forall j | 0 <= j < tw * th && row + px + img.width <= j < row + px + tw
      ensures Placed(img, tw, th)[j] == 0.0
    {
      if j < row + tw {
        assert Index(j - row, py + y, tw) == j;
        RowCol(j - row, py + y, tw);
      } else {
        assert Index(j - row - tw, py + y + 1, tw) == j;
        RowCol(j - row - tw, py + y + 1, tw);
      }
    }
  }

  /**
   * A buffer that agrees with the placed grid before the first pixel
   * position of the row below the image, and is 0 from there on, is the
   * placed grid.
   */
  lemma PlaceComplete(img: LumaImage, tw: nat, th: nat, r: seq<real>, end: nat)
    requires img.Valid() && Fits(img, tw, th) && tw > 0 && |r| == tw * th
    requires end == PixelIndex(img, tw, th, 0, img.height)
    requires forall j {:trigger Placed(img, tw, th)[j]} ::
      0 <= j < tw * th && j < end ==> r[j] == Placed(img, tw, th)[j]
    requires forall j :: end <= j < tw * th ==> r[j] == 0.0
    ensures r == Placed(img, tw, th)
  {
    ZeroAfter(img, tw, th);
  }

  /** The cells from the first pixel position of the row below the image on are 0. */
  lemma ZeroAfter(img: LumaImage, tw: nat, th: nat)
    requires img.Valid() && Fits(img, tw, th) && tw > 0
    ensures forall j {:trigger Placed(img, tw, th)[j]} ::
      PixelIndex(img, tw, th, 0, img.height) <= j < tw * th ==> Placed(img, tw, th)[j] == 0.0
  {
    var px, py := Padding(tw, img.width), Padding(th, img.height);
    forall j | (py + img.height) * tw + px <= j < tw * th
      ensures CellValue(img, tw, th, j) == 0.0
    {
      FromRow(j, tw, py + img.height);
    }
  }

  /** An index at or after the start of row `r` is in row `r` or a later one. */
  lemma FromRow(j: nat, w: nat, r: nat)
    requires w > 0 && r * w <= j
    ensures j / w >= r
  {
    var q := j / w;
    IndexOfRowCol(j, w);
    if q < r {
      MulAtLeast(r - q, w);
      assert false;
    }
  }
}
