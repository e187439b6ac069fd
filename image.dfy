/**
 * The image the ray tracer produces: its size, its pixels, and the
 * row-major numbering of pixels (and of the sub-pixel samples inside a
 * pixel) that both the renderer and the PPM writer walk through.
 */
module Image {
  /** An unsigned 8-bit value. */
  type byte = x: int | 0 <= x < 256

  /** A pixel: one byte per channel. */
  datatype Pixel = Pixel(r: byte, g: byte, b: byte)

  /** The default image size; both can be overridden when building. */
  const ImageWidth: nat := 640
  const ImageHeight: nat := 480

  /** The number of pixels, in the order they are rendered and written. */
  const PixelCount: nat := ImageWidth * ImageHeight

  /**
   * The column and row of the i-th cell of a grid stored row by row with
   * rows of width w: i % w and i / w.
   */
  function Split(i: nat, w: nat): (xy: (nat, nat))
    requires w > 0
    ensures xy.0 < w
    ensures xy.1 * w + xy.0 == i
  {
    (i % w, i / w)
  }

  /** The row-major index of column x, row y. */
  function Join(x: nat, y: nat, w: nat): nat
  {
    y * w + x
  }

  /** An index inside a w-by-h grid splits into a column below w and a row below h. */
  lemma SplitInGrid(i: nat, w: nat, h: nat)
    requires w > 0 && i < w * h
    ensures Split(i, w).0 < w && Split(i, w).1 < h
    ensures Join(Split(i, w).0, Split(i, w).1, w) == i
  {
    var (x, y) := Split(i, w);
    if y >= h {
      MulMonotone(h, y, w);
    }
  }

  lemma MulMonotone(a: nat, b: nat, w: nat)
    requires a <= b
    ensures a * w <= b * w
  {
  }

  /** A grid with a cell in it has a positive width. */
  lemma NonEmptyGrid(i: nat, w: nat)
    requires i < w * w
    ensures w > 0
  {
  }

  /** Every cell (x, y) of the grid is reached by exactly the index y * w + x. */
  lemma JoinSplit(x: nat, y: nat, w: nat)
    requires x < w
    ensures Split(Join(x, y, w), w) == (x, y)
  {
    var i := Join(x, y, w);
    var (x', y') := Split(i, w);
    if y' < y {
      MulMonotone(y' + 1, y, w);
    } else if y' > y {
      MulMonotone(y + 1, y', w);
    }
  }

  /** Distinct indices name distinct cells: the numbering is a bijection onto the grid. */
  lemma SplitInjective(i: nat, j: nat, w: nat)
    requires w > 0
    ensures Split(i, w) == Split(j, w) <==> i == j
  {
  }
}
