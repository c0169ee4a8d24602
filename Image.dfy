/**
 * Image geometry shared by the three stages: packed pixels, luma values, the
 * row-major flat index and the script's compile-time constants.
 */
module Image {

  /** An 8-bit colour channel. */
  newtype Byte = x: int | 0 <= x < 256

  /** A 4-channel 8-bit pixel (uchar4), as the buffers hold it. */
  datatype Pixel = Pixel(r: Byte, g: Byte, b: Byte, a: Byte)

  /** A colour with channels in [0, 1] (float3). */
  datatype Rgb = Rgb(r: real, g: real, b: real)

  /** The RGB channels of a pixel unpacked to [0, 1]; the fourth channel is dropped. */
  function Unpack(px: Pixel): (c: Rgb)
    ensures 0.0 <= c.r <= 1.0 && 0.0 <= c.g <= 1.0 && 0.0 <= c.b <= 1.0
  {
    Rgb(px.r as real / 255.0, px.g as real / 255.0, px.b as real / 255.0)
  }

  /**
   * The luma of a pixel: 0.299 R + 0.587 G + 0.114 B over its channels
   * unpacked to [0, 1]. It is never negative.
   */
  function Gray(px: Pixel): (v: real)
    ensures 0.0 <= v
  {
    (px.r as real * 0.299 + px.g as real * 0.587 + px.b as real * 0.114) / 255.0
  }

  /** Absolute value, the `fabs` of the kernel. */
  function Abs(r: real): real { if r < 0.0 then -r else r }

  /** Side of the square alignment patch. */
  const BlockSize: int := 100

  /** Largest displacement searched on each side of the patch. */
  const CompMaxOffset: int := 50

  /** Row-major flat index of pixel (row, col) in an image `width` pixels wide. */
  function Flat(width: int, row: int, col: int): int
  {
    row * width + col
  }

  /** A pixel inside the image has a flat index inside the buffer. */
  lemma FlatInImage(width: int, height: int, row: int, col: int)
    requires 0 <= row < height && 0 <= col < width
    ensures 0 <= Flat(width, row, col) < width * height
  {
    assert row * width <= (height - 1) * width by {
      MulMonotone(row, height - 1, width);
    }
  }

  /** One row down and one column right is `width + 1` further on in the flat buffer. */
  lemma FlatDiagonalStep(width: int, row: int, col: int)
    ensures Flat(width, row + 1, col + 1) == Flat(width, row, col) + (width + 1)
  {
  }

  /** One row down is `width` further on in the flat buffer. */
  lemma FlatNextRow(width: int, row: int, col: int)
    ensures Flat(width, row + 1, col) == Flat(width, row, col) + width
  {
  }

  /** The next column is the next slot of the flat buffer. */
  lemma FlatNextCol(width: int, row: int, col: int, col': int)
    requires col' == col + 1
    ensures Flat(width, row, col') == Flat(width, row, col) + 1
  {
  }

  /** Every pixel of an earlier row comes before the start of a later row. */
  lemma FlatRowsOrdered(width: int, r: int, c: int, row: int)
    requires 0 <= r < row && 0 <= c < width
    ensures Flat(width, r, c) < Flat(width, row, 0)
  {
    MulMonotone(r + 1, row, width);
  }

  lemma MulMonotone(a: int, b: int, c: int)
    requires 0 <= a <= b && 0 <= c
    ensures a * c <= b * c
  {
  }

  /** The flat index of the start of row `row` decodes back to that row. */
  lemma RowStart(width: int, height: int, row: int)
    requires 0 < width && 0 <= row < height
    ensures 0 <= Flat(width, row, 0) < width * height
    ensures Flat(width, row, 0) % width == 0 && Flat(width, row, 0) / width == row
  {
    FlatInImage(width, height, row, 0);
    var y := row * width;
    var q, m := y / width, y % width;
    assert q * width + m == row * width;
    assert (q - row) * width == -m;
    if q > row {
      MulMonotone(1, q - row, width);
    } else if q < row {
      MulMonotone(1, row - q, width);
    }
  }

  /** The pixel at (row, col) of a row-major image. */
  function At(img: seq<Pixel>, width: int, height: int, row: int, col: int): Pixel
    requires |img| == width * height
    requires 0 <= row < height && 0 <= col < width
  {
    FlatInImage(width, height, row, col);
    img[Flat(width, row, col)]
  }
}
