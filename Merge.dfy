/**
 * The per-row merge (root): each output pixel is the channel-wise mean of
 * the Low sample and of the Mid and Hi samples shifted by their offsets,
 * where a shifted sample falls back to the Low one when the kernel's bounds
 * tests reject it.
 */
module Merge {
  import opened Image

  /**
   * The kernel's test for reading the shifted sample of pixel (row, col):
   * a nonzero offset must keep the shifted row (column) strictly positive
   * and below the image height (width).
   */
  predicate UseShifted(width: int, height: int, row: int, col: int, offTop: int, offLeft: int)
  {
    (offTop == 0 || (row > -offTop && row + offTop < height))
    && (offLeft == 0 || (col > -offLeft && col + offLeft < width))
  }

  /** The shifted position is inside the image and, along each shifted axis, not in its first row or column. */
  predicate Reachable(width: int, height: int, row: int, col: int, offTop: int, offLeft: int)
  {
    0 <= row + offTop < height && 0 <= col + offLeft < width
    && (offTop != 0 ==> row + offTop != 0) && (offLeft != 0 ==> col + offLeft != 0)
  }

  /**
   * For a pixel inside the image the kernel reads the shifted sample exactly
   * when the shifted position is reachable; that position is then inside the
   * buffer, at the index the kernel computes from the row start y.
   */
  lemma ShiftedRead(width: int, height: int, row: int, col: int, offTop: int, offLeft: int)
    requires 0 <= row < height && 0 <= col < width
    ensures UseShifted(width, height, row, col, offTop, offLeft) <==> Reachable(width, height, row, col, offTop, offLeft)
    ensures UseShifted(width, height, row, col, offTop, offLeft)
            ==> 0 <= Flat(width, row + offTop, col + offLeft) < width * height
                && Flat(width, row + offTop, col + offLeft) == Flat(width, row, 0) + col + width * offTop + offLeft
  {
    if UseShifted(width, height, row, col, offTop, offLeft) {
      FlatInImage(width, height, row + offTop, col + offLeft);
    }
  }

  /** The sample of pixel (row, col) taken from `shifted`, or from `low` when the kernel falls back. */
  function Sample(low: seq<Pixel>, shifted: seq<Pixel>, width: int, height: int,
                  row: int, col: int, offTop: int, offLeft: int): Pixel
    requires |low| == width * height && |shifted| == width * height
    requires 0 <= row < height && 0 <= col < width
  {
    if UseShifted(width, height, row, col, offTop, offLeft) then
      ShiftedRead(width, height, row, col, offTop, offLeft);
      shifted[Flat(width, row + offTop, col + offLeft)]
    else
      At(low, width, height, row, col)
  }

  /** The channel-wise mean of three colours. */
  function Mean3(a: Rgb, b: Rgb, c: Rgb): Rgb
  {
    Rgb((a.r + b.r + c.r) / 3.0, (a.g + b.g + c.g) / 3.0, (a.b + b.b + c.b) / 3.0)
  }

  /** The offsets of the Mid and Hi images against Low. */
  datatype Offsets = Offsets(topMid: int, leftMid: int, topHi: int, leftHi: int)

  /** The merged colour of pixel (row, col). */
  function Merged(low: seq<Pixel>, mid: seq<Pixel>, hi: seq<Pixel>, width: int, height: int,
                  off: Offsets, row: int, col: int): Rgb
    requires |low| == width * height && |mid| == width * height && |hi| == width * height
    requires 0 <= row < height && 0 <= col < width
  {
    Mean3(Unpack(At(low, width, height, row, col)),
          Unpack(Sample(low, mid, width, height, row, col, off.topMid, off.leftMid)),
          Unpack(Sample(low, hi, width, height, row, col, off.topHi, off.leftHi)))
  }

  /** With no offsets every sample is read in place. */
  lemma NoOffsetReadsInPlace(low: seq<Pixel>, shifted: seq<Pixel>, width: int, height: int, row: int, col: int)
    requires |low| == width * height && |shifted| == width * height
    requires 0 <= row < height && 0 <= col < width
    ensures Sample(low, shifted, width, height, row, col, 0, 0) == At(shifted, width, height, row, col)
  {
  }

  /** Merging three identical images gives back each pixel's colour. */
  lemma MergeIdentical(img: seq<Pixel>, width: int, height: int, row: int, col: int)
    requires |img| == width * height && 0 <= row < height && 0 <= col < width
    ensures Merged(img, img, img, width, height, Offsets(0, 0, 0, 0), row, col) == Unpack(At(img, width, height, row, col))
  {
  }

  /**
   * The Mid or Hi sample of pixel (y1, x) at flat index `index`: Low's
   * colour unless the bounds tests let the shifted pixel be read.
   */
  method ReadSample(shifted: array<Pixel>, width: int, height: int, ghost low: seq<Pixel>,
                    y1: int, x: int, index: int, offTop: int, offLeft: int, pxLow: Rgb)
    returns (px: Rgb)
    requires |low| == width * height && shifted.Length == width * height
    requires 0 <= y1 < height && 0 <= x < width && index == Flat(width, y1, x)
    requires pxLow == Unpack(At(low, width, height, y1, x))
    ensures px == Unpack(Sample(low, shifted[..], width, height, y1, x, offTop, offLeft))
  {
    ShiftedRead(width, height, y1, x, offTop, offLeft);
    px := pxLow;
    if offTop == 0 || (y1 > -offTop && y1 + offTop < height) {
      var indexShifted := index + width * offTop;
      if offLeft == 0 {
        px := Unpack(shifted[indexShifted]);
      } else if x > -offLeft && x + offLeft < width {
        px := Unpack(shifted[indexShifted + offLeft]);
      }
    }
  }

  /** The merged colour of pixel (y1, x), at flat index `index`, read from the three buffers. */
  method MergePixel(low: array<Pixel>, mid: array<Pixel>, hi: array<Pixel>, width: int, height: int,
                    off: Offsets, y1: int, x: int, index: int)
    returns (px: Rgb)
    requires low.Length == width * height && mid.Length == width * height && hi.Length == width * height
    requires 0 <= y1 < height && 0 <= x < width && index == Flat(width, y1, x)
    ensures px == Merged(low[..], mid[..], hi[..], width, height, off, y1, x)
  {
    FlatInImage(width, height, y1, x);
    var pxLow := Unpack(low[index]);
    var pxMid := ReadSample(mid, width, height, low[..], y1, x, index, off.topMid, off.leftMid, pxLow);
    var pxHi := ReadSample(hi, width, height, low[..], y1, x, index, off.topHi, off.leftHi, pxLow);
    px := Rgb((pxLow.r + pxMid.r + pxHi.r) / 3.0,
              (pxLow.g + pxMid.g + pxHi.g) / 3.0,
              (pxLow.b + pxMid.b + pxHi.b) / 3.0);
  }

  /** The merged colours of row `row`, left to right. */
  ghost function MergedRow(low: seq<Pixel>, mid: seq<Pixel>, hi: seq<Pixel>, width: int, height: int,
                           off: Offsets, row: int): (r: seq<Rgb>)
    requires |low| == width * height && |mid| == width * height && |hi| == width * height
    requires 0 < width && 0 <= row < height
    ensures |r| == width
    ensures forall x :: 0 <= x < width ==> r[x] == Merged(low, mid, hi, width, height, off, row, x)
  {
    seq(width, x requires 0 <= x < width => Merged(low, mid, hi, width, height, off, row, x))
  }

  /** The merged image: rows 0 to n - 1, one after the other, as a row-major buffer. */
  ghost function MergedRows(low: seq<Pixel>, mid: seq<Pixel>, hi: seq<Pixel>, width: int, height: int,
                            off: Offsets, n: int): (r: seq<Rgb>)
    requires |low| == width * height && |mid| == width * height && |hi| == width * height
    requires 0 < width && 0 <= n <= height
    ensures |r| == Flat(width, n, 0)
    decreases n
  {
    if n == 0 then []
    else
      FlatNextRow(width, n - 1, 0);
      MergedRows(low, mid, hi, width, height, off, n - 1) + MergedRow(low, mid, hi, width, height, off, n - 1)
  }

  /** Every pixel of the first n rows of the merged image is the merge of that pixel. */
  lemma {:induction false} MergedRowsAt(low: seq<Pixel>, mid: seq<Pixel>, hi: seq<Pixel>, width: int, height: int,
                                        off: Offsets, n: int, row: int, col: int)
    requires |low| == width * height && |mid| == width * height && |hi| == width * height
    requires 0 <= row < n <= height && 0 <= col < width
    ensures Flat(width, row, col) < |MergedRows(low, mid, hi, width, height, off, n)|
    ensures MergedRows(low, mid, hi, width, height, off, n)[Flat(width, row, col)]
            == Merged(low, mid, hi, width, height, off, row, col)
  {
    var prefix := MergedRows(low, mid, hi, width, height, off, n - 1);
    if row == n - 1 {
      assert Flat(width, row, col) == |prefix| + col;
    } else {
      MergedRowsAt(low, mid, hi, width, height, off, n - 1, row, col);
      FlatRowsOrdered(width, row, col, n - 1);
    }
  }

  /** A buffer that holds the first `row` merged rows, followed by row `row`, holds the first row + 1. */
  lemma MergedRowsNext(out: seq<Rgb>, low: seq<Pixel>, mid: seq<Pixel>, hi: seq<Pixel>, width: int, height: int,
                       off: Offsets, row: int)
    requires |low| == width * height && |mid| == width * height && |hi| == width * height
    requires 0 < width && 0 <= row < height && Flat(width, row + 1, 0) <= |out|
    requires out[..Flat(width, row, 0)] == MergedRows(low, mid, hi, width, height, off, row)
    requires out[Flat(width, row, 0)..Flat(width, row + 1, 0)] == MergedRow(low, mid, hi, width, height, off, row)
    ensures out[..Flat(width, row + 1, 0)] == MergedRows(low, mid, hi, width, height, off, row + 1)
  {
    var y := Flat(width, row, 0);
    FlatNextRow(width, row, 0);
    assert out[..y + width] == out[..y] + out[y..y + width];
  }
}
