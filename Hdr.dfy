/**
 * The script's state and entry point: the three exposures and the output
 * buffer, the image size, the alignment block and the offsets of the Mid and
 * Hi exposures, and performHdrComputation, which runs block selection, the
 * two offset searches and the merge of every row.
 */
module Hdr {
  import opened Image
  import opened BlockSelector
  import opened OffsetSearcher
  import opened Merge

  class HdrScript {
    var inputLow: array?<Pixel>
    var inputMid: array?<Pixel>
    var inputHi: array?<Pixel>
    var output: array?<Rgb>
    var width: int
    var height: int
    var blockTop: int
    var blockLeft: int
    var offsetTopMid: int
    var offsetLeftMid: int
    var offsetTopHi: int
    var offsetLeftHi: int

    /** A script with the given buffers; the block and all offsets start at 0. */
    constructor(low: array?<Pixel>, mid: array?<Pixel>, hi: array?<Pixel>, out: array?<Rgb>, w: int, h: int)
      ensures inputLow == low && inputMid == mid && inputHi == hi && output == out
      ensures width == w && height == h
      ensures blockTop == 0 && blockLeft == 0
      ensures Offs() == Offsets(0, 0, 0, 0)
    {
      inputLow, inputMid, inputHi, output := low, mid, hi, out;
      width, height := w, h;
      blockTop, blockLeft := 0, 0;
      offsetTopMid, offsetLeftMid, offsetTopHi, offsetLeftHi := 0, 0, 0, 0;
    }

    /** The current offsets of Mid and Hi. */
    function Offs(): Offsets
      reads this
    {
      Offsets(offsetTopMid, offsetLeftMid, offsetTopHi, offsetLeftHi)
    }

    /** Every buffer that is present has one element per pixel, and the output is none of the inputs. */
    predicate Shaped()
      reads this
    {
      0 < width && 0 < height
      && (inputLow != null ==> inputLow.Length == width * height)
      && (inputMid != null ==> inputMid.Length == width * height)
      && (inputHi != null ==> inputHi.Length == width * height)
      && (output != null ==> output.Length == width * height
                             && output as object? != inputLow as object?
                             && output as object? != inputMid as object?
                             && output as object? != inputHi as object?)
    }

    /** All four buffers are present. */
    predicate Ready()
      reads this
    {
      inputLow != null && inputMid != null && inputHi != null && output != null
    }

    /**
     * root: merges the row that starts at flat index y (row `row`), writing
     * exactly the output pixels of that row.
     */
    method Root(y: int, ghost row: int)
      requires Shaped() && Ready() && 0 <= row < height && y == Flat(width, row, 0)
      modifies output
      ensures y + width <= output.Length
      ensures output[y..y + width] == MergedRow(inputLow[..], inputMid[..], inputHi[..], width, height, Offs(), row)
      ensures output[..y] == old(output[..y]) && output[y + width..] == old(output[y + width..])
    {
      RowStart(width, height, row);
      FlatInImage(width, height, row, width - 1);
      ghost var target := MergedRow(inputLow[..], inputMid[..], inputHi[..], width, height, Offs(), row);
      var y1 := y / width;
      var x := 0;
      while x < width
        invariant 0 <= x <= width
        invariant output[y..y + x] == target[..x]
        invariant output[..y] == old(output[..y]) && output[y + width..] == old(output[y + width..])
      {
        var index := y + x;
        FlatInImage(width, height, y1, x);
        var px := MergePixel(inputLow, inputMid, inputHi, width, height, Offs(), y1, x, index);
        output[index] := px;
        x := x + 1;
      }
    }

    /**
     * The dispatch of root over the index allocation, which holds the start
     * of every row: the rows are merged one after the other.
     */
    method MergeAllRows()
      requires Shaped() && Ready()
      modifies output
      ensures output[..] == MergedRows(inputLow[..], inputMid[..], inputHi[..], width, height, Offs(), height)
    {
      var row := 0;
      while row < height
        invariant 0 <= row <= height
        invariant Flat(width, row, 0) <= output.Length
        invariant output[..Flat(width, row, 0)] == MergedRows(inputLow[..], inputMid[..], inputHi[..], width, height, Offs(), row)
      {
        var y := row * width;
        Root(y, row);
        FlatNextRow(width, row, 0);
        MergedRowsNext(output[..], inputLow[..], inputMid[..], inputHi[..], width, height, Offs(), row);
        row := row + 1;
      }
      assert output[..] == output[..Flat(width, height, 0)];
    }

    /**
     * performHdrComputation: with all four buffers present, selects the block
     * in Low, finds the offsets of Mid and then of Hi against Low at that
     * block (each search starting from the offsets kept from the last run),
     * and merges every row; with any buffer missing, changes nothing.
     */
    method PerformHdrComputation()
      requires Ready() ==>
        Shaped() &&
        var block := BlockChoice(Scan(inputLow[..], width, height), blockTop, blockLeft);
        SearchFits(width, height, block.0, block.1)
      modifies this, output
      ensures inputLow == old(inputLow) && inputMid == old(inputMid) && inputHi == old(inputHi) && output == old(output)
      ensures width == old(width) && height == old(height)
      ensures !Ready() ==> unchanged(this) && (output != null ==> unchanged(output))
      ensures Ready() ==>
        (blockTop, blockLeft) == BlockChoice(Scan(inputLow[..], width, height), old(blockTop), old(blockLeft))
        && SearchFits(width, height, blockTop, blockLeft)
        && (offsetTopMid, offsetLeftMid)
           == OffsetChoice(BasePatch(inputLow[..], width, height, blockTop, blockLeft),
                           Window(inputMid[..], width, height, blockTop, blockLeft),
                           blockTop, blockLeft, old(offsetTopMid), old(offsetLeftMid))
        && (offsetTopHi, offsetLeftHi)
           == OffsetChoice(BasePatch(inputLow[..], width, height, blockTop, blockLeft),
                           Window(inputHi[..], width, height, blockTop, blockLeft),
                           blockTop, blockLeft, old(offsetTopHi), old(offsetLeftHi))
        && output[..] == MergedRows(inputLow[..], inputMid[..], inputHi[..], width, height, Offs(), height)
    {
      if inputLow == null || inputMid == null || inputHi == null || output == null {
        // a buffer is missing: nothing is computed
      } else {
        blockTop, blockLeft := FindBlock(inputLow, width, height, blockTop, blockLeft);
        var maxSim;
        offsetTopMid, offsetLeftMid, maxSim :=
          FindOffset(inputLow, inputMid, width, height, blockTop, blockLeft, offsetTopMid, offsetLeftMid);
        offsetTopHi, offsetLeftHi, maxSim :=
          FindOffset(inputLow, inputHi, width, height, blockTop, blockLeft, offsetTopHi, offsetLeftHi);
        MergeAllRows();
      }
    }
  }
}
