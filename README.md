# HDR merge kernel — a verified Dafny model

This project models the software HDR merge kernel `HdrSoftware.rs`. The kernel takes three exposures of one scene (Low, Mid and Hi), all of the same size and stored row-major as 8-bit RGBA pixels, and works in three stages:

1. **findBlock** walks the main diagonal of the largest centred square of Low. It keeps a sliding sum of the last `BlockSize - 1` absolute luma differences in a ring buffer. The alignment block's corner is the first diagonal step whose sum reaches the overall maximum of the walk (the last step at which the running maximum rises strictly); when no sum is positive the previous corner stays.
2. **findOffset** is run twice, once for Mid and once for Hi. It takes the `BlockSize` x `BlockSize` patch of Low at the block and compares it with every patch of the other exposure in a search window of `2*CompMaxOffset + 1` candidate positions per axis. The window starts `CompMaxOffset` pixels before the block, clamped at the top and left edges, so along an axis where the block is at c the offset ranges over `[-min(c, CompMaxOffset), 2*CompMaxOffset - min(c, CompMaxOffset)]`: a block at row 0 is searched at shifts 0 to 100 rows. Candidates are visited in row-major order and scored by a normalised cross-correlation taken over the absolute products, `sum |dp dq| / sqrt(sum dp^2 * sum dq^2)`, rather than over the signed products. The first candidate with the best score gives the offset. The other image's lumas are computed lazily into a cache whose marker for "not yet computed" is -1.
3. **root** runs once per row. Each output pixel is the channel-wise mean of the Low pixel and of the Mid and Hi pixels shifted by their offsets. A shifted sample falls back to the Low pixel when the kernel's bounds tests reject it.

**performHdrComputation** orchestrates the three stages. It does nothing unless all four buffers are present.

The modules follow the kernel's structure:

| module | file | what it holds |
|---|---|---|
| `Wrappers` | Wrappers.dfy | `Option` |
| `Image` | Image.dfy | pixels, unpacking, luma, the constants, the row-major flat index and its arithmetic |
| `Argmax` | Argmax.dfy | the running maximum under a strict `>` update (`Best`, `Leader`) and its properties; both searches use it |
| `BlockSelector` | BlockSelector.dfy | findBlock: the diagonal walk as a function over the lumas (`Walk`), and the in-place loop over the ring buffer proved equal to it |
| `OffsetSearcher` | OffsetSearcher.dfy | findOffset: patches, sums, the correlation, the candidate order and the imperative search over the patch buffer and the luma cache |
| `Merge` | Merge.dfy | root's per-pixel sample selection and the merged image |
| `Hdr` | Hdr.dfy | the script's global state as a class `HdrScript`, with `Root` and `PerformHdrComputation` |

Every loop of the kernel is a Dafny `method` proved against a specification function. Examples:
- the diagonal walk against `Walk`;
- the patch extraction against `Mean`;
- the lazily filled cache against `Coherent`;
- the correlation sums against `PatchMoments`;
- the candidate search against `Leader`/`Best`;
- the row merge against `MergedRow`.

Lemmas then state what the kernel promises about those functions.

A few points to read the model by:
- The sliding sum's ring buffer holds the last `BlockSize - 1` differences, with the oldest at the write slot (`RingHolds`).
- A new corner or offset is taken only on a strictly larger score. The result is therefore the **first** maximum in visiting order (`Argmax.LeaderIsFirstMaximum`).
- A candidate whose correlation is 0/0 (a flat patch) never wins. The kernel's NaN comparison is modelled as `None`.
- The merge's bounds tests are strict: `y1 > -offset`. A nonzero shift that lands on row 0 or column 0 of the other image therefore falls back to Low, even though that pixel is inside the image. `Merge.ShiftedRead` states this exactly; the model keeps the kernel's behaviour.
- The offsets range over `[-Correction(c), 2*CompMaxOffset - Correction(c)]`, where `Correction(c) = min(c, CompMaxOffset)`. This is the code's behaviour: near the top or left edge the window is clamped, so the range is not the symmetric `[-CompMaxOffset, CompMaxOffset]`.

## Model

| member | source | states |
|---|---|---|
| Image.Unpack | HdrSoftware.rs:57 | an unpacked pixel has every channel in [0, 1] |
| Image.Gray | HdrSoftware.rs:141-142 | the luma 0.299 R + 0.587 G + 0.114 B is never negative, so the cache marker -1 can never be a luma |
| Image.FlatInImage | HdrSoftware.rs:136 | a pixel inside the image has a flat index row * width + col inside the buffer |
| Image.RowStart | HdrSoftware.rs:46-47 | the flat index of a row start divided by the width gives back the row (y1 = y / width) |
| Image.FlatRowsOrdered | HdrSoftware.rs:51-52 | every pixel of an earlier row lies before the start of a later row, so a row's writes do not touch earlier rows |
| Argmax.BestIsMaximum | HdrSoftware.rs:112-116 | the running maximum under the strict update is at least the floor and every score, and is the floor or one of the scores |
| Argmax.LeaderIsFirstMaximum | HdrSoftware.rs:187-191 | no leader iff no score beats the floor; otherwise the leader has the maximum score and beats every earlier score strictly |
| Argmax.LeaderUnique | HdrSoftware.rs:187-191 | a score above the floor, at least every score and strictly above every earlier one, is the leader |
| BlockSelector.DiagonalOf | HdrSoftware.rs:88-98 | the diagonal of the centred square: portrait starts (H - W) / 2 rows down and walks W steps; landscape starts (W - H) / 2 columns in and walks H - 1 + (W - H) % 2 steps, so it skips the last column of the square only when W - H is even, and x0 + 1 columns stay unwalked on the right against x0 on the left; it fits the image |
| BlockSelector.DiagonalInImage | HdrSoftware.rs:104-106 | every pixel the diagonal walk reads is inside the image and the buffer |
| BlockSelector.WindowSlide | HdrSoftware.rs:108-111 | subtracting the ring's head and adding the new difference turns the sum of the last BlockSize - 1 differences into that of the next window |
| BlockSelector.RingWrite | HdrSoftware.rs:117-119 | writing the new difference at the head and advancing it modulo BlockSize - 1 keeps the ring holding the last BlockSize - 1 differences |
| BlockSelector.WalkRing | HdrSoftware.rs:100-121 | after n steps the ring holds the last BlockSize - 1 differences (zeros before the walk) and preGray is the last luma |
| BlockSelector.WalkSum | HdrSoftware.rs:108-111 | after n steps curDiff is the sum of the last min(n, BlockSize - 1) differences |
| BlockSelector.WalkBest | HdrSoftware.rs:112-116 | after n steps maxDiff is the best windowed sum (0 before any positive one) and the corner is that of its first occurrence |
| BlockSelector.WalkChoice | HdrSoftware.rs:87-123 | the full walk ends on BlockChoice, which is the previous corner or a pixel of the walked diagonal |
| BlockSelector.NewRing | HdrSoftware.rs:100 | the ring buffer starts zeroed |
| BlockSelector.Step | HdrSoftware.rs:108-120 | one loop iteration on the ring buffer and scalars is one step of Walk |
| BlockSelector.ReadGray | HdrSoftware.rs:106-107 | the luma read at blockIndex is the luma of the current diagonal pixel |
| BlockSelector.WalkDiagonal | HdrSoftware.rs:100-121 | the loop, stepping blockIndex by width + 1, ends on the corner of the full walk |
| BlockSelector.SumsLeader | HdrSoftware.rs:112-116 | over the windowed sums: no leader iff no sum is positive; otherwise the leader's sum is positive, at least every sum and strictly above every earlier sum |
| BlockSelector.BlockChoiceKeepsPrevious | HdrSoftware.rs:101-116 | when no windowed sum on the diagonal is positive, findBlock keeps the previous corner |
| BlockSelector.BlockChoiceIsFirstMaximum | HdrSoftware.rs:104-116 | when some windowed sum is positive, the corner is diagonal step k whose sum is positive, at least every sum and strictly above every earlier sum |
| BlockSelector.FindBlock | HdrSoftware.rs:87-123 | the corner is BlockChoice: the first step of the diagonal whose windowed sum is the overall maximum, or the previous corner when none is positive; it lies in the image on the diagonal |
| OffsetSearcher.SizesAgree | HdrSoftware.rs:126-128 | the patch area is BlockSize squared, the window side BOO is BlockSize + 2 CompMaxOffset, the cache is BOO squared |
| OffsetSearcher.OffsetFor | HdrSoftware.rs:189-190 | the reported offset lies in [-min(c, 50), 100 - min(c, 50)], and window start + candidate index = block + offset |
| OffsetSearcher.CandidateScoreAt | HdrSoftware.rs:152-153 | candidate (i, j) is number i * Side + j in the row-major visiting order |
| OffsetSearcher.ScoresNonNegative | HdrSoftware.rs:173-186 | no candidate's score is negative, so maxSim = -1 is below every score |
| OffsetSearcher.SearchChoice | HdrSoftware.rs:152-193 | the offsets stay the previous ones iff no candidate has a score; otherwise they come from candidate (i, j) with a score at least every score and strictly above every earlier one |
| OffsetSearcher.ExtractRow | HdrSoftware.rs:140-145 | one row of the base patch goes into the next BlockSize slots of grayP and its lumas are added to the sum |
| OffsetSearcher.ExtractPatch | HdrSoftware.rs:136-147 | grayP holds the base patch row-major and avgGrayP is its mean luma |
| OffsetSearcher.NewCache | HdrSoftware.rs:132-133 | every cache slot starts at the marker -1 |
| OffsetSearcher.LoadLuma | HdrSoftware.rs:159-168 | the value read is the pixel's luma, computed and stored on a miss and reused on a hit; the cache stays coherent and no known slot changes |
| OffsetSearcher.LoadRow | HdrSoftware.rs:157-169 | one row of a candidate is cached and its lumas are added to avgGrayQ |
| OffsetSearcher.LoadCandidate | HdrSoftware.rs:154-171 | afterwards the candidate's slots are all cached, the cache is coherent, and avgGrayQ is the candidate's mean luma |
| OffsetSearcher.CorrelateRow | HdrSoftware.rs:177-184 | the inner loop adds one row's sum of abs(dp dq), dp^2 and dq^2 |
| OffsetSearcher.Correlate | HdrSoftware.rs:173-185 | num, denPP and denQQ are the patch sums of abs(dp dq), dp^2 and dq^2 centred on the two means |
| OffsetSearcher.Correlation | HdrSoftware.rs:186 | the similarity is the squared correlation Score of the sums, and there is no score exactly when denPP or denQQ is 0 (the 0/0 case) |
| OffsetSearcher.Score | HdrSoftware.rs:186 | the squared correlation is never negative, and is missing exactly when one of the patches is flat |
| OffsetSearcher.FlatPatch | HdrSoftware.rs:173-186 | a candidate has no score exactly when one of the two patches has zero deviation from its mean, and then num is 0 too, so the kernel's quotient is 0/0 |
| OffsetSearcher.SquareOrder | HdrSoftware.rs:186-187 | for values that are not negative, a > b exactly when a^2 > b^2 |
| OffsetSearcher.KernelScoreSquared | HdrSoftware.rs:186 | when neither patch is flat, the kernel's num / sqrt(denPP denQQ) squared is the model's Score |
| OffsetSearcher.KernelScoresSameChoice | HdrSoftware.rs:186-191 | scoring the candidates by the squares of the kernel's non-negative quotients picks the same leader, hence the same offsets |
| OffsetSearcher.KernelScoreOrNone | HdrSoftware.rs:186 | a kernel quotient exists exactly when Score does, is not negative, and squares to Score |
| OffsetSearcher.KernelOrder | HdrSoftware.rs:186-187 | two non-flat candidates compare the same way under the kernel's quotients and under Score |
| OffsetSearcher.CandidateMoments | HdrSoftware.rs:173-185 | the sums of candidate number c are not negative and their Score is that candidate's entry of Scores |
| OffsetSearcher.KernelChoice | HdrSoftware.rs:152-191 | scoring every candidate of the window by the kernel's quotient gives the same leader as Scores, so the offsets are OffsetChoice |
| Argmax.LeaderOrderInvariant | HdrSoftware.rs:187-191 | two score sequences with the same missing entries and the same strict order between present entries, all above their floors, have the same leader |
| OffsetSearcher.TryCandidate | HdrSoftware.rs:154-186 | the score computed through the cache is the similarity of the base patch and candidate (i, j) |
| OffsetSearcher.Consider | HdrSoftware.rs:187-191 | the strict update with the inline offset formulas advances the running maximum and the leader's offsets by one candidate |
| OffsetSearcher.SearchRow | HdrSoftware.rs:153-192 | one row of candidates advances the running maximum and the leader's offsets across the row |
| OffsetSearcher.SearchGrid | HdrSoftware.rs:152-193 | all rows leave maxSim at the best score and the offsets at those of the first best candidate (or the previous ones) |
| OffsetSearcher.RowMajorNumber | HdrSoftware.rs:152-153 | candidate (i', j') comes before (i, j) in row-major order exactly when its number i' * Side + j' is smaller |
| OffsetSearcher.LeaderCell | HdrSoftware.rs:152-153 | the leading candidate's number decodes to a grid position (i, j) inside the window |
| OffsetSearcher.GridChoice | HdrSoftware.rs:152-193 | over non-negative scores by grid position: no leader iff no candidate has a score, and then the previous offsets stay; otherwise the leader's cell has a score at least every score, strictly above every earlier cell's, and gives the offsets |
| OffsetSearcher.GridIsSimilarity | HdrSoftware.rs:152-186 | cell (i, j) of the scores is the similarity of the base patch and candidate patch (i, j) |
| OffsetSearcher.OffsetChoiceKeepsPrevious | HdrSoftware.rs:187-191 | when no candidate has a score, findOffset leaves the offsets unchanged |
| OffsetSearcher.OffsetChoiceIsFirstBest | HdrSoftware.rs:152-193 | when some candidate has a score, the offsets are OffsetFor of the candidate (i, j) whose score is at least every candidate's and strictly above every candidate before it in row-major order |
| OffsetSearcher.FindOffset | HdrSoftware.rs:125-194 | the offsets are OffsetChoice (first best candidate in row-major order, or the previous offsets) and maxSim is the best score or -1 |
| Merge.ShiftedRead | HdrSoftware.rs:57-73 | for a pixel in the image the kernel reads the shifted sample iff the shifted position is in the image and, along a shifted axis, not in row or column 0; that index is in the buffer and equals y + x + width * offTop + offLeft |
| Merge.NoOffsetReadsInPlace | HdrSoftware.rs:57-60 | with zero offsets the sample is read at the pixel itself |
| Merge.MergeIdentical | HdrSoftware.rs:76-79 | merging three identical exposures with zero offsets gives back each pixel's colour |
| Merge.ReadSample | HdrSoftware.rs:57-73 | the nested tests and index arithmetic read exactly Sample: the shifted pixel, or Low's when rejected |
| Merge.MergePixel | HdrSoftware.rs:53-79 | the output colour is the channel-wise mean of the Low, Mid and Hi samples |
| Merge.MergedRow | HdrSoftware.rs:52-82 | the merged row has width entries, entry x being the merge of pixel (row, x) |
| Merge.MergedRows | HdrSoftware.rs:212 | the first n merged rows form a buffer of n * width entries |
| Merge.MergedRowsAt | HdrSoftware.rs:52-82 | entry row * width + col of the merged image is the merge of pixel (row, col) |
| Merge.MergedRowsNext | HdrSoftware.rs:212 | a buffer holding the first row merged rows, followed by row `row`, holds the first row + 1 |
| Hdr.HdrScript.constructor | HdrSoftware.rs:33-38 | the block and all offsets start at 0 |
| Hdr.HdrScript.Root | HdrSoftware.rs:44-85 | output slots y .. y + width - 1 hold the merged row and every other output slot is unchanged |
| Hdr.HdrScript.MergeAllRows | HdrSoftware.rs:212 | dispatching root over every row start leaves the output equal to the merged image |
| Hdr.HdrScript.PerformHdrComputation | HdrSoftware.rs:196-214 | with a buffer missing nothing changes; otherwise the block is BlockChoice from the previous one, the Mid then Hi offsets are OffsetChoice from the previous ones at that block, and the output is the merged image under the new offsets |

## Left out

- Floating point: every `float` is a mathematical `real`. Rounding, and the bit patterns of `0.299f` and the other constants, are not modelled, and neither is the order of float additions.
- `OffsetSearcher.FindOffset`: the kernel's score is `num / sqrt(denPP * denQQ)`. The model scores by its square, `num^2 / (denPP * denQQ)`. `num` is never negative, so both give the same winner and the same offsets: `OffsetSearcher.KernelScoreSquared` shows the square of the kernel's quotient is the model's score, and `OffsetSearcher.KernelChoice` that scoring every candidate of the window by the kernel's quotient (no score for a flat patch) picks the same leader as `Scores`, hence the offsets `OffsetChoice` gives. The square roots are parameters of those lemmas, not a function of the model. The reported `maxSim` is the square of the kernel's value. A zero denominator (0/0, NaN in the kernel, which never passes `sim > maxSim`) is modelled as no score.
- Packing: the output buffer holds the `float3` mean before `rsPackColorTo8888`. The rounding to 8 bits, and the alpha channel it sets, are not modelled.
- `rsForEach` is modelled as a sequential loop over the rows (`MergeAllRows`). The index allocation it walks is assumed to hold every row start once; it is built outside this file. Parallel execution is not modelled, though rows write disjoint slots (`Hdr.HdrScript.Root`'s frame).
- `Hdr.HdrScript.Root`: the row is a ghost parameter, and `y` must be the flat index of that row's start. The kernel only divides `y` by the width.
- `Hdr.HdrScript.PerformHdrComputation`, `OffsetSearcher.FindOffset`: these require the 200 x 200 search window around the block to lie inside the image (`SearchFits`). Otherwise the kernel reads pixels outside the search window's image area: past the right edge it wraps into the next row, and past the end of the buffer when that row does not exist; past the bottom it reads beyond the buffer. The model describes neither kind of read.
- `Hdr.HdrScript.Root`, `Hdr.HdrScript.MergeAllRows`: these require `Shaped`: a positive width and height, every buffer of `width * height` pixels, and an output buffer distinct from the inputs. The kernel does not check these; aliasing of the output with an input is not modelled. `PerformHdrComputation` requires them only when all four buffers are present.
- `rsDebug`, `rsUptimeMillis` and `init` only log, and are left out.
- 32-bit integer overflow of the flat indices is not modelled. Image sizes are unbounded integers.
- The script's globals become the fields of one `HdrScript` object. Their allocation and lifetime on the Java side are not modelled.
