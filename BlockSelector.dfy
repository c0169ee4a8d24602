/**
 * Choice of the alignment patch: walk the main diagonal of the largest
 * centred square of the base image, keep a sliding sum of the last
 * `BlockSize - 1` absolute luma differences in a ring buffer, and record the
 * first diagonal position whose windowed sum is the (positive) maximum.
 */
module BlockSelector {
  import opened Wrappers
  import opened Image
  import opened Argmax

  /** Number of differences in the sliding window, and size of the ring buffer. */
  const MaxDiffCount: int := BlockSize - 1

  /** The diagonal walked: it starts at (y0, x0) and x runs from x0 up to, not including, maxX. */
  datatype Diagonal = Diagonal(x0: int, y0: int, maxX: int)
  {
    function Length(): int { maxX - x0 }
  }

  /**
   * The diagonal of the largest centred square. A portrait image is cropped
   * to (height - width) / 2 rows above; a landscape image starts
   * x0 = (width - height) / 2 columns in and stops before column
   * width - x0 - 1, so x0 + 1 columns on the right are not walked against
   * x0 on the left: when width - height is even that leaves out the last
   * column of the square, and when it is odd the walk covers height columns.
   */
  function DiagonalOf(width: int, height: int): (d: Diagonal)
    requires 0 < width && 0 < height
    ensures 0 <= d.x0 && 0 <= d.y0 && 0 <= d.Length()
    ensures d.y0 + d.Length() <= height && d.x0 + d.Length() <= width
    ensures width > height ==> d.y0 == 0 && d.x0 == (width - height) / 2
                               && d.Length() == height - 1 + (width - height) % 2
                               && width - d.maxX == d.x0 + 1
    ensures width <= height ==> d.x0 == 0 && d.y0 == (height - width) / 2 && d.Length() == width
  {
    if width > height then
      var x0 := (width - height) / 2;
      Diagonal(x0, 0, width - x0 - 1)
    else
      Diagonal(0, (height - width) / 2, width)
  }

  /** Every pixel the walk reads is inside the image. */
  lemma DiagonalInImage(width: int, height: int, k: nat)
    requires 0 < width && 0 < height && k < DiagonalOf(width, height).Length()
    ensures var d := DiagonalOf(width, height);
            0 <= d.y0 + k < height && 0 <= d.x0 + k < width
            && 0 <= Flat(width, d.y0 + k, d.x0 + k) < width * height
  {
    var d := DiagonalOf(width, height);
    FlatInImage(width, height, d.y0 + k, d.x0 + k);
  }

  /** Start of the window of the last `MaxDiffCount` differences among the first `k`. */
  function SumStart(k: int): int
  {
    if k > MaxDiffCount then k - MaxDiffCount else 0
  }

  /** The base image as the block selector sees it: its pixels and dimensions. */
  datatype Scan = Scan(img: seq<Pixel>, width: int, height: int)
  {
    predicate Valid()
    {
      0 < width && 0 < height && |img| == width * height
    }

    function Diag(): Diagonal
      requires Valid()
    {
      DiagonalOf(width, height)
    }

    /** Luma of diagonal pixel `k`. */
    function LumaAt(k: nat): real
      requires Valid() && k < Diag().Length()
    {
      DiagonalInImage(width, height, k);
      Gray(img[Flat(width, Diag().y0 + k, Diag().x0 + k)])
    }
  }

  /** The lumas of the first `n` pixels of the walked diagonal, in walk order. */
  function DiagonalLumas(scan: Scan, n: nat): (g: seq<real>)
    requires scan.Valid() && n <= scan.Diag().Length()
    ensures |g| == n
  {
    if n == 0 then [] else DiagonalLumas(scan, n - 1) + [scan.LumaAt(n - 1)]
  }

  /** Entry `k` of the diagonal lumas is the luma of diagonal pixel `k`. */
  lemma {:induction false} DiagonalLumasAt(scan: Scan, n: nat, k: nat)
    requires scan.Valid() && k < n <= scan.Diag().Length()
    ensures DiagonalLumas(scan, n)[k] == scan.LumaAt(k)
  {
    if k < n - 1 {
      DiagonalLumasAt(scan, n - 1, k);
    }
  }

  /** Absolute luma difference of diagonal step `k` from the step before; step 0 is compared with 0. */
  function Diff(g: seq<real>, k: nat): real
    requires k < |g|
  {
    Abs(g[k] - if k == 0 then 0.0 else g[k - 1])
  }

  /** The difference of step `step`, or 0 for a step before the walk began. */
  function DiffOrZero(g: seq<real>, step: int): real
  {
    if 0 <= step < |g| then Diff(g, step) else 0.0
  }

  /** Sum of the differences of steps lo .. hi-1. */
  function SumDiffs(g: seq<real>, lo: nat, hi: nat): real
    requires hi <= |g|
    decreases hi
  {
    if hi <= lo then 0.0 else SumDiffs(g, lo, hi - 1) + Diff(g, hi - 1)
  }

  /**
   * The windowed sum after diagonal step `k`: the sum of the last
   * min(k + 1, MaxDiffCount) differences.
   */
  function WindowedSum(g: seq<real>, k: nat): real
    requires k < |g|
  {
    SumDiffs(g, SumStart(k + 1), k + 1)
  }

  /** The windowed sums after steps 0 .. n-1, as candidates for the argmax scan. */
  function WindowedSums(g: seq<real>, n: nat): (s: seq<Option<real>>)
    requires n <= |g|
    ensures |s| == n
  {
    if n == 0 then [] else WindowedSums(g, n - 1) + [Some(WindowedSum(g, n - 1))]
  }

  /** Candidate `k` is the windowed sum after step `k`. */
  lemma {:induction false} WindowedSumsAt(g: seq<real>, n: nat, k: nat)
    requires k < n <= |g|
    ensures WindowedSums(g, n)[k] == Some(WindowedSum(g, k))
  {
    if k < n - 1 {
      WindowedSumsAt(g, n - 1, k);
    }
  }

  /** A sum of differences can also be taken from the front. */
  lemma {:induction false} SumDiffsFront(g: seq<real>, lo: nat, hi: nat)
    requires lo < hi <= |g|
    ensures SumDiffs(g, lo, hi) == Diff(g, lo) + SumDiffs(g, lo + 1, hi)
    decreases hi
  {
    if hi > lo + 1 {
      SumDiffsFront(g, lo, hi - 1);
    }
  }

  /** One step of the sliding window: drop the expired difference, add the new one. */
  lemma WindowSlide(g: seq<real>, k: nat)
    requires k < |g|
    ensures SumDiffs(g, SumStart(k + 1), k + 1)
            == SumDiffs(g, SumStart(k), k) - DiffOrZero(g, k - MaxDiffCount) + Diff(g, k)
  {
    if k >= MaxDiffCount {
      SumDiffsFront(g, SumStart(k), k);
    }
  }

  /** The corner for a leader on the diagonal, or the previous corner when there is none. */
  function Corner(d: Diagonal, lead: Option<nat>, prevTop: int, prevLeft: int): (int, int)
  {
    match lead
    case None => (prevTop, prevLeft)
    case Some(k) => (d.y0 + k, d.x0 + k)
  }

  /**
   * The block corner chosen: the first diagonal position whose windowed sum
   * is the largest, or the previous corner when no sum is positive.
   */
  ghost function BlockChoice(scan: Scan, prevTop: int, prevLeft: int): (int, int)
    requires scan.Valid()
  {
    var g := DiagonalLumas(scan, scan.Diag().Length());
    Corner(scan.Diag(), Leader(WindowedSums(g, |g|), |g|, 0.0), prevTop, prevLeft)
  }

  /**
   * The argmax over the windowed sums of lumas g: no leader exactly when no
   * sum is positive; otherwise the leader is the first step whose sum is
   * the largest, and that sum is positive.
   */
  lemma SumsLeader(g: seq<real>)
    ensures Leader(WindowedSums(g, |g|), |g|, 0.0).None? <==> forall k :: 0 <= k < |g| ==> WindowedSum(g, k) <= 0.0
    ensures Leader(WindowedSums(g, |g|), |g|, 0.0).Some? ==>
              var k := Leader(WindowedSums(g, |g|), |g|, 0.0).value;
              k < |g| && WindowedSum(g, k) > 0.0
              && (forall k' :: 0 <= k' < |g| ==> WindowedSum(g, k') <= WindowedSum(g, k))
              && (forall k' :: 0 <= k' < k ==> WindowedSum(g, k') < WindowedSum(g, k))
  {
    var S := WindowedSums(g, |g|);
    LeaderIsFirstMaximum(S, |g|, 0.0);
    BestIsMaximum(S, |g|, 0.0);
    forall k | 0 <= k < |g|
      ensures S[k] == Some(WindowedSum(g, k))
    {
      WindowedSumsAt(g, |g|, k);
    }
  }

  /**
   * When no windowed sum of the diagonal's lumas g is positive, findBlock
   * keeps the previous corner.
   */
  lemma BlockChoiceKeepsPrevious(scan: Scan, g: seq<real>, prevTop: int, prevLeft: int)
    requires scan.Valid() && g == DiagonalLumas(scan, scan.Diag().Length())
    requires forall k :: 0 <= k < |g| ==> WindowedSum(g, k) <= 0.0
    ensures BlockChoice(scan, prevTop, prevLeft) == (prevTop, prevLeft)
  {
    SumsLeader(g);
  }

  /**
   * When some windowed sum of the diagonal's lumas g is positive, the corner
   * is diagonal position k, the first step whose windowed sum is the
   * largest: at least every sum and strictly above every earlier one.
   */
  lemma BlockChoiceIsFirstMaximum(scan: Scan, g: seq<real>, prevTop: int, prevLeft: int)
    requires scan.Valid() && g == DiagonalLumas(scan, scan.Diag().Length())
    requires exists k :: 0 <= k < |g| && WindowedSum(g, k) > 0.0
    ensures exists k :: 0 <= k < |g|
              && BlockChoice(scan, prevTop, prevLeft) == (scan.Diag().y0 + k, scan.Diag().x0 + k)
              && WindowedSum(g, k) > 0.0
              && (forall k' :: 0 <= k' < |g| ==> WindowedSum(g, k') <= WindowedSum(g, k))
              && (forall k' :: 0 <= k' < k ==> WindowedSum(g, k') < WindowedSum(g, k))
  {
    SumsLeader(g);
    var k := Leader(WindowedSums(g, |g|), |g|, 0.0).value;
    assert BlockChoice(scan, prevTop, prevLeft) == (scan.Diag().y0 + k, scan.Diag().x0 + k);
  }

  /**
   * The position of slot `t` counted from the oldest entry, when the next
   * write goes to `next`: the write slot has age 0 and the slot written last
   * has age MaxDiffCount - 1, so slot `t` was written MaxDiffCount - Age
   * steps ago.
   */
  function Age(t: int, next: int): int
  {
    if t >= next then t - next else t - next + MaxDiffCount
  }

  /**
   * The ring after `k` steps, with the next write going to slot `next`: each
   * slot holds the difference written `MaxDiffCount - Age` steps ago, so the
   * slot about to be overwritten holds the difference of step k - MaxDiffCount.
   */
  predicate RingHolds(ring: seq<real>, g: seq<real>, k: int, next: int)
  {
    |ring| == MaxDiffCount && 0 <= next < MaxDiffCount
    && forall t :: 0 <= t < MaxDiffCount ==> ring[t] == DiffOrZero(g, k - MaxDiffCount + Age(t, next))
  }

  /** A zeroed buffer of `n` differences. */
  function Zeros(n: nat): (z: seq<real>)
    ensures |z| == n
  {
    if n == 0 then [] else Zeros(n - 1) + [0.0]
  }

  lemma {:induction false} ZerosAt(n: nat, t: nat)
    requires t < n
    ensures Zeros(n)[t] == 0.0
  {
    if t < n - 1 {
      ZerosAt(n - 1, t);
    }
  }

  /** A new ring buffer, zero-initialised. */
  method NewRing() returns (ring: array<real>)
    ensures fresh(ring) && ring[..] == Zeros(MaxDiffCount)
  {
    ring := new real[MaxDiffCount](_ => 0.0);
    forall t | 0 <= t < MaxDiffCount
      ensures ring[t] == Zeros(MaxDiffCount)[t]
    {
      ZerosAt(MaxDiffCount, t);
    }
  }

  /** The variables of the diagonal walk between two steps. */
  datatype WalkState = WalkState(ring: seq<real>, next: int, curDiff: real, preGray: real,
                                 maxDiff: real, top: int, left: int)
  {
    predicate Shaped()
    {
      |ring| == MaxDiffCount && 0 <= next < MaxDiffCount
    }
  }

  /** Ring index after a write to slot `next`: it wraps back to 0 at the end of the buffer. */
  function NextSlot(next: int): int
  {
    if next + 1 >= MaxDiffCount then 0 else next + 1
  }

  /**
   * One step of the walk, reading luma `gray` at (y, x): take the difference
   * from the previous luma, slide the window sum and, on a strictly larger
   * sum, take the position as the new block corner.
   */
  function Advance(s: WalkState, gray: real, y: int, x: int): (t: WalkState)
    requires s.Shaped()
    ensures t.Shaped()
  {
    var diff := Abs(gray - s.preGray);
    var cur := s.curDiff - s.ring[s.next] + diff;
    if cur > s.maxDiff then
      WalkState(s.ring[s.next := diff], NextSlot(s.next), cur, gray, cur, y, x)
    else
      WalkState(s.ring[s.next := diff], NextSlot(s.next), cur, gray, s.maxDiff, s.top, s.left)
  }

  /** The state of the walk after `n` steps along `d` with lumas `g`, from a zeroed ring and the previous corner. */
  function Walk(g: seq<real>, d: Diagonal, n: nat, prevTop: int, prevLeft: int): (s: WalkState)
    requires n <= |g|
    ensures s.Shaped()
  {
    if n == 0 then WalkState(Zeros(MaxDiffCount), 0, 0.0, 0.0, 0.0, prevTop, prevLeft)
    else Advance(Walk(g, d, n - 1, prevTop, prevLeft), g[n - 1], d.y0 + n - 1, d.x0 + n - 1)
  }

  /** Whether or not the corner moves, a step writes the new difference at the head and advances it. */
  lemma AdvanceRing(s: WalkState, gray: real, y: int, x: int)
    requires s.Shaped()
    ensures Advance(s, gray, y, x).ring == s.ring[s.next := Abs(gray - s.preGray)]
    ensures Advance(s, gray, y, x).next == NextSlot(s.next) && Advance(s, gray, y, x).preGray == gray
  {
  }

  /** Writing the difference of step `k` into the write slot keeps the ring's description. */
  lemma RingWrite(ring: seq<real>, g: seq<real>, k: nat, next: int)
    requires k < |g| && RingHolds(ring, g, k, next)
    ensures RingHolds(ring[next := Diff(g, k)], g, k + 1, NextSlot(next))
  {
  }

  /** The walk's ring buffer holds the last `MaxDiffCount` differences, oldest at the write slot. */
  lemma {:induction false} WalkRing(g: seq<real>, d: Diagonal, n: nat, prevTop: int, prevLeft: int)
    requires n <= |g|
    ensures var s := Walk(g, d, n, prevTop, prevLeft);
            RingHolds(s.ring, g, n, s.next) && s.preGray == (if n == 0 then 0.0 else g[n - 1])
  {
    if n == 0 {
      forall t | 0 <= t < MaxDiffCount
        ensures Zeros(MaxDiffCount)[t] == 0.0
      {
        ZerosAt(MaxDiffCount, t);
      }
    } else {
      var s := Walk(g, d, n - 1, prevTop, prevLeft);
      WalkRing(g, d, n - 1, prevTop, prevLeft);
      AdvanceRing(s, g[n - 1], d.y0 + n - 1, d.x0 + n - 1);
      assert Abs(g[n - 1] - s.preGray) == Diff(g, n - 1);
      RingWrite(s.ring, g, n - 1, s.next);
    }
  }

  /** The walk's running sum is the sum of the last min(n, MaxDiffCount) differences. */
  lemma {:induction false} WalkSum(g: seq<real>, d: Diagonal, n: nat, prevTop: int, prevLeft: int)
    requires n <= |g|
    ensures Walk(g, d, n, prevTop, prevLeft).curDiff == SumDiffs(g, SumStart(n), n)
  {
    if n > 0 {
      var s := Walk(g, d, n - 1, prevTop, prevLeft);
      WalkSum(g, d, n - 1, prevTop, prevLeft);
      WalkRing(g, d, n - 1, prevTop, prevLeft);
      assert s.ring[s.next] == DiffOrZero(g, n - 1 - MaxDiffCount);
      WindowSlide(g, n - 1);
    }
  }

  /**
   * The walk keeps the largest windowed sum seen (0 before any positive one)
   * and the corner of the first position where it was reached.
   */
  lemma {:induction false} WalkBest(g: seq<real>, d: Diagonal, n: nat, prevTop: int, prevLeft: int)
    requires n <= |g|
    ensures var s := Walk(g, d, n, prevTop, prevLeft);
            s.maxDiff == Best(WindowedSums(g, |g|), n, 0.0)
            && (s.top, s.left) == Corner(d, Leader(WindowedSums(g, |g|), n, 0.0), prevTop, prevLeft)
  {
    if n > 0 {
      WalkBest(g, d, n - 1, prevTop, prevLeft);
      WalkSum(g, d, n, prevTop, prevLeft);
      WindowedSumsAt(g, |g|, n - 1);
    }
  }

  /**
   * The full walk ends on the block choice, which is the previous corner or
   * a position on the walked diagonal.
   */
  lemma WalkChoice(scan: Scan, prevTop: int, prevLeft: int)
    requires scan.Valid()
    ensures var g := DiagonalLumas(scan, scan.Diag().Length());
            var s := Walk(g, scan.Diag(), |g|, prevTop, prevLeft);
            (s.top, s.left) == BlockChoice(scan, prevTop, prevLeft)
            && ((s.top, s.left) == (prevTop, prevLeft)
                || (0 <= s.top < scan.height && 0 <= s.left < scan.width
                    && s.top - scan.Diag().y0 == s.left - scan.Diag().x0))
  {
    var g := DiagonalLumas(scan, scan.Diag().Length());
    WalkBest(g, scan.Diag(), |g|, prevTop, prevLeft);
    LeaderIsFirstMaximum(WindowedSums(g, |g|), |g|, 0.0);
  }

  /**
   * One step of the walk on the ring buffer and the scalar variables of
   * findBlock, as `Advance` describes it.
   */
  method Step(diffRing: array<real>, diffIndex: int, curDiff: real, preGray: real, maxDiff: real,
              blockTop: int, blockLeft: int, gray: real, y: int, x: int,
              ghost g: seq<real>, ghost d: Diagonal, ghost k: nat, ghost prevTop: int, ghost prevLeft: int)
    returns (diffIndex': int, curDiff': real, preGray': real, maxDiff': real, blockTop': int, blockLeft': int)
    requires k < |g| && gray == g[k] && y == d.y0 + k && x == d.x0 + k
    requires WalkState(diffRing[..], diffIndex, curDiff, preGray, maxDiff, blockTop, blockLeft)
             == Walk(g, d, k, prevTop, prevLeft)
    modifies diffRing
    ensures WalkState(diffRing[..], diffIndex', curDiff', preGray', maxDiff', blockTop', blockLeft')
            == Walk(g, d, k + 1, prevTop, prevLeft)
  {
    var diff: real := Abs(gray - preGray);
    var headDiff := diffRing[diffIndex];
    curDiff' := curDiff - headDiff;
    curDiff' := curDiff' + diff;
    maxDiff', blockTop', blockLeft' := maxDiff, blockTop, blockLeft;
    if curDiff' > maxDiff {
      blockTop' := y;
      blockLeft' := x;
      maxDiff' := curDiff';
    }
    diffRing[diffIndex] := diff;
    diffIndex' := diffIndex + 1;
    if diffIndex' >= MaxDiffCount {
      diffIndex' := 0;
    }
    preGray' := gray;
  }

  /** Reads the luma of step `k` of diagonal `d`, at flat index `blockIndex` of the buffer. */
  method ReadGray(p: array<Pixel>, width: int, height: int, blockIndex: int,
                  ghost d: Diagonal, ghost g: seq<real>, ghost k: nat)
    returns (gray: real)
    requires 0 < width && 0 < height && p.Length == width * height
    requires d == DiagonalOf(width, height) && k < d.Length()
    requires g == DiagonalLumas(Scan(p[..], width, height), d.Length())
    requires blockIndex == Flat(width, d.y0 + k, d.x0 + k)
    ensures gray == g[k]
  {
    DiagonalInImage(width, height, k);
    gray := Gray(p[blockIndex]);
    DiagonalLumasAt(Scan(p[..], width, height), d.Length(), k);
  }

  /**
   * The loop of findBlock: walks diagonal (x0, y0, maxX) of the image from a
   * zeroed ring and the previous corner, and ends on the corner of the full walk.
   */
  method WalkDiagonal(p: array<Pixel>, width: int, height: int, x0: int, y0: int, maxX: int, prevTop: int, prevLeft: int,
                      ghost g: seq<real>)
    returns (blockTop: int, blockLeft: int)
    requires 0 < width && 0 < height && p.Length == width * height
    requires Diagonal(x0, y0, maxX) == DiagonalOf(width, height)
    requires g == DiagonalLumas(Scan(p[..], width, height), DiagonalOf(width, height).Length())
    ensures (blockTop, blockLeft)
            == (Walk(g, Diagonal(x0, y0, maxX), |g|, prevTop, prevLeft).top,
                Walk(g, Diagonal(x0, y0, maxX), |g|, prevTop, prevLeft).left)
  {
    ghost var diag := Diagonal(x0, y0, maxX);
    var diffRing := NewRing();
    var diffIndex: int := 0;
    var curDiff: real, maxDiff: real := 0.0, 0.0;
    var preGray: real := 0.0;
    blockTop, blockLeft := prevTop, prevLeft;
    var blockIndex := y0 * width + x0;
    var x, y := x0, y0;
    ghost var k := 0;
    while x < maxX
      invariant x0 <= x <= maxX && k == x - x0 && y == y0 + k && p[..] == old(p[..])
      invariant blockIndex == Flat(width, y, x)
      invariant WalkState(diffRing[..], diffIndex, curDiff, preGray, maxDiff, blockTop, blockLeft)
                == Walk(g, diag, k, prevTop, prevLeft)
    {
      var gray := ReadGray(p, width, height, blockIndex, diag, g, k);
      diffIndex, curDiff, preGray, maxDiff, blockTop, blockLeft
        := Step(diffRing, diffIndex, curDiff, preGray, maxDiff, blockTop, blockLeft, gray, y, x,
                g, diag, k, prevTop, prevLeft);
      FlatDiagonalStep(width, y, x);
      x, y, blockIndex := x + 1, y + 1, blockIndex + (width + 1);
      k := k + 1;
    }
  }

  /**
   * findBlock: the chosen corner is the diagonal position of the first
   * strict maximum of the windowed sums; it lies on the walked diagonal,
   * hence inside the image, unless no windowed sum is positive, in which
   * case the previous corner is kept.
   */
  method FindBlock(p: array<Pixel>, width: int, height: int, prevTop: int, prevLeft: int)
    returns (blockTop: int, blockLeft: int)
    requires 0 < width && 0 < height && p.Length == width * height
    ensures (blockTop, blockLeft) == BlockChoice(Scan(p[..], width, height), prevTop, prevLeft)
    ensures (blockTop, blockLeft) == (prevTop, prevLeft)
            || (0 <= blockTop < height && 0 <= blockLeft < width
                && blockTop - DiagonalOf(width, height).y0 == blockLeft - DiagonalOf(width, height).x0)
  {
    var x0, y0, maxX;
    if width > height {
      x0 := (width - height) / 2;
      maxX := width - x0 - 1;
      y0 := 0;
    } else {
      x0 := 0;
      maxX := width;
      y0 := (height - width) / 2;
    }
    ghost var scan := Scan(p[..], width, height);
    blockTop, blockLeft := WalkDiagonal(p, width, height, x0, y0, maxX, prevTop, prevLeft,
                                        DiagonalLumas(scan, scan.Diag().Length()));
    WalkChoice(scan, prevTop, prevLeft);
  }
}
