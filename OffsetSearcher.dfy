/**
 * Alignment of one exposure against the base: the base patch at the chosen
 * block is compared with every patch of the other image in a square search
 * window. The window starts `CompMaxOffset` pixels before the block on each
 * axis, clamped at the image's top and left edges, so the offset along an
 * axis whose block coordinate is c ranges over
 * [-min(c, CompMaxOffset), 2 CompMaxOffset - min(c, CompMaxOffset)].
 * Candidates are visited in row-major order and scored by a normalised
 * cross-correlation over the absolute products |dp dq|; the first best
 * candidate gives the offset. Lumas of the other image are cached lazily in
 * a square buffer.
 */
module OffsetSearcher {
  import opened Wrappers
  import opened Image
  import opened Argmax

  // The sizes below are written out as numbers so that the index arithmetic
  // stays linear; SizesAgree relates them to BlockSize and CompMaxOffset.

  /** Side of the searched window (BOO): the patch plus the largest offset on both sides. */
  const Span: int := 200

  /** Number of candidate displacements along one axis. */
  const Side: int := 101

  /** Number of pixels in a patch (BB). */
  const PatchArea: int := 10000

  /** Number of slots of the luma cache (BOO squared). */
  const CacheSize: int := 40000

  lemma SizesAgree()
    ensures Span == BlockSize + 2 * CompMaxOffset && Side == 2 * CompMaxOffset + 1
    ensures PatchArea == BlockSize * BlockSize && CacheSize == Span * Span
  {
  }

  /** Luma cache marker for a slot not computed yet. */
  const Unknown: real := -1.0

  /** First row (or column) of the search window for a block at `c`: `CompMaxOffset` before it, clamped at 0. */
  function WindowStart(c: int): int
  {
    if c > CompMaxOffset then c - CompMaxOffset else 0
  }

  /** How far the search window starts before the block: `CompMaxOffset`, or less at the image edge. */
  function Correction(c: int): int
  {
    if c > CompMaxOffset then CompMaxOffset else c
  }

  /** The reported offset of candidate `i` along an axis where the block is at `c`. */
  function OffsetFor(c: int, i: int): (o: int)
    requires 0 <= c && 0 <= i < Side
    ensures -Correction(c) <= o <= 2 * CompMaxOffset - Correction(c)
    ensures -CompMaxOffset <= o <= 2 * CompMaxOffset
    ensures WindowStart(c) + i == c + o
  {
    i - Correction(c)
  }

  /** A `side` x `side` square of an image, with top-left corner (top, left). */
  datatype Area = Area(img: seq<Pixel>, width: int, height: int, top: int, left: int, side: int)
  {
    predicate Valid()
    {
      |img| == width * height && 0 <= top && top + side <= height && 0 <= left && left + side <= width
    }

    /** Luma of pixel (r, c) of the square. */
    function GrayAt(r: int, c: int): (v: real)
      requires Valid() && 0 <= r < side && 0 <= c < side
      ensures Unknown < v
    {
      Gray(At(img, width, height, top + r, left + c))
    }

    /** The `side'` x `side'` square starting (r, c) into this one. */
    function Sub(r: int, c: int, side': int): (a: Area)
      requires Valid() && 0 <= r && 0 <= c && 0 <= side' && r + side' <= side && c + side' <= side
      ensures a.Valid()
    {
      Area(img, width, height, top + r, left + c, side')
    }
  }

  /**
   * The search fits in the image: the window of `Span` rows and columns that
   * the candidates cover, from the clamped start, lies inside it.
   */
  predicate SearchFits(width: int, height: int, top: int, left: int)
  {
    0 <= top && 0 <= left
    && WindowStart(top) + Span <= height && WindowStart(left) + Span <= width
  }

  /** The base patch at the block. */
  function BasePatch(p: seq<Pixel>, width: int, height: int, top: int, left: int): (a: Area)
    requires |p| == width * height && SearchFits(width, height, top, left)
    ensures a.Valid() && a.side == BlockSize
  {
    Area(p, width, height, top, left, BlockSize)
  }

  /** The search window of the other image. */
  function Window(q: seq<Pixel>, width: int, height: int, top: int, left: int): (a: Area)
    requires |q| == width * height && SearchFits(width, height, top, left)
    ensures a.Valid() && a.side == Span
  {
    Area(q, width, height, WindowStart(top), WindowStart(left), Span)
  }

  /** The patch of candidate (i, j): displaced i rows and j columns into the window. */
  function Candidate(w: Area, i: int, j: int): (a: Area)
    requires w.Valid() && w.side == Span && 0 <= i < Side && 0 <= j < Side
    ensures a.Valid() && a.side == BlockSize
  {
    w.Sub(i, j, BlockSize)
  }

  // ---------------------------------------------------------------------
  // Sums over a patch, row by row. Each sum names its patch in its decreases
  // clause so that the verifier does not unroll a sum over the literal
  // BlockSize pixel by pixel.

  /** Sum of the lumas of columns 0 .. n-1 of row m. */
  function RowGray(f: Area, m: int, n: int): real
    requires f.Valid() && 0 <= m < f.side && 0 <= n <= f.side
    decreases f, n
  {
    if n == 0 then 0.0 else RowGray(f, m, n - 1) + f.GrayAt(m, n - 1)
  }

  /** One more column adds that pixel's luma to the row sum. */
  lemma RowGrayNext(f: Area, m: int, n: int, n': int)
    requires f.Valid() && 0 <= m < f.side && 0 <= n < f.side && n' == n + 1
    ensures RowGray(f, m, n') == RowGray(f, m, n) + f.GrayAt(m, n)
  {
  }

  /** Sum of the lumas of rows 0 .. m-1. */
  function PatchGray(f: Area, m: int): real
    requires f.Valid() && 0 <= m <= f.side
    decreases f, m
  {
    if m == 0 then 0.0 else PatchGray(f, m - 1) + RowGray(f, m - 1, f.side)
  }

  /** Mean luma of a patch. */
  function Mean(f: Area): real
    requires f.Valid() && f.side == BlockSize
  {
    PatchGray(f, BlockSize) / PatchArea as real
  }

  /** The three sums of the correlation: sum |dp dq|, sum dp^2 and sum dq^2. */
  datatype Moments = Moments(num: real, pp: real, qq: real)
  {
    function Plus(o: Moments): Moments
    {
      Moments(num + o.num, pp + o.pp, qq + o.qq)
    }
  }

  /** The contribution of one pixel pair with centred lumas dp and dq: |dp dq|, dp^2 and dq^2. */
  function Contribution(dp: real, dq: real): (t: Moments)
    ensures 0.0 <= t.num && 0.0 <= t.pp && 0.0 <= t.qq
    ensures Flat0(t)
  {
    Square(dp);
    Square(dq);
    FlatContribution(dp, dq);
    Moments(Abs(dp * dq), dp * dp, dq * dq)
  }

  /** Moments whose pp or qq is 0 have num 0: a flat patch correlates with nothing. */
  predicate Flat0(mo: Moments)
  {
    (mo.pp == 0.0 ==> mo.num == 0.0) && (mo.qq == 0.0 ==> mo.num == 0.0)
  }

  lemma FlatContribution(dp: real, dq: real)
    ensures Flat0(Moments(Abs(dp * dq), dp * dp, dq * dq))
  {
    ZeroSquare(dp);
    ZeroSquare(dq);
    if dp == 0.0 {
      assert dp * dq == 0.0;
    }
    if dq == 0.0 {
      assert dp * dq == 0.0;
    }
  }

  /** Only 0 squares to 0. */
  lemma ZeroSquare(x: real)
    ensures x != 0.0 ==> x * x != 0.0
  {
  }

  lemma PositiveProduct(a: real, b: real)
    requires 0.0 < a && 0.0 < b
    ensures 0.0 < a * b
  {
  }

  /** The contribution of pixel (m, n) of the two patches, centred on their means. */
  function Term(p: Area, q: Area, ap: real, aq: real, m: int, n: int): (t: Moments)
    requires p.Valid() && q.Valid() && p.side == q.side && 0 <= m < p.side && 0 <= n < p.side
  {
    Contribution(p.GrayAt(m, n) - ap, q.GrayAt(m, n) - aq)
  }

  lemma Square(x: real)
    ensures 0.0 <= x * x
  {
    if x < 0.0 {
      assert x * x == (-x) * (-x);
    }
  }

  /** Moments of columns 0 .. n-1 of row m. */
  function RowMoments(p: Area, q: Area, ap: real, aq: real, m: int, n: int): (mo: Moments)
    requires p.Valid() && q.Valid() && p.side == q.side && 0 <= m < p.side && 0 <= n <= p.side
    ensures 0.0 <= mo.num && 0.0 <= mo.pp && 0.0 <= mo.qq
    ensures Flat0(mo)
    decreases p, n
  {
    if n == 0 then Moments(0.0, 0.0, 0.0)
    else RowMoments(p, q, ap, aq, m, n - 1).Plus(Term(p, q, ap, aq, m, n - 1))
  }

  /** One more column of row m, in the shape the column loop needs. */
  lemma RowMomentsNext(p: Area, q: Area, ap: real, aq: real, m: int, n: int, n': int)
    requires p.Valid() && q.Valid() && p.side == q.side && 0 <= m < p.side && 0 <= n < p.side && n' == n + 1
    ensures RowMoments(p, q, ap, aq, m, n') == RowMoments(p, q, ap, aq, m, n).Plus(Term(p, q, ap, aq, m, n))
  {
  }

  /** Moments of rows 0 .. m-1. */
  function PatchMoments(p: Area, q: Area, ap: real, aq: real, m: int): (mo: Moments)
    requires p.Valid() && q.Valid() && p.side == q.side && 0 <= m <= p.side
    ensures 0.0 <= mo.num && 0.0 <= mo.pp && 0.0 <= mo.qq
    ensures Flat0(mo)
    decreases p, m
  {
    if m == 0 then Moments(0.0, 0.0, 0.0)
    else PatchMoments(p, q, ap, aq, m - 1).Plus(RowMoments(p, q, ap, aq, m - 1, p.side))
  }

  /**
   * The score of patch q against patch p: the squared normalised cross
   * correlation (sum |dp dq|)^2 / (sum dp^2 * sum dq^2), or None when a
   * patch is flat and the correlation is 0/0.
   */
  function Similarity(p: Area, q: Area): Option<real>
    requires p.Valid() && q.Valid() && p.side == BlockSize && q.side == BlockSize
  {
    var mo := PatchMoments(p, q, Mean(p), Mean(q), BlockSize);
    Score(mo)
  }

  /**
   * A candidate has no score exactly when one of the two patches is flat
   * (the squared deviations from its mean sum to 0); then num is 0 as well,
   * so the kernel's quotient is 0/0 and not a number.
   */
  lemma FlatPatch(p: Area, q: Area)
    requires p.Valid() && q.Valid() && p.side == BlockSize && q.side == BlockSize
    ensures var mo := PatchMoments(p, q, Mean(p), Mean(q), BlockSize);
            (Similarity(p, q).None? <==> mo.pp == 0.0 || mo.qq == 0.0)
            && (Similarity(p, q).None? ==> mo.num == 0.0)
  {
  }

  /** The squared correlation of accumulated moments; None for 0/0. It is never negative. */
  function Score(mo: Moments): (s: Option<real>)
    requires 0.0 <= mo.pp && 0.0 <= mo.qq
    ensures s.Some? ==> 0.0 <= s.value
    ensures s.None? <==> mo.pp == 0.0 || mo.qq == 0.0
  {
    var den := mo.pp * mo.qq;
    if den == 0.0 then
      if mo.pp != 0.0 && mo.qq != 0.0 then PositiveProduct(mo.pp, mo.qq); None else None
    else
      Square(mo.num);
      NonNegativeProduct(mo.pp, mo.qq);
      NonNegativeQuotient(mo.num * mo.num, den);
      Some(mo.num * mo.num / den)
  }

  lemma NonNegativeProduct(a: real, b: real)
    requires 0.0 <= a && 0.0 <= b
    ensures 0.0 <= a * b
  {
  }

  lemma NonNegativeQuotient(a: real, b: real)
    requires 0.0 <= a && 0.0 < b
    ensures 0.0 <= a / b
  {
  }

  /** Squaring keeps the order of numbers that are not negative. */
  lemma SquareOrder(a: real, b: real)
    requires 0.0 <= a && 0.0 <= b
    ensures a > b <==> a * a > b * b
  {
    if a > b {
      PositiveProduct(a, a - b);
      NonNegativeProduct(b, a - b);
    } else {
      NonNegativeProduct(a, b - a);
      NonNegativeProduct(b, b - a);
    }
  }

  /**
   * The kernel scores a candidate by num / sqrt(pp qq). When neither patch
   * is flat, that quotient k (k r == num for the square root r of pp qq)
   * squares to Score.
   */
  lemma KernelScoreSquared(mo: Moments, r: real, k: real)
    requires 0.0 < mo.pp && 0.0 < mo.qq && 0.0 < r && r * r == mo.pp * mo.qq && k * r == mo.num
    ensures Score(mo) == Some(k * k)
  {
    QuotientSquared(k, r, mo.num, mo.pp * mo.qq);
    PositiveProduct(mo.pp, mo.qq);
    DivUnique(mo.num * mo.num, mo.pp * mo.qq, k * k);
    assert Score(mo).Some?;
    assert Score(mo).value == mo.num * mo.num / (mo.pp * mo.qq);
  }

  lemma QuotientSquared(k: real, r: real, n: real, d: real)
    requires k * r == n && r * r == d
    ensures (k * k) * d == n * n
  {
  }

  lemma DivUnique(x: real, d: real, q: real)
    requires d != 0.0 && q * d == x
    ensures q == x / d
  {
  }

  /**
   * Scores that are the squares of the kernel's non-negative quotients give
   * the same leader as the quotients, so the same winner and the same offsets.
   * This holds for any two score sequences; KernelChoice below states it for
   * the candidates of one search, Scores(p, w).
   */
  lemma KernelScoresSameChoice(S: seq<Option<real>>, K: seq<Option<real>>)
    requires |S| == |K|
    requires forall c :: 0 <= c < |S| ==> (S[c].Some? <==> K[c].Some?)
    requires forall c :: 0 <= c < |S| && K[c].Some? ==> 0.0 <= K[c].value && S[c].value == K[c].value * K[c].value
    ensures Leader(K, |K|, NoMatch) == Leader(S, |S|, NoMatch)
  {
    forall i, j | 0 <= i < |S| && 0 <= j < |S| && K[i].Some? && K[j].Some?
      ensures K[i].value > K[j].value <==> S[i].value > S[j].value
    {
      SquareOrder(K[i].value, K[j].value);
    }
    forall c | 0 <= c < |S| && K[c].Some?
      ensures NoMatch < S[c].value
    {
      Square(K[c].value);
    }
    LeaderOrderInvariant(K, S, |S|, NoMatch, NoMatch);
  }

  // ---------------------------------------------------------------------
  // The candidates in search order and the offset chosen.

  /** The best score before any candidate: below every score, which is never negative. */
  const NoMatch: real := -1.0

  /** The score of candidate number `c` in row-major order: row c / Side, column c % Side. */
  function CandidateScore(p: Area, w: Area, c: int): Option<real>
    requires p.Valid() && p.side == BlockSize && w.Valid() && w.side == Span && 0 <= c < Side * Side
  {
    NumberInGrid(c);
    Similarity(p, Candidate(w, c / Side, c % Side))
  }

  /** The scores of all candidates, in search order. */
  ghost function Scores(p: Area, w: Area): (s: seq<Option<real>>)
    requires p.Valid() && p.side == BlockSize && w.Valid() && w.side == Span
    ensures |s| == Side * Side
    ensures forall c :: 0 <= c < Side * Side ==> s[c] == CandidateScore(p, w, c)
  {
    seq(Side * Side, c requires 0 <= c < Side * Side => CandidateScore(p, w, c))
  }

  /** Candidate number `c` is in row c / Side and column c % Side of the candidate grid. */
  lemma NumberInGrid(c: int)
    requires 0 <= c < Side * Side
    ensures 0 <= c / Side < Side && 0 <= c % Side < Side
  {
  }

  /** Candidate (i, j) is number i * Side + j in search order. */
  lemma CandidateNumber(i: int, j: int)
    requires 0 <= i < Side && 0 <= j < Side
    ensures 0 <= i * Side + j < Side * Side
    ensures (i * Side + j) / Side == i && (i * Side + j) % Side == j
  {
  }

  /** Candidate number i * Side + j is candidate (i, j). */
  lemma CandidateScoreAt(p: Area, w: Area, i: int, j: int)
    requires p.Valid() && p.side == BlockSize && w.Valid() && w.side == Span && 0 <= i < Side && 0 <= j < Side
    ensures 0 <= i * Side + j < Side * Side
    ensures CandidateScore(p, w, i * Side + j) == Similarity(p, Candidate(w, i, j))
  {
    CandidateNumber(i, j);
  }

  /** The offsets reported for a leading candidate, or the previous offsets when there is none. */
  function OffsetOf(lead: Option<nat>, top: int, left: int, prevTop: int, prevLeft: int): (int, int)
    requires 0 <= top && 0 <= left && (lead.Some? ==> lead.value < Side * Side)
  {
    match lead
    case None => (prevTop, prevLeft)
    case Some(c) => NumberInGrid(c); (OffsetFor(top, c / Side), OffsetFor(left, c % Side))
  }

  /**
   * The offsets findOffset reports: those of the first candidate with the
   * best score, or the previous offsets when no candidate has a score.
   */
  ghost function OffsetChoice(p: Area, w: Area, top: int, left: int, prevTop: int, prevLeft: int): (int, int)
    requires p.Valid() && p.side == BlockSize && w.Valid() && w.side == Span && 0 <= top && 0 <= left
  {
    OffsetOf(Leader(Scores(p, w), Side * Side, NoMatch), top, left, prevTop, prevLeft)
  }

  /** No candidate's score is negative. */
  lemma ScoresNonNegative(p: Area, w: Area)
    requires p.Valid() && p.side == BlockSize && w.Valid() && w.side == Span
    ensures forall c :: 0 <= c < Side * Side && Scores(p, w)[c].Some? ==> 0.0 <= Scores(p, w)[c].value
  {
  }

  /**
   * Over scores that are never negative, the search keeps the previous
   * offsets exactly when no candidate has a score. Otherwise it reports the
   * offsets of a candidate (i, j) whose score is at least every other score
   * and which is the first such candidate in row-major order. Candidates are
   * named here by their number in search order; GridChoice below refines this
   * to grid cells (i, j) and row-major predecessors.
   */
  lemma SearchChoice(S: seq<Option<real>>, top: int, left: int, prevTop: int, prevLeft: int)
    requires |S| == Side * Side && 0 <= top && 0 <= left
    requires forall c :: 0 <= c < |S| && S[c].Some? ==> 0.0 <= S[c].value
    ensures Leader(S, |S|, NoMatch).None? <==> forall c :: 0 <= c < |S| ==> S[c].None?
    ensures Leader(S, |S|, NoMatch).None?
            ==> OffsetOf(Leader(S, |S|, NoMatch), top, left, prevTop, prevLeft) == (prevTop, prevLeft)
    ensures Leader(S, |S|, NoMatch).Some?
            ==> exists i, j :: 0 <= i < Side && 0 <= j < Side
                  && OffsetOf(Leader(S, |S|, NoMatch), top, left, prevTop, prevLeft)
                     == (OffsetFor(top, i), OffsetFor(left, j))
                  && S[i * Side + j].Some?
                  && (forall c :: 0 <= c < |S| && S[c].Some? ==> S[c].value <= S[i * Side + j].value)
                  && (forall c :: 0 <= c < i * Side + j && S[c].Some? ==> S[c].value < S[i * Side + j].value)
  {
    LeaderIsFirstMaximum(S, |S|, NoMatch);
    match Leader(S, |S|, NoMatch)
    case None =>
    case Some(k) =>
      NumberInGrid(k);
      BestIsMaximum(S, |S|, NoMatch);
      var i, j := k / Side, k % Side;
      assert k == i * Side + j;
      assert 0 <= i < Side && 0 <= j < Side;
      assert forall c :: 0 <= c < |S| && S[c].Some? ==> S[c].value <= S[i * Side + j].value;
      assert OffsetOf(Leader(S, |S|, NoMatch), top, left, prevTop, prevLeft) == (OffsetFor(top, i), OffsetFor(left, j));
      assert S[i * Side + j].Some?;
      assert forall c :: 0 <= c < i * Side + j && S[c].Some? ==> S[c].value < S[i * Side + j].value;
  }

  /** Candidate (i', j') comes before candidate (i, j) in row-major order. */
  predicate RowMajorBefore(i': int, j': int, i: int, j: int)
  {
    i' < i || (i' == i && j' < j)
  }

  /** Row-major order is the order of the candidate numbers. */
  lemma RowMajorNumber(i': int, j': int, i: int, j: int)
    requires 0 <= i' < Side && 0 <= j' < Side && 0 <= i < Side && 0 <= j < Side
    ensures RowMajorBefore(i', j', i, j) <==> i' * Side + j' < i * Side + j
  {
    if i' < i {
      MulMonotone(i' + 1, i, Side);
    } else if i < i' {
      MulMonotone(i + 1, i', Side);
    }
  }

  /** Candidate (i, j) of the scores in row-major order. */
  function GridAt(S: seq<Option<real>>, i: int, j: int): Option<real>
    requires |S| == Side * Side && 0 <= i < Side && 0 <= j < Side
  {
    CandidateNumber(i, j);
    S[i * Side + j]
  }

  /** The grid position of the leading candidate. */
  function LeaderCell(S: seq<Option<real>>): (cell: (int, int))
    requires |S| == Side * Side && Leader(S, |S|, NoMatch).Some?
    ensures 0 <= cell.0 < Side && 0 <= cell.1 < Side
    ensures cell.0 * Side + cell.1 == Leader(S, |S|, NoMatch).value
  {
    var k := Leader(S, |S|, NoMatch).value;
    NumberInGrid(k);
    assert k == (k / Side) * Side + k % Side;
    (k / Side, k % Side)
  }

  /**
   * SearchChoice with candidates named by grid position: over scores that
   * are never negative, there is no leader exactly when no candidate has a
   * score, and then the offsets are the previous ones; otherwise the leader
   * is the first best candidate (i, j) in row-major order and the offsets
   * are its own.
   */
  lemma GridChoice(S: seq<Option<real>>, top: int, left: int, prevTop: int, prevLeft: int)
    requires |S| == Side * Side && 0 <= top && 0 <= left
    requires forall c :: 0 <= c < |S| && S[c].Some? ==> 0.0 <= S[c].value
    ensures Leader(S, |S|, NoMatch).None? <==> forall i, j :: 0 <= i < Side && 0 <= j < Side ==> GridAt(S, i, j).None?
    ensures Leader(S, |S|, NoMatch).None?
            ==> OffsetOf(Leader(S, |S|, NoMatch), top, left, prevTop, prevLeft) == (prevTop, prevLeft)
    ensures Leader(S, |S|, NoMatch).Some? ==>
              var (i, j) := LeaderCell(S);
              OffsetOf(Leader(S, |S|, NoMatch), top, left, prevTop, prevLeft) == (OffsetFor(top, i), OffsetFor(left, j))
              && GridAt(S, i, j).Some?
              && (forall i', j' :: 0 <= i' < Side && 0 <= j' < Side && GridAt(S, i', j').Some?
                    ==> GridAt(S, i', j').value <= GridAt(S, i, j).value)
              && (forall i', j' :: 0 <= i' < Side && 0 <= j' < Side && RowMajorBefore(i', j', i, j)
                    && GridAt(S, i', j').Some?
                    ==> GridAt(S, i', j').value < GridAt(S, i, j).value)
  {
    LeaderIsFirstMaximum(S, |S|, NoMatch);
    BestIsMaximum(S, |S|, NoMatch);
    forall i, j | 0 <= i < Side && 0 <= j < Side
      ensures 0 <= i * Side + j < |S| && GridAt(S, i, j) == S[i * Side + j]
    {
      CandidateNumber(i, j);
    }
    if Leader(S, |S|, NoMatch).Some? {
      var (i, j) := LeaderCell(S);
      assert GridAt(S, i, j).Some?;
      forall i', j' | 0 <= i' < Side && 0 <= j' < Side && RowMajorBefore(i', j', i, j)
        ensures i' * Side + j' < i * Side + j
      {
        RowMajorNumber(i', j', i, j);
      }
    }
  }

  /** When no candidate has a score, findOffset keeps the previous offsets. */
  lemma OffsetChoiceKeepsPrevious(p: Area, w: Area, top: int, left: int, prevTop: int, prevLeft: int)
    requires p.Valid() && p.side == BlockSize && w.Valid() && w.side == Span && 0 <= top && 0 <= left
    requires forall i, j :: 0 <= i < Side && 0 <= j < Side ==> Similarity(p, Candidate(w, i, j)).None?
    ensures OffsetChoice(p, w, top, left, prevTop, prevLeft) == (prevTop, prevLeft)
  {
    var S := Scores(p, w);
    ScoresNonNegative(p, w);
    GridChoice(S, top, left, prevTop, prevLeft);
    GridIsSimilarity(p, w);
  }

  /**
   * findOffset's choice stated on the candidates themselves: when some
   * candidate has a score, the offsets are those of the candidate (i, j)
   * whose score is at least every candidate's and strictly above that of
   * every candidate before it in row-major order.
   */
  lemma OffsetChoiceIsFirstBest(p: Area, w: Area, top: int, left: int, prevTop: int, prevLeft: int)
    requires p.Valid() && p.side == BlockSize && w.Valid() && w.side == Span && 0 <= top && 0 <= left
    requires exists i, j :: 0 <= i < Side && 0 <= j < Side && Similarity(p, Candidate(w, i, j)).Some?
    ensures exists i, j :: 0 <= i < Side && 0 <= j < Side
              && OffsetChoice(p, w, top, left, prevTop, prevLeft) == (OffsetFor(top, i), OffsetFor(left, j))
              && Similarity(p, Candidate(w, i, j)).Some?
              && (forall i', j' :: 0 <= i' < Side && 0 <= j' < Side && Similarity(p, Candidate(w, i', j')).Some?
                    ==> Similarity(p, Candidate(w, i', j')).value <= Similarity(p, Candidate(w, i, j)).value)
              && (forall i', j' :: 0 <= i' < Side && 0 <= j' < Side && RowMajorBefore(i', j', i, j)
                    && Similarity(p, Candidate(w, i', j')).Some?
                    ==> Similarity(p, Candidate(w, i', j')).value < Similarity(p, Candidate(w, i, j)).value)
  {
    var S := Scores(p, w);
    ScoresNonNegative(p, w);
    GridChoice(S, top, left, prevTop, prevLeft);
    GridIsSimilarity(p, w);
    var (i, j) := LeaderCell(S);
    assert Similarity(p, Candidate(w, i, j)).Some?;
  }

  /** Candidate (i, j) of the scores is the similarity of candidate patch (i, j). */
  lemma GridIsSimilarity(p: Area, w: Area)
    requires p.Valid() && p.side == BlockSize && w.Valid() && w.side == Span
    ensures forall i, j :: 0 <= i < Side && 0 <= j < Side
              ==> GridAt(Scores(p, w), i, j) == Similarity(p, Candidate(w, i, j))
  {
    forall i, j | 0 <= i < Side && 0 <= j < Side
      ensures GridAt(Scores(p, w), i, j) == Similarity(p, Candidate(w, i, j))
    {
      CandidateScoreAt(p, w, i, j);
    }
  }

  /** The moments of the base patch against candidate number `c`, centred on the two means. */
  ghost function CandidateMoments(p: Area, w: Area, c: int): (mo: Moments)
    requires p.Valid() && p.side == BlockSize && w.Valid() && w.side == Span && 0 <= c < Side * Side
    ensures 0.0 <= mo.num && 0.0 <= mo.pp && 0.0 <= mo.qq
    ensures Scores(p, w)[c] == Score(mo)
  {
    NumberInGrid(c);
    var q := Candidate(w, c / Side, c % Side);
    PatchMoments(p, q, Mean(p), Mean(q), BlockSize)
  }

  /** A factor of a non-negative product with a positive factor is not negative. */
  lemma NonNegativeFactor(k: real, r: real, n: real)
    requires 0.0 < r && k * r == n && 0.0 <= n
    ensures 0.0 <= k
  {
    if k < 0.0 {
      PositiveProduct(-k, r);
    }
  }

  /**
   * k is the kernel's score num / sqrt(pp qq) of the moments, r being that
   * square root; a flat patch (0/0) has none.
   */
  predicate KernelQuotient(mo: Moments, k: Option<real>, r: real)
  {
    if mo.pp == 0.0 || mo.qq == 0.0 then k.None?
    else k.Some? && 0.0 < r && r * r == mo.pp * mo.qq && k.value * r == mo.num
  }

  /** One candidate scored by the kernel: the quotient is not negative and its square is Score. */
  lemma KernelScoreOrNone(mo: Moments, k: Option<real>, r: real)
    requires 0.0 <= mo.num && 0.0 <= mo.pp && 0.0 <= mo.qq && KernelQuotient(mo, k, r)
    ensures Score(mo).Some? <==> k.Some?
    ensures k.Some? ==> 0.0 <= k.value && Score(mo).value == k.value * k.value
  {
    if k.Some? {
      NonNegativeFactor(k.value, r, mo.num);
      KernelScoreSquared(mo, r, k.value);
    }
  }

  /** Candidate `c` has a kernel quotient exactly when it has a score, and both are above NoMatch. */
  lemma CandidateKernelScore(p: Area, w: Area, c: int, k: Option<real>, r: real)
    requires p.Valid() && p.side == BlockSize && w.Valid() && w.side == Span && 0 <= c < Side * Side
    requires KernelQuotient(CandidateMoments(p, w, c), k, r)
    ensures Scores(p, w)[c].Some? <==> k.Some?
    ensures k.Some? ==> NoMatch < k.value && NoMatch < Scores(p, w)[c].value
  {
    KernelScoreOrNone(CandidateMoments(p, w, c), k, r);
  }

  /** Kernel quotients and Scores order two non-flat candidates alike. */
  lemma KernelOrder(mc: Moments, md: Moments, kc: real, rc: real, kd: real, rd: real)
    requires 0.0 <= mc.num && 0.0 <= mc.pp && 0.0 <= mc.qq && KernelQuotient(mc, Some(kc), rc)
    requires 0.0 <= md.num && 0.0 <= md.pp && 0.0 <= md.qq && KernelQuotient(md, Some(kd), rd)
    ensures Score(mc).Some? && Score(md).Some?
    ensures kc > kd <==> Score(mc).value > Score(md).value
  {
    KernelScoreOrNone(mc, Some(kc), rc);
    KernelScoreOrNone(md, Some(kd), rd);
    SquareOrder(kc, kd);
  }

  /** Two candidates compare the same way under the kernel's quotients and under the scores. */
  lemma CandidateKernelOrder(p: Area, w: Area, c: int, d: int, kc: real, rc: real, kd: real, rd: real)
    requires p.Valid() && p.side == BlockSize && w.Valid() && w.side == Span
    requires 0 <= c < Side * Side && 0 <= d < Side * Side
    requires KernelQuotient(CandidateMoments(p, w, c), Some(kc), rc)
    requires KernelQuotient(CandidateMoments(p, w, d), Some(kd), rd)
    ensures Scores(p, w)[c].Some? && Scores(p, w)[d].Some?
    ensures kc > kd <==> Scores(p, w)[c].value > Scores(p, w)[d].value
  {
    KernelOrder(CandidateMoments(p, w, c), CandidateMoments(p, w, d), kc, rc, kd, rd);
  }

  /**
   * findOffset scored by the kernel's own quotients: when K[c] is
   * num / sqrt(denPP denQQ) of candidate c (k r == num for the square root
   * r of denPP denQQ) and no score for a flat candidate, the leader over K
   * is the leader over the model's scores, so the kernel reports the offsets
   * OffsetChoice gives.
   */
  lemma KernelChoice(p: Area, w: Area, K: seq<Option<real>>, R: seq<real>,
                     top: int, left: int, prevTop: int, prevLeft: int)
    requires p.Valid() && p.side == BlockSize && w.Valid() && w.side == Span && 0 <= top && 0 <= left
    requires |K| == Side * Side && |R| == Side * Side
    requires forall c :: 0 <= c < Side * Side ==> KernelQuotient(CandidateMoments(p, w, c), K[c], R[c])
    ensures Leader(K, |K|, NoMatch) == Leader(Scores(p, w), Side * Side, NoMatch)
    ensures OffsetOf(Leader(K, |K|, NoMatch), top, left, prevTop, prevLeft)
            == OffsetChoice(p, w, top, left, prevTop, prevLeft)
  {
    var S := Scores(p, w);
    forall c | 0 <= c < |K|
      ensures (K[c].Some? <==> S[c].Some?)
      ensures K[c].Some? ==> NoMatch < K[c].value && NoMatch < S[c].value
    {
      CandidateKernelScore(p, w, c, K[c], R[c]);
    }
    forall c, d | 0 <= c < |K| && 0 <= d < |K| && K[c].Some? && K[d].Some?
      ensures K[c].value > K[d].value <==> S[c].value > S[d].value
    {
      CandidateKernelOrder(p, w, c, d, K[c].value, R[c], K[d].value, R[d]);
    }
    LeaderOrderInvariant(K, S, |K|, NoMatch, NoMatch);
  }

  // ---------------------------------------------------------------------
  // The base patch's lumas (grayP).

  /**
   * Rows 0 .. m-1 of the buffer hold the lumas of patch f, row-major:
   * pixel (r, c) in slot r * 100 + c (100 being BlockSize).
   */
  predicate HoldsPatch(gp: array<real>, f: Area, m: int)
    requires f.Valid() && f.side == BlockSize && 0 <= m <= BlockSize
    reads gp
  {
    gp.Length == PatchArea
    && forall r, c :: 0 <= r < m && 0 <= c < BlockSize ==> gp[r * 100 + c] == f.GrayAt(r, c)
  }

  /**
   * Row m of the base patch: each luma is stored in the next slot of the
   * buffer and added to the running sum.
   */
  method ExtractRow(p: array<Pixel>, width: int, height: int, ghost f: Area, gp: array<real>,
                    m: int, blockIndex0: int, grayIndex0: int, avg0: real)
    returns (blockIndex: int, grayIndex: int, avg: real)
    requires p as object != gp as object
    requires f.Valid() && f.side == BlockSize && f.img == p[..] && f.width == width && f.height == height
    requires 0 <= m < BlockSize && HoldsPatch(gp, f, m)
    requires blockIndex0 == Flat(width, f.top + m, f.left) && grayIndex0 == m * 100
    modifies gp
    ensures HoldsPatch(gp, f, m + 1)
    ensures avg == avg0 + RowGray(f, m, BlockSize)
    ensures blockIndex == Flat(width, f.top + m, f.left + BlockSize) && grayIndex == (m + 1) * 100
  {
    blockIndex, grayIndex, avg := blockIndex0, grayIndex0, avg0;
    var n := 0;
    while n < BlockSize
      invariant 0 <= n <= BlockSize
      invariant blockIndex == Flat(width, f.top + m, f.left + n) && grayIndex == m * 100 + n
      invariant p[..] == f.img && gp.Length == PatchArea
      invariant forall r, c :: 0 <= r < m && 0 <= c < BlockSize ==> gp[r * 100 + c] == f.GrayAt(r, c)
      invariant forall c :: 0 <= c < n ==> gp[m * 100 + c] == f.GrayAt(m, c)
      invariant avg == avg0 + RowGray(f, m, n)
    {
      FlatInImage(width, height, f.top + m, f.left + n);
      var gray := Gray(p[blockIndex]);
      assert gray == f.GrayAt(m, n);
      gp[grayIndex] := gray;
      avg := avg + gray;
      ghost var n0 := n;
      n, blockIndex, grayIndex := n + 1, blockIndex + 1, grayIndex + 1;
      FlatNextCol(width, f.top + m, f.left + n0, f.left + n);
      RowGrayNext(f, m, n0, n);
    }
  }

  /** The base patch's lumas, row by row, and their mean (avgGrayP). */
  method ExtractPatch(p: array<Pixel>, width: int, height: int, top: int, left: int, ghost f: Area)
    returns (gp: array<real>, avg: real)
    requires f.Valid() && f.side == BlockSize && f.img == p[..] && f.width == width && f.height == height
    requires f.top == top && f.left == left
    ensures fresh(gp) && HoldsPatch(gp, f, BlockSize)
    ensures avg == Mean(f)
  {
    gp := new real[PatchArea];
    var blockIndex := top * width + left;
    var grayIndex := 0;
    avg := 0.0;
    var m := 0;
    while m < BlockSize
      invariant 0 <= m <= BlockSize && fresh(gp)
      invariant blockIndex == Flat(width, f.top + m, f.left) && grayIndex == m * 100
      invariant HoldsPatch(gp, f, m)
      invariant avg == PatchGray(f, m)
    {
      blockIndex, grayIndex, avg := ExtractRow(p, width, height, f, gp, m, blockIndex, grayIndex, avg);
      FlatNextRow(width, f.top + m, f.left);
      blockIndex := blockIndex + (width - BlockSize);
      m := m + 1;
    }
    avg := avg / PatchArea as real;
  }

  // ---------------------------------------------------------------------
  // The window's luma cache (grayQ): pixel (r, c) of the window in slot
  // r * 200 + c (200 being Span); a slot is Unknown until that luma is needed.

  /** Every slot is Unknown or holds the luma of its pixel of the window. */
  predicate Coherent(cache: array<real>, w: Area)
    requires w.Valid() && w.side == Span
    reads cache
  {
    cache.Length == CacheSize
    && forall r, c :: 0 <= r < Span && 0 <= c < Span ==> cache[r * 200 + c] == Unknown || cache[r * 200 + c] == w.GrayAt(r, c)
  }

  /** Rows r0 .. r1-1, columns c0 .. c1-1 of the window have their lumas in the cache. */
  predicate Cached(cache: array<real>, w: Area, r0: int, r1: int, c0: int, c1: int)
    requires w.Valid() && w.side == Span && 0 <= r0 && r1 <= Span && 0 <= c0 && c1 <= Span
    reads cache
  {
    cache.Length == CacheSize
    && forall r, c :: r0 <= r < r1 && c0 <= c < c1 ==> cache[r * 200 + c] == w.GrayAt(r, c)
  }

  /** A fresh cache with every slot Unknown: coherent for any window. */
  method NewCache() returns (cache: array<real>)
    ensures fresh(cache) && cache.Length == CacheSize
    ensures forall k :: 0 <= k < CacheSize ==> cache[k] == Unknown
  {
    cache := new real[CacheSize];
    var k := 0;
    while k < CacheSize
      invariant 0 <= k <= CacheSize
      invariant forall k' :: 0 <= k' < k ==> cache[k'] == Unknown
    {
      cache[k] := Unknown;
      k := k + 1;
    }
  }

  /**
   * The luma of pixel (r, c) of the window: read from its slot, or computed
   * from the pixel and stored there when the slot is Unknown. Known slots
   * keep their value and no other slot changes.
   */
  method LoadLuma(q: array<Pixel>, width: int, height: int, ghost w: Area, cache: array<real>,
                  r: int, c: int, blockIndex: int, grayIndex: int)
    returns (gray: real)
    requires q as object != cache as object
    requires w.Valid() && w.side == Span && w.img == q[..] && w.width == width && w.height == height
    requires 0 <= r < Span && 0 <= c < Span && Coherent(cache, w)
    requires blockIndex == Flat(width, w.top + r, w.left + c) && grayIndex == r * 200 + c
    modifies cache
    ensures gray == w.GrayAt(r, c) && cache[grayIndex] == gray && Coherent(cache, w)
    ensures forall k :: 0 <= k < CacheSize && k != grayIndex ==> cache[k] == old(cache[k])
    ensures forall k :: 0 <= k < CacheSize && old(cache[k]) != Unknown ==> cache[k] == old(cache[k])
  {
    assert cache[grayIndex] == Unknown || cache[grayIndex] == w.GrayAt(r, c);
    if cache[grayIndex] < 0.0 {
      FlatInImage(width, height, w.top + r, w.left + c);
      gray := Gray(q[blockIndex]);
      cache[grayIndex] := gray;
    } else {
      gray := cache[grayIndex];
    }
  }

  /**
   * Row m of candidate (i, j): each luma is loaded through the cache and
   * added to the running sum.
   */
  method LoadRow(q: array<Pixel>, width: int, height: int, ghost w: Area, cache: array<real>,
                 i: int, j: int, m: int, blockIndex0: int, avg0: real)
    returns (blockIndex: int, avg: real)
    requires q as object != cache as object
    requires w.Valid() && w.side == Span && w.img == q[..] && w.width == width && w.height == height
    requires 0 <= i < Side && 0 <= j < Side && 0 <= m < BlockSize
    requires Coherent(cache, w)
    requires blockIndex0 == Flat(width, w.top + i + m, w.left + j)
    modifies cache
    ensures Coherent(cache, w) && Cached(cache, w, i + m, i + m + 1, j, j + BlockSize)
    ensures forall k :: 0 <= k < CacheSize && old(cache[k]) != Unknown ==> cache[k] == old(cache[k])
    ensures avg == avg0 + RowGray(Candidate(w, i, j), m, BlockSize)
    ensures blockIndex == Flat(width, w.top + i + m, w.left + j + BlockSize)
  {
    ghost var C := Candidate(w, i, j);
    blockIndex, avg := blockIndex0, avg0;
    var grayIndex := (i + m) * 200 + j;
    var n := 0;
    while n < BlockSize
      invariant 0 <= n <= BlockSize
      invariant blockIndex == Flat(width, w.top + i + m, w.left + j + n) && grayIndex == (i + m) * 200 + j + n
      invariant q[..] == w.img
      invariant Coherent(cache, w) && Cached(cache, w, i + m, i + m + 1, j, j + n)
      invariant forall k :: 0 <= k < CacheSize && old(cache[k]) != Unknown ==> cache[k] == old(cache[k])
      invariant avg == avg0 + RowGray(C, m, n)
    {
      var gray := LoadLuma(q, width, height, w, cache, i + m, j + n, blockIndex, grayIndex);
      assert gray == C.GrayAt(m, n);
      avg := avg + gray;
      ghost var n0 := n;
      n, blockIndex, grayIndex := n + 1, blockIndex + 1, grayIndex + 1;
      FlatNextCol(width, w.top + i + m, w.left + j + n0, w.left + j + n);
    }
  }

  /**
   * All lumas of candidate (i, j), loaded through the cache, and their mean
   * (avgGrayQ). The cache stays coherent and afterwards holds the candidate.
   */
  method LoadCandidate(q: array<Pixel>, width: int, height: int, ghost w: Area, cache: array<real>,
                       i: int, j: int, firstBlockIndex: int)
    returns (avg: real)
    requires q as object != cache as object
    requires w.Valid() && w.side == Span && w.img == q[..] && w.width == width && w.height == height
    requires 0 <= i < Side && 0 <= j < Side && Coherent(cache, w)
    requires firstBlockIndex == Flat(width, w.top + i, w.left + j)
    modifies cache
    ensures Coherent(cache, w) && Cached(cache, w, i, i + BlockSize, j, j + BlockSize)
    ensures avg == Mean(Candidate(w, i, j))
  {
    ghost var C := Candidate(w, i, j);
    var blockIndex := firstBlockIndex;
    avg := 0.0;
    var m := 0;
    while m < BlockSize
      invariant 0 <= m <= BlockSize
      invariant blockIndex == Flat(width, w.top + i + m, w.left + j)
      invariant q[..] == w.img
      invariant Coherent(cache, w) && Cached(cache, w, i, i + m, j, j + BlockSize)
      invariant avg == PatchGray(C, m)
    {
      blockIndex, avg := LoadRow(q, width, height, w, cache, i, j, m, blockIndex, avg);
      FlatNextRow(width, w.top + i + m, w.left + j);
      blockIndex := blockIndex + (width - BlockSize);
      m := m + 1;
    }
    avg := avg / PatchArea as real;
  }

  // ---------------------------------------------------------------------
  // The correlation of the base patch with one candidate.

  /** Adds the moments of row m of the two patches, read from the two luma buffers. */
  method CorrelateRow(gp: array<real>, cache: array<real>, ghost P: Area, ghost w: Area,
                      i: int, j: int, m: int, ap: real, aq: real,
                      grayIndexP0: int, num0: real, pp0: real, qq0: real)
    returns (grayIndexP: int, num: real, pp: real, qq: real)
    requires P.Valid() && P.side == BlockSize && HoldsPatch(gp, P, BlockSize)
    requires w.Valid() && w.side == Span && 0 <= i < Side && 0 <= j < Side && 0 <= m < BlockSize
    requires Cached(cache, w, i, i + BlockSize, j, j + BlockSize)
    requires grayIndexP0 == m * 100
    ensures grayIndexP == (m + 1) * 100
    ensures Moments(num, pp, qq)
            == Moments(num0, pp0, qq0).Plus(RowMoments(P, Candidate(w, i, j), ap, aq, m, BlockSize))
  {
    ghost var C := Candidate(w, i, j);
    grayIndexP, num, pp, qq := grayIndexP0, num0, pp0, qq0;
    var grayIndexQ := (i + m) * 200 + j;
    var n := 0;
    while n < BlockSize
      invariant 0 <= n <= BlockSize
      invariant grayIndexP == m * 100 + n && grayIndexQ == (i + m) * 200 + j + n
      invariant Moments(num, pp, qq) == Moments(num0, pp0, qq0).Plus(RowMoments(P, C, ap, aq, m, n))
    {
      assert gp[grayIndexP] == P.GrayAt(m, n);
      assert cache[grayIndexQ] == w.GrayAt(i + m, j + n) == C.GrayAt(m, n);
      var diffP := gp[grayIndexP] - ap;
      var diffQ := cache[grayIndexQ] - aq;
      assert Term(P, C, ap, aq, m, n) == Contribution(diffP, diffQ);
      num := num + Abs(diffP * diffQ);
      pp := pp + diffP * diffP;
      qq := qq + diffQ * diffQ;
      ghost var n0 := n;
      n, grayIndexP, grayIndexQ := n + 1, grayIndexP + 1, grayIndexQ + 1;
      RowMomentsNext(P, C, ap, aq, m, n0, n);
    }
  }

  /**
   * The squared correlation num^2 / (pp qq) of the accumulated sums; None
   * for 0/0, that is exactly when one of the patches is flat.
   */
  method Correlation(num: real, pp: real, qq: real) returns (sim: Option<real>)
    requires 0.0 <= pp && 0.0 <= qq
    ensures sim == Score(Moments(num, pp, qq))
    ensures sim.None? <==> pp == 0.0 || qq == 0.0
  {
    ghost var mo := Moments(num, pp, qq);
    var den := pp * qq;
    if den == 0.0 {
      sim := None;
      assert Score(mo) == None;
    } else {
      sim := Some(num * num / den);
      assert Score(mo).value == num * num / den;
    }
  }

  /** The moments of the base patch against candidate (i, j), over all rows. */
  method Correlate(gp: array<real>, cache: array<real>, ghost P: Area, ghost w: Area,
                   i: int, j: int, ap: real, aq: real)
    returns (num: real, pp: real, qq: real)
    requires P.Valid() && P.side == BlockSize && HoldsPatch(gp, P, BlockSize)
    requires w.Valid() && w.side == Span && 0 <= i < Side && 0 <= j < Side
    requires Cached(cache, w, i, i + BlockSize, j, j + BlockSize)
    ensures Moments(num, pp, qq) == PatchMoments(P, Candidate(w, i, j), ap, aq, BlockSize)
  {
    ghost var C := Candidate(w, i, j);
    num, pp, qq := 0.0, 0.0, 0.0;
    var grayIndexP := 0;
    var m := 0;
    while m < BlockSize
      invariant 0 <= m <= BlockSize && grayIndexP == m * 100
      invariant Moments(num, pp, qq) == PatchMoments(P, C, ap, aq, m)
    {
      grayIndexP, num, pp, qq := CorrelateRow(gp, cache, P, w, i, j, m, ap, aq, grayIndexP, num, pp, qq);
      m := m + 1;
    }
  }

  /**
   * The score of candidate (i, j): its lumas are loaded through the cache,
   * centred on the two means and correlated with the base patch.
   */
  method TryCandidate(q: array<Pixel>, width: int, height: int, gp: array<real>, cache: array<real>,
                      ghost P: Area, ghost w: Area, i: int, j: int, firstBlockIndex: int, avgP: real)
    returns (sim: Option<real>)
    requires q as object != cache as object
    requires P.Valid() && P.side == BlockSize && HoldsPatch(gp, P, BlockSize) && avgP == Mean(P)
    requires w.Valid() && w.side == Span && w.img == q[..] && w.width == width && w.height == height
    requires 0 <= i < Side && 0 <= j < Side && Coherent(cache, w)
    requires firstBlockIndex == Flat(width, w.top + i, w.left + j)
    modifies cache
    ensures Coherent(cache, w)
    ensures sim == Similarity(P, Candidate(w, i, j))
  {
    var avgQ := LoadCandidate(q, width, height, w, cache, i, j, firstBlockIndex);
    var num, pp, qq := Correlate(gp, cache, P, w, i, j, avgP, avgQ);
    sim := Correlation(num, pp, qq);
  }

  // ---------------------------------------------------------------------
  // The search over all candidates, with a running maximum (maxSim).

  /**
   * Candidate (i, j), number i * Side + j, with score `sim`: it replaces the
   * running maximum and the offsets exactly when its score is a number
   * strictly above the maximum, so the running values stay those of the
   * first best candidate so far.
   */
  method Consider(ghost S: seq<Option<real>>, top: int, left: int, i: int, j: int, ghost k: int, sim: Option<real>,
                  maxSim0: real, offsetTop0: int, offsetLeft0: int, ghost prevTop: int, ghost prevLeft: int)
    returns (maxSim: real, offsetTop: int, offsetLeft: int)
    requires |S| == Side * Side && 0 <= top && 0 <= left && 0 <= i < Side && 0 <= j < Side && k == i * Side
    requires sim == S[k + j]
    requires maxSim0 == Best(S, k + j, NoMatch)
    requires (offsetTop0, offsetLeft0) == OffsetOf(Leader(S, k + j, NoMatch), top, left, prevTop, prevLeft)
    ensures maxSim == Best(S, k + j + 1, NoMatch)
    ensures (offsetTop, offsetLeft) == OffsetOf(Leader(S, k + j + 1, NoMatch), top, left, prevTop, prevLeft)
  {
    CandidateNumber(i, j);
    maxSim, offsetTop, offsetLeft := maxSim0, offsetTop0, offsetLeft0;
    if sim.Some? && sim.value > maxSim {
      maxSim := sim.value;
      offsetTop := i - (if top > CompMaxOffset then CompMaxOffset else top);
      offsetLeft := j - (if left > CompMaxOffset then CompMaxOffset else left);
    }
  }

  /**
   * Row i of the candidate grid, columns 0 .. Side-1 in order. On entry the
   * running maximum and offsets are those of the candidates before the row;
   * on exit, of the candidates up to the end of the row. A candidate
   * replaces them only when its score is a number strictly above the
   * running maximum.
   */
  method SearchRow(q: array<Pixel>, width: int, height: int, gp: array<real>, cache: array<real>,
                   ghost P: Area, ghost w: Area, ghost S: seq<Option<real>>,
                   top: int, left: int, i: int, ghost k: int, firstBlockIndex0: int, avgP: real,
                   maxSim0: real, offsetTop0: int, offsetLeft0: int, ghost prevTop: int, ghost prevLeft: int)
    returns (firstBlockIndex: int, maxSim: real, offsetTop: int, offsetLeft: int)
    requires q as object != cache as object
    requires P.Valid() && P.side == BlockSize && HoldsPatch(gp, P, BlockSize) && avgP == Mean(P)
    requires w.Valid() && w.side == Span && w.img == q[..] && w.width == width && w.height == height
    requires 0 <= top && 0 <= left && 0 <= i < Side && k == i * Side && Coherent(cache, w)
    requires |S| == Side * Side
    requires forall i', j' :: 0 <= i' < Side && 0 <= j' < Side ==> GridAt(S, i', j') == Similarity(P, Candidate(w, i', j'))
    requires firstBlockIndex0 == Flat(width, w.top + i, w.left)
    requires maxSim0 == Best(S, k, NoMatch)
    requires (offsetTop0, offsetLeft0) == OffsetOf(Leader(S, k, NoMatch), top, left, prevTop, prevLeft)
    modifies cache
    ensures Coherent(cache, w)
    ensures firstBlockIndex == firstBlockIndex0 + Side
    ensures maxSim == Best(S, k + Side, NoMatch)
    ensures (offsetTop, offsetLeft) == OffsetOf(Leader(S, k + Side, NoMatch), top, left, prevTop, prevLeft)
  {
    firstBlockIndex, maxSim, offsetTop, offsetLeft := firstBlockIndex0, maxSim0, offsetTop0, offsetLeft0;
    var j := 0;
    ghost var c := k;
    while j < Side
      invariant 0 <= j <= Side && q[..] == w.img && Coherent(cache, w)
      invariant firstBlockIndex == Flat(width, w.top + i, w.left + j)
      invariant c == k + j
      invariant maxSim == Best(S, c, NoMatch)
      invariant (offsetTop, offsetLeft) == OffsetOf(Leader(S, c, NoMatch), top, left, prevTop, prevLeft)
    {
      var sim := TryCandidate(q, width, height, gp, cache, P, w, i, j, firstBlockIndex, avgP);
      assert sim == GridAt(S, i, j) == S[k + j];
      maxSim, offsetTop, offsetLeft := Consider(S, top, left, i, j, k, sim, maxSim, offsetTop, offsetLeft, prevTop, prevLeft);
      ghost var j0 := j;
      c := k + j + 1;
      j, firstBlockIndex := j + 1, firstBlockIndex + 1;
      FlatNextCol(width, w.top + i, w.left + j0, w.left + j);
    }
  }

  /** The flat index of the next row of the window, in the shape the row loop needs. */
  lemma WindowNextRow(width: int, top: int, i: int, i': int, left: int)
    requires i' == i + 1
    ensures Flat(width, top + i', left) == Flat(width, top + i, left) + width
  {
    FlatNextRow(width, top + i, left);
  }

  /** All rows of the candidate grid in order, from the initial maximum and offsets. */

  method SearchGrid(q: array<Pixel>, width: int, height: int, gp: array<real>, cache: array<real>,
                    ghost P: Area, ghost w: Area, ghost S: seq<Option<real>>,
                    top: int, left: int, firstBlockIndex0: int, avgP: real, prevTop: int, prevLeft: int)
    returns (maxSim: real, offsetTop: int, offsetLeft: int)
    requires q as object != cache as object
    requires P.Valid() && P.side == BlockSize && HoldsPatch(gp, P, BlockSize) && avgP == Mean(P)
    requires w.Valid() && w.side == Span && w.img == q[..] && w.width == width && w.height == height
    requires 0 <= top && 0 <= left && Coherent(cache, w)
    requires |S| == Side * Side
    requires forall i', j' :: 0 <= i' < Side && 0 <= j' < Side ==> GridAt(S, i', j') == Similarity(P, Candidate(w, i', j'))
    requires firstBlockIndex0 == Flat(width, w.top, w.left)
    modifies cache
    ensures maxSim == Best(S, Side * Side, NoMatch)
    ensures (offsetTop, offsetLeft) == OffsetOf(Leader(S, Side * Side, NoMatch), top, left, prevTop, prevLeft)
  {
    var firstBlockIndex := firstBlockIndex0;
    maxSim, offsetTop, offsetLeft := NoMatch, prevTop, prevLeft;
    var i := 0;
    ghost var k := 0;
    while i < Side
      invariant 0 <= i <= Side && q[..] == w.img && Coherent(cache, w)
      invariant firstBlockIndex == Flat(width, w.top + i, w.left)
      invariant k == i * Side
      invariant maxSim == Best(S, k, NoMatch)
      invariant (offsetTop, offsetLeft) == OffsetOf(Leader(S, k, NoMatch), top, left, prevTop, prevLeft)
    {
      firstBlockIndex, maxSim, offsetTop, offsetLeft :=
        SearchRow(q, width, height, gp, cache, P, w, S, top, left, i, k, firstBlockIndex, avgP,
                  maxSim, offsetTop, offsetLeft, prevTop, prevLeft);
      firstBlockIndex := firstBlockIndex + (width - Side);
      ghost var i0 := i;
      i, k := i + 1, k + Side;
      WindowNextRow(width, w.top, i0, i, w.left);
    }
  }

  /**
   * findOffset: aligns image q against the base image p at the block
   * (top, left). The offsets are those of the first candidate with the best
   * score, or the previous offsets when no candidate has a score; maxSim is
   * that best score, or NoMatch.
   */
  method FindOffset(p: array<Pixel>, q: array<Pixel>, width: int, height: int,
                    top: int, left: int, prevTop: int, prevLeft: int)
    returns (offsetTop: int, offsetLeft: int, maxSim: real)
    requires p.Length == width * height && q.Length == width * height
    requires SearchFits(width, height, top, left)
    ensures (offsetTop, offsetLeft)
            == OffsetChoice(BasePatch(p[..], width, height, top, left), Window(q[..], width, height, top, left),
                            top, left, prevTop, prevLeft)
    ensures maxSim == Best(Scores(BasePatch(p[..], width, height, top, left), Window(q[..], width, height, top, left)),
                           Side * Side, NoMatch)
  {
    ghost var P := BasePatch(p[..], width, height, top, left);
    ghost var w := Window(q[..], width, height, top, left);
    ghost var S := Scores(P, w);
    GridIsSimilarity(P, w);
    var cache := NewCache();
    var gp, avgP := ExtractPatch(p, width, height, top, left, P);
    var firstBlockIndex := (if top > CompMaxOffset then top - CompMaxOffset else 0) * width
                           + (if left > CompMaxOffset then left - CompMaxOffset else 0);
    maxSim, offsetTop, offsetLeft := SearchGrid(q, width, height, gp, cache, P, w, S, top, left, firstBlockIndex, avgP,
                                                prevTop, prevLeft);
  }
}
