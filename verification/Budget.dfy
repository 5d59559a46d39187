/**
 The metrics query budget: how many aligned buckets a range meets, which interval
 is recommended, and which plan answers a request. Times are nanoseconds.
 */
module Budget {
  import opened Arithmetic
  import opened Durations
  import opened Options
  import opened Stitch
  import opened StitchMeaning
  import opened StitchQuery

  const MAX_BUCKETS := 600
  const MAX_RANGE := 30 * DAY

  datatype Interval = Minute1 | Minute5 | Minute15 | Hour1 | Hour6

  const INTERVALS := [Minute1, Minute5, Minute15, Hour1, Hour6]

  function Width(i: Interval): int {
    match i
    case Minute1 => MINUTE
    case Minute5 => 5 * MINUTE
    case Minute15 => 15 * MINUTE
    case Hour1 => HOUR
    case Hour6 => 6 * HOUR
  }

  function Rank(i: Interval): nat {
    match i case Minute1 => 0 case Minute5 => 1 case Minute15 => 2 case Hour1 => 3 case Hour6 => 4
  }

  // ------------------------------------------------------------ bucket count

  /** Integer division that rounds toward zero. */
  function Truncated(a: int, d: int): int
    requires d > 0
  {
    if a >= 0 then a / d else -((-a) / d)
  }

  function BucketCount(from: int, to: int, width: int): int
    requires width > 0
  {
    if to <= from || Truncated(to - 1, width) < Truncated(from, width) then 0
    else Truncated(to - 1, width) - Truncated(from, width) + 1
  }

  /** Bucket number `k` has an instant in [from, to). */
  predicate Meets(k: int, width: int, from: int, to: int) { k * width < to && from < k * width + width }

  /** Truncation rounds up exactly the negative times inside a bucket. */
  predicate RoundsUp(t: int, width: int)
    requires width > 0
  {
    t < 0 && t % width != 0
  }

  lemma TruncatedIs(t: int, width: int)
    requires width > 0
    ensures Truncated(t, width) == t / width + if RoundsUp(t, width) then 1 else 0
  {
    Quotient(t, width);
    if t < 0 {
      if t % width == 0 {
        assert -t == (-(t / width)) * width;
        QuotientUnique(-t, width, -(t / width));
      } else {
        assert (-(t / width) - 1) * width == -(t / width * width) - width;
        QuotientUnique(-t, width, -(t / width) - 1);
      }
    }
  }

  lemma MeetsIs(k: int, width: int, from: int, to: int)
    requires width > 0 && from < to
    ensures Meets(k, width, from, to) <==> from / width <= k <= (to - 1) / width
  {
    Quotient(from, width);
    Quotient(to - 1, width);
    if k <= (to - 1) / width {
      MultiplyMonotone(k, (to - 1) / width, width);
    } else {
      MultiplyMonotone((to - 1) / width + 1, k, width);
    }
    if from / width <= k {
      MultiplyMonotone(from / width, k, width);
    } else {
      MultiplyMonotone(k + 1, from / width, width);
    }
  }

  lemma {:induction false} RangeSize(s: set<int>, lo: int, hi: int)
    requires lo <= hi + 1 && forall k :: k in s <==> lo <= k <= hi
    ensures |s| == hi - lo + 1
    decreases hi - lo + 1
  {
    if lo <= hi {
      RangeSize(s - {hi}, lo, hi - 1);
    } else {
      assert forall k :: k !in s;
      assert s == {};
    }
  }

  /** The counted buckets against the buckets that meet the range, for every range. */
  lemma BucketCountOff(from: int, to: int, width: int, met: set<int>)
    requires width > 0 && from < to && forall k :: k in met <==> Meets(k, width, from, to)
    ensures BucketCount(from, to, width)
      == |met| + (if RoundsUp(to - 1, width) then 1 else 0) - (if RoundsUp(from, width) then 1 else 0)
  {
    forall k
      ensures k in met <==> from / width <= k <= (to - 1) / width
    {
      MeetsIs(k, width, from, to);
    }
    QuotientMonotone(from, to - 1, width);
    RangeSize(met, from / width, (to - 1) / width);
    TruncatedIs(from, width);
    TruncatedIs(to - 1, width);
    if from / width == (to - 1) / width {
      Quotient(from, width);
      Quotient(to - 1, width);
    }
  }

  /** The count is exact if and only if both ends round the same way. */
  lemma BucketCountExactIff(from: int, to: int, width: int, met: set<int>)
    requires width > 0 && from < to && forall k :: k in met <==> Meets(k, width, from, to)
    ensures BucketCount(from, to, width) == |met| <==> RoundsUp(from, width) == RoundsUp(to - 1, width)
  {
    BucketCountOff(from, to, width, met);
  }

  /** From the epoch on it is always exact. */
  lemma BucketCountExact(from: int, to: int, width: int, met: set<int>)
    requires width > 0 && 0 <= from < to && forall k :: k in met <==> Meets(k, width, from, to)
    ensures BucketCount(from, to, width) == |met|
  {
    BucketCountExactIff(from, to, width, met);
  }

  /** A range across the epoch where the count falls short by one. */
  lemma BucketCountShort()
    ensures BucketCount(-1, 1, MINUTE) == 1 && Meets(-1, MINUTE, -1, 1) && Meets(0, MINUTE, -1, 1)
  {
  }

  // -------------------------------------------------------------- coarsening

  lemma BucketCountIs(from: int, to: int, width: int)
    requires width > 0 && 0 <= from < to
    ensures BucketCount(from, to, width) == (to - 1) / width - from / width + 1
    ensures 1 <= BucketCount(from, to, width)
  {
    QuotientMonotone(from, to - 1, width);
  }

  lemma NestedQuotient(t: int, width: int, m: int)
    requires width > 0 && m > 0
    ensures 0 < width * m && t / (width * m) == t / width / m
  {
    MultiplyMonotone(1, m, width);
    var q := t / width / m;
    Quotient(t, width);
    Quotient(t / width, m);
    var r := t / width - q * m;
    MultiplyMonotone(0, r, width);
    MultiplyMonotone(r + 1, m, width);
    assert (q * m + r) * width == q * (width * m) + r * width;
    assert (r + 1) * width == r * width + width;
    QuotientUnique(t, width * m, q);
  }

  lemma FactorBound(d: int, g: int, m: int)
    requires 0 <= g && m > 0 && d * m <= g + m - 1
    ensures d <= g
  {
    if g > 0 {
      MultiplyMonotone(1, m, g);
    }
    assert (g + 1) * m == g * m + m;
    if d > g {
      MultiplyMonotone(g + 1, d, m);
    }
  }

  lemma QuotientGap(a: int, b: int, m: int)
    requires a <= b && m > 0
    ensures b / m - a / m <= b - a
  {
    Quotient(a, m);
    Quotient(b, m);
    assert (b / m - a / m) * m == b / m * m - a / m * m;
    FactorBound(b / m - a / m, b - a, m);
  }

  /** A multiple of the width never needs more buckets. */
  lemma CoarserCountsLess(from: int, to: int, width: int, m: int)
    requires width > 0 && m > 0 && 0 <= from < to
    ensures 0 < width * m && BucketCount(from, to, width * m) <= BucketCount(from, to, width)
  {
    NestedQuotient(from, width, m);
    NestedQuotient(to - 1, width, m);
    BucketCountIs(from, to, width);
    BucketCountIs(from, to, width * m);
    QuotientMonotone(from, to - 1, width);
    QuotientGap(from / width, (to - 1) / width, m);
  }

  lemma {:induction false} CountFalls(from: int, to: int, a: Interval, b: Interval)
    requires 0 <= from < to && Rank(a) <= Rank(b)
    ensures BucketCount(from, to, Width(b)) <= BucketCount(from, to, Width(a))
    decreases Rank(b)
  {
    if Rank(a) < Rank(b) {
      match b
      case Minute5 =>
        CoarserCountsLess(from, to, Width(Minute1), 5);
      case Minute15 =>
        CountFalls(from, to, a, Minute5);
        CoarserCountsLess(from, to, Width(Minute5), 3);
      case Hour1 =>
        CountFalls(from, to, a, Minute15);
        CoarserCountsLess(from, to, Width(Minute15), 4);
      case Hour6 =>
        CountFalls(from, to, a, Hour1);
        CoarserCountsLess(from, to, Width(Hour1), 6);
    }
  }

  /** Thirty days never exceed 121 six-hour buckets. */
  lemma SixHoursFit(from: int, to: int)
    requires 0 <= from < to <= from + MAX_RANGE
    ensures BucketCount(from, to, Width(Hour6)) <= 121
  {
  }

  predicate Fits(from: int, to: int, i: Interval) { BucketCount(from, to, Width(i)) <= MAX_BUCKETS }

  lemma IntervalAt(i: Interval)
    ensures Rank(i) < |INTERVALS| && INTERVALS[Rank(i)] == i
  {
  }

  /** What fits is exactly the first fitting interval and everything coarser. */
  lemma FinestFits(from: int, to: int, best: Interval)
    requires 0 <= from < to && Fits(from, to, best)
    requires forall k | 0 <= k < Rank(best) :: !Fits(from, to, INTERVALS[k])
    ensures forall i :: Fits(from, to, i) <==> Rank(best) <= Rank(i)
  {
    forall i
      ensures Fits(from, to, i) <==> Rank(best) <= Rank(i)
    {
      IntervalAt(i);
      if Rank(best) <= Rank(i) {
        CountFalls(from, to, best, i);
      }
    }
  }

  lemma NoneFits(from: int, to: int)
    requires forall k | 0 <= k < |INTERVALS| :: !Fits(from, to, INTERVALS[k])
    ensures forall i :: !Fits(from, to, i)
  {
    forall i
      ensures !Fits(from, to, i)
    {
      IntervalAt(i);
    }
  }

  /**
   The first interval of the list that fits: the finest one, everything coarser
   fits too, and there always is one for thirty days.
   */
  method RecommendedInterval(from: int, to: int) returns (best: Option<Interval>)
    requires 0 <= from < to
    ensures best.Some? ==> forall i :: Fits(from, to, i) <==> Rank(best.value) <= Rank(i)
    ensures best.None? ==> forall i :: !Fits(from, to, i)
    ensures to - from <= MAX_RANGE ==> best.Some?
  {
    for k := 0 to |INTERVALS|
      invariant forall j | 0 <= j < k :: !Fits(from, to, INTERVALS[j])
    {
      var interval := INTERVALS[k];
      if Fits(from, to, interval) {
        IntervalAt(interval);
        assert Rank(interval) == k;
        FinestFits(from, to, interval);
        return Some(interval);
      }
    }
    NoneFits(from, to);
    if to - from <= MAX_RANGE {
      SixHoursFit(from, to);
      assert Fits(from, to, Hour6);
      assert false;
    }
    return None;
  }

  function DefaultInterval(from: int, to: int): Interval {
    if to - from <= HOUR then Minute1
    else if to - from <= 6 * HOUR then Minute5
    else if to - from <= DAY then Minute15
    else Hour1
  }

  /** The automatic choice: the finest interval up to an hour, and between 13 and 97 buckets up to a day. */
  lemma DefaultIsModest(from: int, to: int)
    requires 0 <= from < to
    ensures to - from <= HOUR ==> Rank(DefaultInterval(from, to)) == 0
    ensures to - from <= 6 * HOUR ==> Width(DefaultInterval(from, to)) <= 5 * MINUTE
    ensures to - from <= DAY ==> Width(DefaultInterval(from, to)) <= 15 * MINUTE
    ensures HOUR < to - from <= DAY ==> 13 <= BucketCount(from, to, Width(DefaultInterval(from, to))) <= 97
    ensures DAY < to - from <= MAX_RANGE ==> 25 <= BucketCount(from, to, Width(DefaultInterval(from, to))) <= 721
  {
    BucketCountIs(from, to, Width(DefaultInterval(from, to)));
  }

  // ------------------------------------------------------------------ queries

  /** Number `k` of the buckets that a grid over the range visits. */
  function GridAt(width: int, from: int, k: int): int
    requires width > 0
  {
    (from / width + k) * width
  }

  /** A raw query at any width: at most one point per bucket that meets the range. */
  function GridPoints(raw: Raw, width: int, from: int, to: int, n: nat): seq<Point>
    requires width > 0
  {
    if n == 0 then []
    else
      var b := GridAt(width, from, n - 1);
      GridPoints(raw, width, from, to, n - 1) + PointAt(raw, b, Max(b, from), Min(b + width, to))
  }

  lemma {:induction false} GridPointsFit(raw: Raw, width: int, from: int, to: int, n: nat)
    requires width > 0
    ensures |GridPoints(raw, width, from, to, n)| <= n
  {
    if n > 0 {
      GridPointsFit(raw, width, from, to, n - 1);
    }
  }

  lemma {:induction false} GridPointMeans(raw: Raw, width: int, from: int, to: int, n: nat, p: Point)
    requires width > 0 && p in GridPoints(raw, width, from, to, n)
    ensures RawPoint(raw.samples, width, from, to, p)
    ensures p.bucket in raw.rated || SampledIn(raw.samples, Max(p.bucket, from), Min(p.bucket + width, to))
  {
    if p in GridPoints(raw, width, from, to, n - 1) {
      GridPointMeans(raw, width, from, to, n - 1, p);
    } else {
      var b := GridAt(width, from, n - 1);
      Multiple(from / width + n - 1, width);
      AggregateSummarizes(raw.samples, Max(b, from), Min(b + width, to));
      CountedIsSampled(raw.samples, Max(b, from), Min(b + width, to));
    }
  }

  lemma {:induction false} GridPointIsIn(raw: Raw, width: int, from: int, to: int, n: nat, k: nat, p: Point)
    requires width > 0 && k < n
    requires p in PointAt(raw, GridAt(width, from, k), Max(GridAt(width, from, k), from), Min(GridAt(width, from, k) + width, to))
    ensures p in GridPoints(raw, width, from, to, n)
  {
    if k < n - 1 {
      GridPointIsIn(raw, width, from, to, n - 1, k, p);
    }
  }

  /** The bucket of a time in the range is one of the counted ones. */
  lemma GridNumber(width: int, from: int, to: int, t: int) returns (k: nat)
    requires width > 0 && 0 <= from <= t < to
    ensures k < BucketCount(from, to, width) && GridAt(width, from, k) == t / width * width
  {
    QuotientMonotone(from, t, width);
    QuotientMonotone(t, to - 1, width);
    BucketCountIs(from, to, width);
    k := t / width - from / width;
  }

  /** Every point of a raw grid describes its bucket's samples, and every sample of the range is in the bucket of one. */
  ghost predicate GridMeaningful(raw: Raw, width: int, from: int, to: int, points: seq<Point>) {
    && width > 0
    && (forall p | p in points :: RawPoint(raw.samples, width, from, to, p))
    && (forall p | p in points :: p.bucket in raw.rated || SampledIn(raw.samples, Max(p.bucket, from), Min(p.bucket + width, to)))
    && (forall i | 0 <= i < |raw.samples| && from <= raw.samples[i].time < to ::
          HasPoint(points, raw.samples[i].time / width * width))
  }

  lemma GridHasPoint(raw: Raw, width: int, from: int, to: int, i: nat)
    requires width > 0 && 0 <= from < to && i < |raw.samples| && from <= raw.samples[i].time < to
    ensures HasPoint(GridPoints(raw, width, from, to, BucketCount(from, to, width)), raw.samples[i].time / width * width)
  {
    var k := GridNumber(width, from, to, raw.samples[i].time);
    var b := GridAt(width, from, k);
    Quotient(raw.samples[i].time, width);
    SampleCounts(raw.samples, Max(b, from), Min(b + width, to), i);
    var p := PointAt(raw, b, Max(b, from), Min(b + width, to))[0];
    GridPointIsIn(raw, width, from, to, BucketCount(from, to, width), k, p);
  }

  lemma GridIsMeaningful(raw: Raw, width: int, from: int, to: int)
    requires width > 0 && 0 <= from < to
    ensures GridMeaningful(raw, width, from, to, GridPoints(raw, width, from, to, BucketCount(from, to, width)))
  {
    var points := GridPoints(raw, width, from, to, BucketCount(from, to, width));
    forall p | p in points
      ensures RawPoint(raw.samples, width, from, to, p)
      ensures p.bucket in raw.rated || SampledIn(raw.samples, Max(p.bucket, from), Min(p.bucket + width, to))
    {
      GridPointMeans(raw, width, from, to, BucketCount(from, to, width), p);
    }
    forall i | 0 <= i < |raw.samples| && from <= raw.samples[i].time < to
      ensures HasPoint(points, raw.samples[i].time / width * width)
    {
      GridHasPoint(raw, width, from, to, i);
    }
  }

  lemma {:induction false} PiecesFit(d: Data, from: int, to: int, n: nat)
    ensures |Pieces(d, from, to, n)| <= n
  {
    if n > 0 {
      PiecesFit(d, from, to, n - 1);
    }
  }

  /** The planning loop visits exactly the counted six-hour buckets. */
  lemma BucketsAreCounted(from: int, to: int)
    requires 0 <= from < to
    ensures Buckets(from, to) == BucketCount(from, to, Width(Hour6))
  {
  }

  /** At six hours the raw grid is the direct raw query of the stitched plan. */
  lemma GridIsRaw(raw: Raw, from: int, to: int)
    requires 0 <= from < to
    ensures GridPoints(raw, Width(Hour6), from, to, Buckets(from, to)) == RawPoints(raw, from, to)
  {
    var d := Data(raw, map[], None, 0);
    RawIsPieces(d, from, to);
    GridIsPieces(d, from, to, Buckets(from, to));
  }

  ghost predicate GridUpTo(d: Data, from: int, to: int, n: nat) {
    GridPoints(d.raw, Width(Hour6), from, to, n) == Pieces(d, from, to, n)
  }

  lemma GridBucket(from: int, n: nat)
    ensures (from / Width(Hour6) + n) * Width(Hour6) == BucketAt(from, n)
  {
  }

  lemma GridNext(d: Data, from: int, to: int, n: nat)
    requires d.rows == map[] && GridUpTo(d, from, to, n)
    ensures GridUpTo(d, from, to, n + 1)
  {
    GridBucket(from, n);
  }

  lemma GridIsPieces(d: Data, from: int, to: int, n: nat)
    requires d.rows == map[]
    ensures GridUpTo(d, from, to, n)
  {
    var k := 0;
    while k < n
      invariant k <= n && GridUpTo(d, from, to, k)
    {
      GridNext(d, from, to, k);
      k := k + 1;
    }
  }

  /** A request; no interval means the automatic choice. */
  datatype Request = Request(from: int, to: int, requested: Option<Interval>, allowCoarsen: bool)

  datatype Reply =
    | Answered(interval: Interval, points: seq<Point>, planned: nat, stitched: bool)
    | BadRange
    | OverBudget(recommended: Option<Interval>)
    | RollupNotReady

  /** The interval is the caller's and must not be changed. */
  predicate Strict(q: Request) { q.requested.Some? && !q.allowCoarsen }

  /** The interval an answer starts from. */
  function Wanted(q: Request): Interval { if q.requested.Some? then q.requested.value else DefaultInterval(q.from, q.to) }

  /** The wanted interval where it fits, and the finest that does otherwise. */
  ghost predicate BestFit(q: Request, interval: Interval) {
    if Fits(q.from, q.to, Wanted(q)) then interval == Wanted(q)
    else forall i :: Fits(q.from, q.to, i) <==> Rank(interval) <= Rank(i)
  }

  /** The finest interval at or above the starting one that fits, unless the request is strict. */
  method ChooseInterval(q: Request) returns (interval: Interval, refused: bool)
    requires 0 <= q.from < q.to <= q.from + MAX_RANGE
    ensures !refused ==> Fits(q.from, q.to, interval) && (q.requested.Some? ==> Rank(q.requested.value) <= Rank(interval))
    ensures !refused && Strict(q) ==> interval == q.requested.value
    ensures refused <==> q.requested.Some? && !q.allowCoarsen && !Fits(q.from, q.to, q.requested.value)
    ensures BestFit(q, interval)
  {
    interval := Wanted(q);
    refused := false;
    if !Fits(q.from, q.to, interval) {
      var best := RecommendedInterval(q.from, q.to);
      refused := Strict(q);
      interval := best.value;
    }
  }

  /**
   Every answer stays within 600 buckets and 12,000 planned raw rows, at the
   requested interval unless coarsening is allowed.
   */
  method QueryWithBudget(d: Data, q: Request) returns (r: Reply)
    requires 0 <= q.from
    ensures r.BadRange? <==> !(q.from < q.to <= q.from + 30 * DAY)
    ensures r.Answered? ==>
      && |r.points| <= BucketCount(q.from, q.to, Width(r.interval)) <= 600 && r.planned <= 12_000
      && (q.requested.Some? ==> Rank(q.requested.value) <= Rank(r.interval))
      && (Strict(q) ==> r.interval == q.requested.value)
    ensures r.Answered? && !r.stitched ==>
      && r.planned == Planned(d.raw.samples, Span(q.from, q.to)) && BestFit(q, r.interval)
      && r.points == GridPoints(d.raw, Width(r.interval), q.from, q.to, BucketCount(q.from, q.to, Width(r.interval)))
      && GridMeaningful(d.raw, Width(r.interval), q.from, q.to, r.points)
    ensures r.Answered? && r.stitched ==>
      && r.interval == Hour6 && Planned(d.raw.samples, Span(q.from, q.to)) > 12_000
      && r.points == Pieces(d, q.from, q.to, Buckets(q.from, q.to)) && Meaningful(d, q.from, q.to, r.points)
      && r.planned == TotalPlanned(d.raw.samples, Spans(d, q.from, q.to, Buckets(q.from, q.to)))
    ensures r.OverBudget? ==>
      && r.recommended.Some? && BucketCount(q.from, q.to, Width(r.recommended.value)) <= 600
      && q.requested.Some? && Rank(q.requested.value) < Rank(r.recommended.value)
      && (BucketCount(q.from, q.to, Width(q.requested.value)) > 600 ==> BestFit(q, r.recommended.value))
    ensures r.OverBudget? <==>
      && q.from < q.to <= q.from + 30 * DAY && q.requested.Some? && !q.allowCoarsen
      && (BucketCount(q.from, q.to, Width(q.requested.value)) > 600
          || (q.requested.value != Hour6 && Planned(d.raw.samples, Span(q.from, q.to)) > 12_000))
    ensures r.RollupNotReady? <==>
      && q.from < q.to <= q.from + 30 * DAY && !r.OverBudget? && Planned(d.raw.samples, Span(q.from, q.to)) > 12_000
      && TotalPlanned(d.raw.samples, Spans(d, q.from, q.to, Buckets(q.from, q.to))) > 12_000
  {
    if q.to <= q.from || q.to - q.from > MAX_RANGE {
      return BadRange;
    }
    var interval, refused := ChooseInterval(q);
    if refused {
      return OverBudget(Some(interval));
    }
    var planned := Probe(d.raw.samples, Span(q.from, q.to));
    if planned <= MAX_RAW {
      var n := BucketCount(q.from, q.to, Width(interval));
      BucketCountIs(q.from, q.to, Width(interval));
      GridPointsFit(d.raw, Width(interval), q.from, q.to, n);
      GridIsMeaningful(d.raw, Width(interval), q.from, q.to);
      return Answered(interval, GridPoints(d.raw, Width(interval), q.from, q.to, n), planned, false);
    }
    SixHoursFit(q.from, q.to);
    if interval != Hour6 && Strict(q) {
      return OverBudget(Some(Hour6));
    }
    var points := Query(d, q.from, q.to);
    if points.None? {
      return RollupNotReady;
    }
    BucketsAreCounted(q.from, q.to);
    PiecesFit(d, q.from, q.to, Buckets(q.from, q.to));
    var total := TotalPlanned(d.raw.samples, Spans(d, q.from, q.to, Buckets(q.from, q.to)));
    return Answered(Hour6, points.value, total, true);
  }
}
