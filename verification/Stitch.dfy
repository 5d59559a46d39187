/**
 The stitched long-range query: complete, closed and confirmed six-hour buckets
 come from the rollup table, everything else from merged raw spans. Times are
 nonnegative nanoseconds; one gauge series stands for each of them.
 */
module Stitch {
  import opened Durations
  import opened Options
  import opened RollupBuckets

  const MAX_RAW := 12_000

  // -------------------------------------------------------------------- data

  /** A stored sample of one gauge; the value is missing when its total is zero. */
  datatype Sample = Sample(time: int, value: Option<real>)

  datatype Gauge = Gauge(sum: real, count: nat, peak: Option<real>)

  const NO_GAUGE := Gauge(0.0, 0, None)

  datatype Point = Point(bucket: int, gauge: Gauge)

  datatype Span = Span(from: int, to: int)

  /** What a raw query reads: the samples, and the buckets that hold rate data. */
  datatype Raw = Raw(samples: seq<Sample>, rated: set<int>)

  /** Raw data, rollup rows, the checkpoint and the start of the open bucket. */
  datatype Data = Data(raw: Raw, rows: map<int, Gauge>, checkpoint: Option<int>, closed: int)

  function Plus(v: Option<real>, g: Gauge): Gauge {
    if v.None? then g
    else Gauge(v.value + g.sum, g.count + 1, Some(if g.peak.Some? && v.value < g.peak.value then g.peak.value else v.value))
  }

  /** Sum, count and maximum of the samples in [lo, hi). */
  function Aggregate(samples: seq<Sample>, lo: int, hi: int): Gauge {
    if samples == [] then NO_GAUGE
    else if lo <= samples[0].time < hi then Plus(samples[0].value, Aggregate(samples[1..], lo, hi))
    else Aggregate(samples[1..], lo, hi)
  }

  function Count(samples: seq<Sample>, lo: int, hi: int): nat {
    if samples == [] then 0
    else (if lo <= samples[0].time < hi then 1 else 0) + Count(samples[1..], lo, hi)
  }

  // -------------------------------------------------------------- raw queries

  /** The point of one bucket clipped to [lo, hi): present when sampled or rated. */
  function PointAt(d: Raw, bucket: int, lo: int, hi: int): seq<Point> {
    if lo < hi && (Count(d.samples, lo, hi) > 0 || bucket in d.rated) then [Point(bucket, Aggregate(d.samples, lo, hi))]
    else []
  }

  /** Points of the buckets from `cursor` on that meet [from, to). */
  function RawFrom(d: Raw, cursor: int, from: int, to: int): seq<Point>
    decreases to - cursor
  {
    if cursor >= to then []
    else PointAt(d, cursor, Max(cursor, from), Min(cursor + BUCKET, to)) + RawFrom(d, cursor + BUCKET, from, to)
  }

  /** A raw query aggregates [from, to) by bucket, in order. */
  function RawPoints(d: Raw, from: int, to: int): seq<Point> { RawFrom(d, BucketStart(from), from, to) }

  // ---------------------------------------------------------------- planning

  predicate Confirmed(d: Data, bucket: int) { d.checkpoint.Some? && bucket + BUCKET <= d.checkpoint.value }

  /** A bucket is served from the rollup when complete in range, closed, confirmed and materialized. */
  predicate Rolled(d: Data, from: int, to: int, bucket: int) {
    from <= bucket && bucket + BUCKET <= to && bucket + BUCKET <= d.closed && Confirmed(d, bucket) && bucket in d.rows
  }

  /** Add a clipped bucket to the spans, joining it to the last one where they touch. */
  function Extend(spans: seq<Span>, from: int, to: int): seq<Span> {
    if from >= to then spans
    else if spans != [] && spans[|spans| - 1].to == from
    then spans[..|spans| - 1] + [Span(spans[|spans| - 1].from, to)]
    else spans + [Span(from, to)]
  }

  function BucketAt(from: int, n: nat): int { BucketStart(from) + n * BUCKET }

  /** The raw spans and the rollup buckets among the first `n` buckets. */
  function Spans(d: Data, from: int, to: int, n: nat): seq<Span> {
    if n == 0 then []
    else
      var b := BucketAt(from, n - 1);
      if Rolled(d, from, to, b) then Spans(d, from, to, n - 1)
      else Extend(Spans(d, from, to, n - 1), Max(b, from), Min(b + BUCKET, to))
  }

  function RolledBuckets(d: Data, from: int, to: int, n: nat): seq<int> {
    if n == 0 then []
    else
      var b := BucketAt(from, n - 1);
      if Rolled(d, from, to, b) then RolledBuckets(d, from, to, n - 1) + [b] else RolledBuckets(d, from, to, n - 1)
  }

  /** How many buckets the planning loop visits. */
  function Buckets(from: int, to: int): nat {
    if to <= BucketStart(from) then 0 else (to - BucketStart(from) + BUCKET - 1) / BUCKET
  }

  /** The reference: in bucket order, the rollup row where it is used and the raw point elsewhere. */
  function Piece(d: Data, from: int, to: int, b: int): seq<Point> {
    if Rolled(d, from, to, b) then [Point(b, RowOf(d, b))] else PointAt(d.raw, b, Max(b, from), Min(b + BUCKET, to))
  }

  function Pieces(d: Data, from: int, to: int, n: nat): seq<Point> {
    if n == 0 then [] else Pieces(d, from, to, n - 1) + Piece(d, from, to, BucketAt(from, n - 1))
  }

  function SpanPoints(d: Raw, spans: seq<Span>): seq<Point> {
    if spans == [] then []
    else SpanPoints(d, spans[..|spans| - 1]) + RawPoints(d, spans[|spans| - 1].from, spans[|spans| - 1].to)
  }

  function RowOf(d: Data, b: int): Gauge { if b in d.rows then d.rows[b] else NO_GAUGE }

  function RowPoints(d: Data, buckets: seq<int>): seq<Point> {
    if buckets == [] then []
    else RowPoints(d, buckets[..|buckets| - 1]) + [Point(buckets[|buckets| - 1], RowOf(d, buckets[|buckets| - 1]))]
  }

  // ------------------------------------------------ raw spans by their buckets

  /** A raw query that is extended by one clipped bucket gains exactly that bucket's point. */
  lemma {:induction false} RawFromSnoc(d: Raw, cursor: int, from: int, b: int, to: int)
    requires cursor % BUCKET == 0 && b % BUCKET == 0 && cursor <= b < to <= b + BUCKET && from < b
    ensures RawFrom(d, cursor, from, to) == RawFrom(d, cursor, from, b) + PointAt(d, b, b, to)
    decreases b - cursor
  {
    if cursor < b {
      assert cursor + BUCKET <= b;
      RawFromSnoc(d, cursor + BUCKET, from, b, to);
    } else {
      assert RawFrom(d, b + BUCKET, from, to) == [];
    }
  }

  /** A span inside one bucket is that bucket's point. */
  lemma RawOne(d: Raw, b: int, from: int, to: int)
    requires 0 <= from && b % BUCKET == 0 && b <= from < to <= b + BUCKET
    ensures BucketStart(from) == b && RawPoints(d, from, to) == PointAt(d, b, from, to)
  {
    assert RawFrom(d, b + BUCKET, from, to) == [];
  }

  /** A span that reaches the bucket and is extended over it. */
  lemma RawMerged(d: Raw, from: int, b: int, to: int)
    requires b % BUCKET == 0 && 0 <= from < b < to <= b + BUCKET
    ensures RawPoints(d, from, to) == RawPoints(d, from, b) + PointAt(d, b, b, to)
  {
    RawFromSnoc(d, BucketStart(from), from, b, to);
  }

  lemma SpanPointsSnoc(d: Raw, spans: seq<Span>, s: Span)
    ensures SpanPoints(d, spans + [s]) == SpanPoints(d, spans) + RawPoints(d, s.from, s.to)
  {
  }

  /** The last span is nonempty and ends by the next bucket. */
  predicate EndsBy(spans: seq<Span>, b: int) {
    spans != [] ==> 0 <= spans[|spans| - 1].from < spans[|spans| - 1].to <= b
  }

  /** The raw points of an extended plan are those of the plan and the new bucket's. */
  lemma ExtendPoints(d: Raw, spans: seq<Span>, b: int, lo: int, hi: int)
    requires b % BUCKET == 0 && b <= lo < hi <= b + BUCKET && 0 <= lo && EndsBy(spans, b)
    ensures SpanPoints(d, Extend(spans, lo, hi)) == SpanPoints(d, spans) + PointAt(d, b, lo, hi)
  {
    if spans != [] && spans[|spans| - 1].to == lo {
      var init, last := spans[..|spans| - 1], spans[|spans| - 1];
      SpanPointsSnoc(d, init, Span(last.from, hi));
      RawMerged(d, last.from, b, hi);
    } else {
      SpanPointsSnoc(d, spans, Span(lo, hi));
      RawOne(d, b, lo, hi);
    }
  }

  // ----------------------------------------------------------- the partition

  lemma BucketAtAligned(from: int, n: nat)
    requires 0 <= from
    ensures BucketAt(from, n) % BUCKET == 0 && 0 <= BucketAt(from, 0) <= from < BucketAt(from, 1)
    ensures 0 <= BucketAt(from, n)
  {
  }

  lemma {:induction false} SpansEnd(d: Data, from: int, to: int, n: nat)
    requires 0 <= from < to
    ensures EndsBy(Spans(d, from, to, n), BucketAt(from, n))
  {
    BucketAtAligned(from, n);
    if n > 0 {
      SpansEnd(d, from, to, n - 1);
    }
  }

  lemma RolledJoins(d: Data, from: int, to: int, n: nat)
    requires Rolled(d, from, to, BucketAt(from, n))
    ensures RowPoints(d, RolledBuckets(d, from, to, n + 1))
      == RowPoints(d, RolledBuckets(d, from, to, n)) + Piece(d, from, to, BucketAt(from, n))
    ensures Spans(d, from, to, n + 1) == Spans(d, from, to, n)
  {
  }

  lemma BucketInRange(from: int, to: int, n: nat)
    requires 0 <= from && n < Buckets(from, to)
    ensures BucketAt(from, n) < to && from < BucketAt(from, n) + BUCKET
  {
  }

  lemma RawJoins(d: Data, from: int, to: int, n: nat)
    requires 0 <= from < to && n < Buckets(from, to) && !Rolled(d, from, to, BucketAt(from, n))
    ensures SpanPoints(d.raw, Spans(d, from, to, n + 1))
      == SpanPoints(d.raw, Spans(d, from, to, n)) + Piece(d, from, to, BucketAt(from, n))
    ensures RolledBuckets(d, from, to, n + 1) == RolledBuckets(d, from, to, n)
  {
    var b := BucketAt(from, n);
    BucketAtAligned(from, n);
    BucketInRange(from, to, n);
    SpansEnd(d, from, to, n);
    ExtendPoints(d.raw, Spans(d, from, to, n), b, Max(b, from), Min(b + BUCKET, to));
  }

  /** The rollup points and the raw points are the pieces, in some order. */
  ghost predicate Holds(rows: seq<Point>, raws: seq<Point>, pieces: seq<Point>) {
    multiset(rows) + multiset(raws) == multiset(pieces)
  }

  lemma PlanStep(d: Data, from: int, to: int, n: nat, rows: seq<Point>, raws: seq<Point>)
    requires 0 <= from < to && n < Buckets(from, to)
    requires rows == RowPoints(d, RolledBuckets(d, from, to, n)) && raws == SpanPoints(d.raw, Spans(d, from, to, n))
    ensures RowPoints(d, RolledBuckets(d, from, to, n + 1))
      == rows + if Rolled(d, from, to, BucketAt(from, n)) then Piece(d, from, to, BucketAt(from, n)) else []
    ensures SpanPoints(d.raw, Spans(d, from, to, n + 1))
      == raws + if Rolled(d, from, to, BucketAt(from, n)) then [] else Piece(d, from, to, BucketAt(from, n))
  {
    if Rolled(d, from, to, BucketAt(from, n)) {
      RolledJoins(d, from, to, n);
    } else {
      RawJoins(d, from, to, n);
    }
  }

  ghost predicate PlanHolds(d: Data, from: int, to: int, n: nat) {
    Holds(RowPoints(d, RolledBuckets(d, from, to, n)), SpanPoints(d.raw, Spans(d, from, to, n)), Pieces(d, from, to, n))
  }

  lemma HoldsNext(rows: seq<Point>, raws: seq<Point>, pieces: seq<Point>, piece: seq<Point>, rolled: bool)
    requires Holds(rows, raws, pieces)
    ensures Holds(rows + if rolled then piece else [], raws + if rolled then [] else piece, pieces + piece)
  {
  }

  lemma PlanHoldsNext(d: Data, from: int, to: int, n: nat)
    requires 0 <= from < to && n < Buckets(from, to) && PlanHolds(d, from, to, n)
    ensures PlanHolds(d, from, to, n + 1)
  {
    var rows, raws := RowPoints(d, RolledBuckets(d, from, to, n)), SpanPoints(d.raw, Spans(d, from, to, n));
    var b := BucketAt(from, n);
    HoldsNext(rows, raws, Pieces(d, from, to, n), Piece(d, from, to, b), Rolled(d, from, to, b));
    PlanStep(d, from, to, n, rows, raws);
  }

  lemma PlanHoldsNone(d: Data, from: int, to: int)
    ensures PlanHolds(d, from, to, 0)
  {
  }

  /** Rollup buckets and raw spans together hold exactly the reference pieces. */
  lemma PlanHoldsPieces(d: Data, from: int, to: int, n: nat)
    requires 0 <= from < to && n <= Buckets(from, to)
    ensures PlanHolds(d, from, to, n)
  {
    var k := 0;
    PlanHoldsNone(d, from, to);
    while k < n
      invariant k <= n && PlanHolds(d, from, to, k)
    {
      PlanHoldsNext(d, from, to, k);
      k := k + 1;
    }
  }

  // ----------------------------------------------- spans partition the range

  predicate InSpans(spans: seq<Span>, t: int) {
    spans != [] && (spans[|spans| - 1].from <= t < spans[|spans| - 1].to || InSpans(spans[..|spans| - 1], t))
  }

  /** Nonempty spans in order with a gap between neighbours. */
  predicate Separated(spans: seq<Span>) {
    spans != [] ==>
      && spans[|spans| - 1].from < spans[|spans| - 1].to && Separated(spans[..|spans| - 1])
      && (|spans| > 1 ==> spans[|spans| - 2].to < spans[|spans| - 1].from)
  }

  lemma ExtendCovers(spans: seq<Span>, b: int, lo: int, hi: int, t: int)
    requires Separated(spans) && EndsBy(spans, b) && b <= lo < hi
    ensures Separated(Extend(spans, lo, hi))
    ensures InSpans(Extend(spans, lo, hi), t) <==> InSpans(spans, t) || lo <= t < hi
  {
  }

  lemma BucketOf(t: int, b: int)
    requires b % BUCKET == 0 && b <= t < b + BUCKET
    ensures BucketStart(t) == b
  {
  }

  /** The instant is in range, before `end` and outside the rollup. */
  predicate RawInstant(d: Data, from: int, to: int, end: int, t: int) {
    from <= t < Min(end, to) && !Rolled(d, from, to, BucketStart(t))
  }

  lemma InstantStep(d: Data, from: int, to: int, b: int, t: int)
    requires b % BUCKET == 0 && from < b + BUCKET && b < to
    ensures RawInstant(d, from, to, b + BUCKET, t)
      <==> RawInstant(d, from, to, b, t) || (!Rolled(d, from, to, b) && Max(b, from) <= t < Min(b + BUCKET, to))
  {
  }

  /** The spans of the first `n` buckets hold exactly their instants in range outside the rollup. */
  lemma {:induction false} SpansCover(d: Data, from: int, to: int, n: nat, t: int)
    requires 0 <= from < to && n <= Buckets(from, to)
    ensures Separated(Spans(d, from, to, n))
    ensures InSpans(Spans(d, from, to, n), t) <==> RawInstant(d, from, to, BucketAt(from, n), t)
  {
    if n == 0 {
      BucketAtAligned(from, 0);
    } else {
      SpansCover(d, from, to, n - 1, t);
      SpansStep(d, from, to, n - 1, Spans(d, from, to, n - 1), t);
    }
  }

  lemma SpansStep(d: Data, from: int, to: int, n: nat, spans: seq<Span>, t: int)
    requires 0 <= from < to && n < Buckets(from, to) && spans == Spans(d, from, to, n) && Separated(spans)
    requires InSpans(spans, t) <==> RawInstant(d, from, to, BucketAt(from, n), t)
    ensures Separated(Spans(d, from, to, n + 1))
    ensures InSpans(Spans(d, from, to, n + 1), t) <==> RawInstant(d, from, to, BucketAt(from, n + 1), t)
  {
    var b := BucketAt(from, n);
    BucketAtAligned(from, n);
    BucketInRange(from, to, n);
    SpansEnd(d, from, to, n);
    InstantStep(d, from, to, b, t);
    if !Rolled(d, from, to, b) {
      ExtendCovers(spans, b, Max(b, from), Min(b + BUCKET, to), t);
    }
  }

  lemma {:induction false} RolledBucketsAre(d: Data, from: int, to: int, n: nat, k: nat)
    requires k < n
    ensures BucketAt(from, k) in RolledBuckets(d, from, to, n) <==> Rolled(d, from, to, BucketAt(from, k))
  {
    if k < n - 1 {
      RolledBucketsAre(d, from, to, n - 1, k);
    } else {
      RolledBelow(d, from, to, n - 1);
    }
  }

  lemma {:induction false} RolledBelow(d: Data, from: int, to: int, n: nat)
    ensures forall b | b in RolledBuckets(d, from, to, n) :: b < BucketAt(from, n) && Rolled(d, from, to, b)
  {
    if n > 0 {
      RolledBelow(d, from, to, n - 1);
    }
  }

  lemma BucketNumber(from: int, to: int, t: int) returns (k: nat)
    requires 0 <= from <= t < to
    ensures k < Buckets(from, to) && BucketAt(from, k) == BucketStart(t)
  {
    k := (t - BucketStart(from)) / BUCKET;
    BucketAtAligned(from, k);
    BucketOf(t, BucketAt(from, k));
  }

  /** Every instant of the range is in a raw span or in a rollup bucket, never in both; nothing else is. */
  lemma PlanPartitions(d: Data, from: int, to: int, t: int)
    requires 0 <= from < to
    ensures Separated(Spans(d, from, to, Buckets(from, to)))
    ensures InSpans(Spans(d, from, to, Buckets(from, to)), t)
      <==> from <= t < to && BucketStart(t) !in RolledBuckets(d, from, to, Buckets(from, to))
    ensures BucketStart(t) in RolledBuckets(d, from, to, Buckets(from, to)) ==> from <= t < to
  {
    var n := Buckets(from, to);
    SpansCover(d, from, to, n, t);
    assert to <= BucketAt(from, n);
    RolledBelow(d, from, to, n);
    if from <= t < to {
      var k := BucketNumber(from, to, t);
      RolledBucketsAre(d, from, to, n, k);
    }
  }

  // ------------------------------------------------------------ sorted points

  predicate AllBelow(points: seq<Point>, b: int) { forall p | p in points :: p.bucket < b }

  /** Strictly increasing buckets: no bucket appears in two points. */
  predicate Ascending(points: seq<Point>) {
    points != [] ==> AllBelow(points[..|points| - 1], points[|points| - 1].bucket) && Ascending(points[..|points| - 1])
  }

  lemma AscendAppend(points: seq<Point>, piece: seq<Point>, at: int)
    requires Ascending(points) && AllBelow(points, at) && |piece| <= 1 && (piece != [] ==> piece[0].bucket == at)
    ensures Ascending(points + piece) && AllBelow(points + piece, at + BUCKET)
  {
    if piece == [] {
      assert points + piece == points;
    } else {
      assert (points + piece)[..|points|] == points;
    }
  }

  lemma {:induction false} PiecesAscend(d: Data, from: int, to: int, n: nat)
    ensures Ascending(Pieces(d, from, to, n)) && AllBelow(Pieces(d, from, to, n), BucketAt(from, n))
  {
    if n > 0 {
      PiecesAscend(d, from, to, n - 1);
      AscendAppend(Pieces(d, from, to, n - 1), Piece(d, from, to, BucketAt(from, n - 1)), BucketAt(from, n - 1));
    }
  }

  predicate AtMost(points: seq<Point>, b: int) { forall p | p in points :: p.bucket <= b }

  predicate SortedPoints(points: seq<Point>) {
    points != [] ==> AtMost(points, points[|points| - 1].bucket) && SortedPoints(points[..|points| - 1])
  }

  /** The sorted arrangement of points with distinct buckets is unique. */
  lemma {:induction false} SortedIsAscending(xs: seq<Point>, ys: seq<Point>)
    requires multiset(xs) == multiset(ys) && SortedPoints(xs) && Ascending(ys)
    ensures xs == ys
  {
    assert |multiset(xs)| == |xs| && |multiset(ys)| == |ys|;
    if ys != [] {
      var n := |ys| - 1;
      LastsAgree(xs, ys);
      WithoutLast(xs);
      WithoutLast(ys);
      SortedIsAscending(xs[..n], ys[..n]);
    }
  }

  lemma WithoutLast(xs: seq<Point>)
    requires xs != []
    ensures multiset(xs[..|xs| - 1]) == multiset(xs) - multiset{xs[|xs| - 1]}
    ensures xs == xs[..|xs| - 1] + [xs[|xs| - 1]]
  {
    assert xs == xs[..|xs| - 1] + [xs[|xs| - 1]];
  }

  lemma LastsAgree(xs: seq<Point>, ys: seq<Point>)
    requires multiset(xs) == multiset(ys) && SortedPoints(xs) && Ascending(ys) && |xs| == |ys| > 0
    ensures xs[|xs| - 1] == ys[|ys| - 1]
  {
    var x, y := xs[|xs| - 1], ys[|ys| - 1];
    assert x in multiset(xs) && y in multiset(ys);
    assert x in ys && y in xs;
    assert ys == ys[..|ys| - 1] + [y];
  }

  // ---------------------------------------------------- refinement of raw data

  /** The gauge reported for a bucket; a bucket without a point has none. */
  function GaugeIn(points: seq<Point>, b: int): Gauge {
    if points == [] then NO_GAUGE
    else if points[|points| - 1].bucket == b then points[|points| - 1].gauge
    else GaugeIn(points[..|points| - 1], b)
  }

  /** Every rollup row that the query uses equals the aggregate of its bucket. */
  ghost predicate RowsMatch(d: Data, from: int, to: int) {
    forall b | b in d.rows && Rolled(d, from, to, b) :: d.rows[b] == Aggregate(d.raw.samples, b, b + BUCKET)
  }

  lemma {:induction false} UncountedIsEmpty(samples: seq<Sample>, lo: int, hi: int)
    requires Count(samples, lo, hi) == 0
    ensures Aggregate(samples, lo, hi) == NO_GAUGE
  {
    if samples != [] {
      UncountedIsEmpty(samples[1..], lo, hi);
    }
  }

  lemma {:induction false} BelowHasNone(points: seq<Point>, b: int)
    requires AllBelow(points, b)
    ensures GaugeIn(points, b) == NO_GAUGE
  {
    if points != [] {
      BelowHasNone(points[..|points| - 1], b);
    }
  }

  /** At most one point, of bucket `at`, that reports the gauge. */
  predicate Reports(piece: seq<Point>, at: int, gauge: Gauge) {
    if piece == [] then gauge == NO_GAUGE else piece == [Point(at, gauge)]
  }

  /** A piece reports the aggregate of its clipped bucket. */
  lemma PieceIsAggregate(d: Data, from: int, to: int, b: int)
    requires RowsMatch(d, from, to) && Max(b, from) < Min(b + BUCKET, to)
    ensures Reports(Piece(d, from, to, b), b, Aggregate(d.raw.samples, Max(b, from), Min(b + BUCKET, to)))
  {
    if Count(d.raw.samples, Max(b, from), Min(b + BUCKET, to)) == 0 {
      UncountedIsEmpty(d.raw.samples, Max(b, from), Min(b + BUCKET, to));
    }
  }

  lemma GaugeAppend(points: seq<Point>, piece: seq<Point>, at: int, gauge: Gauge, b: int)
    requires AllBelow(points, at) && Reports(piece, at, gauge)
    ensures GaugeIn(points + piece, b) == if b == at then gauge else GaugeIn(points, b)
  {
    if b == at {
      BelowHasNone(points, b);
    }
    if piece == [] {
      assert points + piece == points;
    } else {
      assert (points + piece)[..|points|] == points;
    }
  }

  /** What the reference reports of a bucket, one bucket further. */
  lemma GaugeStep(d: Data, from: int, to: int, n: nat, b: int)
    requires 0 <= from < to && n < Buckets(from, to) && RowsMatch(d, from, to)
    ensures var at := BucketAt(from, n);
      GaugeIn(Pieces(d, from, to, n + 1), b)
        == if b == at then Aggregate(d.raw.samples, Max(at, from), Min(at + BUCKET, to)) else GaugeIn(Pieces(d, from, to, n), b)
  {
    var at := BucketAt(from, n);
    BucketInRange(from, to, n);
    PiecesAscend(d, from, to, n);
    PieceIsAggregate(d, from, to, at);
    GaugeAppend(Pieces(d, from, to, n), Piece(d, from, to, at), at, Aggregate(d.raw.samples, Max(at, from), Min(at + BUCKET, to)), b);
  }

  /** The aggregate of a bucket's part of the range, for the first `n` buckets. */
  function Direct(samples: seq<Sample>, from: int, to: int, n: nat, b: int): Gauge {
    if n == 0 then NO_GAUGE
    else if b == BucketAt(from, n - 1) then Aggregate(samples, Max(b, from), Min(b + BUCKET, to))
    else Direct(samples, from, to, n - 1, b)
  }

  /** The reference reports direct aggregates, whatever rows and rate data the query uses. */
  lemma {:induction false} GaugesAreDirect(d: Data, from: int, to: int, n: nat, b: int)
    requires 0 <= from < to && n <= Buckets(from, to) && RowsMatch(d, from, to)
    ensures GaugeIn(Pieces(d, from, to, n), b) == Direct(d.raw.samples, from, to, n, b)
  {
    if n > 0 {
      GaugesAreDirect(d, from, to, n - 1, b);
      GaugeStep(d, from, to, n - 1, b);
    }
  }

  lemma RawStep(d: Data, from: int, to: int, n: nat)
    requires 0 <= from < to && 0 < n < Buckets(from, to) && d.rows == map[]
    ensures RawPoints(d.raw, from, Min(BucketAt(from, n + 1), to))
      == RawPoints(d.raw, from, BucketAt(from, n)) + Piece(d, from, to, BucketAt(from, n))
  {
    var b := BucketAt(from, n);
    BucketAtAligned(from, n);
    BucketInRange(from, to, n);
    RawMerged(d.raw, from, b, Min(b + BUCKET, to));
  }

  ghost predicate RawUpTo(d: Data, from: int, to: int, n: nat) {
    RawPoints(d.raw, from, Min(BucketAt(from, n), to)) == Pieces(d, from, to, n)
  }

  lemma RawFirst(d: Data, from: int, to: int)
    requires 0 <= from < to && d.rows == map[]
    ensures RawUpTo(d, from, to, 1)
  {
    BucketAtAligned(from, 0);
    RawOne(d.raw, BucketAt(from, 0), from, Min(BucketAt(from, 1), to));
    assert Pieces(d, from, to, 0) == [];
  }

  lemma RawNext(d: Data, from: int, to: int, n: nat)
    requires 0 <= from < to && 0 < n < Buckets(from, to) && d.rows == map[] && RawUpTo(d, from, to, n)
    ensures RawUpTo(d, from, to, n + 1)
  {
    RawStep(d, from, to, n);
    BucketInRange(from, to, n);
  }

  /** Without rollup rows the reference is the direct raw query. */
  lemma RawIsPieces(d: Data, from: int, to: int)
    requires 0 <= from < to && d.rows == map[]
    ensures RawPoints(d.raw, from, to) == Pieces(d, from, to, Buckets(from, to))
  {
    var n, k := Buckets(from, to), 1;
    RawFirst(d, from, to);
    while k < n
      invariant 1 <= k <= n && RawUpTo(d, from, to, k)
    {
      RawNext(d, from, to, k);
      k := k + 1;
    }
    assert to <= BucketAt(from, n);
  }

  /** The stitched query reports, bucket for bucket, the gauges of the direct raw query. */
  lemma StitchRefinesRaw(d: Data, rated: set<int>, from: int, to: int, b: int)
    requires 0 <= from < to && RowsMatch(d, from, to)
    ensures GaugeIn(Pieces(d, from, to, Buckets(from, to)), b)
      == GaugeIn(RawPoints(Raw(d.raw.samples, rated), from, to), b)
  {
    var n, direct := Buckets(from, to), Data(Raw(d.raw.samples, rated), map[], d.checkpoint, d.closed);
    GaugesAreDirect(d, from, to, n, b);
    GaugesAreDirect(direct, from, to, n, b);
    RawIsPieces(direct, from, to);
  }
}
