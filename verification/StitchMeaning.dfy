/**
 What the reported numbers mean, said of the samples themselves: the count, total
 and maximum of the measured values in a range, and which samples a point is about.
 */
module StitchMeaning {
  import opened Durations
  import opened Options
  import opened RollupBuckets
  import opened Stitch

  // ------------------------------------------------------------------ gauges

  predicate Measured(s: Sample, lo: int, hi: int) { lo <= s.time < hi && s.value.Some? }

  /** The positions below `n` of the samples in [lo, hi) that have a value. */
  ghost function MeasuredAt(samples: seq<Sample>, lo: int, hi: int, n: nat): set<nat>
    requires n <= |samples|
  {
    set i | 0 <= i < n && Measured(samples[i], lo, hi)
  }

  ghost predicate Valued(samples: seq<Sample>, at: set<nat>) {
    forall i | i in at :: i < |samples| && samples[i].value.Some?
  }

  /** The values at these positions, added up in no particular order. */
  ghost function Total(samples: seq<Sample>, at: set<nat>): real
    requires Valued(samples, at)
  {
    if at == {} then 0.0
    else
      var i :| i in at;
      samples[i].value.value + Total(samples, at - {i})
  }

  ghost predicate Greatest(samples: seq<Sample>, at: set<nat>, peak: real)
    requires Valued(samples, at)
  {
    && (exists i | i in at :: samples[i].value.value == peak)
    && (forall i | i in at :: samples[i].value.value <= peak)
  }

  /** The gauge is the total, the number and the maximum of the values at these positions. */
  ghost predicate Describes(g: Gauge, samples: seq<Sample>, at: set<nat>)
    requires Valued(samples, at)
  {
    && g.count == |at| && g.sum == Total(samples, at)
    && (g.peak.Some? <==> at != {}) && (g.peak.Some? ==> Greatest(samples, at, g.peak.value))
  }

  ghost predicate Summarizes(g: Gauge, samples: seq<Sample>, lo: int, hi: int) {
    Describes(g, samples, MeasuredAt(samples, lo, hi, |samples|))
  }

  /** Any position may be added last. */
  lemma {:induction false} TotalWith(samples: seq<Sample>, at: set<nat>, i: nat)
    requires Valued(samples, at) && i in at
    ensures Total(samples, at) == samples[i].value.value + Total(samples, at - {i})
  {
    var j :| j in at && Total(samples, at) == samples[j].value.value + Total(samples, at - {j});
    if i != j {
      TotalWith(samples, at - {j}, i);
      TotalWith(samples, at - {i}, j);
      assert at - {i} - {j} == at - {j} - {i};
    }
  }

  lemma DescribesOneMore(g: Gauge, g': Gauge, samples: seq<Sample>, at: set<nat>, i: nat)
    requires Valued(samples, at) && i !in at && i < |samples| && samples[i].value.Some?
    requires Describes(g, samples, at)
    requires g'.sum == g.sum + samples[i].value.value && g'.count == g.count + 1 && g'.peak.Some?
    requires g'.peak.value == if g.peak.Some? && samples[i].value.value < g.peak.value then g.peak.value else samples[i].value.value
    ensures Describes(g', samples, at + {i})
  {
    TotalWith(samples, at + {i}, i);
    assert at + {i} - {i} == at;
    assert i in at + {i};
    if g.peak.Some? {
      var j :| j in at && samples[j].value.value == g.peak.value;
      assert j in at + {i};
    }
  }

  /** One more sample at the end changes an aggregate as one more at the front does. */
  lemma {:induction false} AggregateSnoc(samples: seq<Sample>, s: Sample, lo: int, hi: int)
    ensures var g, g' := Aggregate(samples, lo, hi), Aggregate(samples + [s], lo, hi);
      if Measured(s, lo, hi)
      then g'.sum == g.sum + s.value.value && g'.count == g.count + 1 && g'.peak.Some?
        && g'.peak.value == if g.peak.Some? && s.value.value < g.peak.value then g.peak.value else s.value.value
      else g' == g
  {
    if samples == [] {
      assert samples + [s] == [s] && [s][1..] == [];
    } else {
      AggregateSnoc(samples[1..], s, lo, hi);
      assert (samples + [s])[1..] == samples[1..] + [s];
    }
  }

  ghost predicate SummarizesPrefix(samples: seq<Sample>, lo: int, hi: int, n: nat)
    requires n <= |samples|
  {
    Describes(Aggregate(samples[..n], lo, hi), samples, MeasuredAt(samples, lo, hi, n))
  }

  lemma MeasuredNext(samples: seq<Sample>, lo: int, hi: int, n: nat)
    requires n < |samples|
    ensures MeasuredAt(samples, lo, hi, n + 1)
      == MeasuredAt(samples, lo, hi, n) + if Measured(samples[n], lo, hi) then {n} else {}
  {
  }

  lemma SummarizesNext(samples: seq<Sample>, lo: int, hi: int, n: nat)
    requires n < |samples| && SummarizesPrefix(samples, lo, hi, n)
    ensures SummarizesPrefix(samples, lo, hi, n + 1)
  {
    var g, at := Aggregate(samples[..n], lo, hi), MeasuredAt(samples, lo, hi, n);
    assert samples[..n + 1] == samples[..n] + [samples[n]];
    AggregateSnoc(samples[..n], samples[n], lo, hi);
    MeasuredNext(samples, lo, hi, n);
    if Measured(samples[n], lo, hi) {
      DescribesOneMore(g, Aggregate(samples[..n + 1], lo, hi), samples, at, n);
    } else {
      assert at + {} == at;
    }
  }

  /** An aggregate is the number, total and maximum of the values measured in its range. */
  lemma AggregateSummarizes(samples: seq<Sample>, lo: int, hi: int)
    ensures Summarizes(Aggregate(samples, lo, hi), samples, lo, hi)
  {
    var k := 0;
    assert samples[..0] == [] && MeasuredAt(samples, lo, hi, 0) == {};
    while k < |samples|
      invariant k <= |samples| && SummarizesPrefix(samples, lo, hi, k)
    {
      SummarizesNext(samples, lo, hi, k);
      k := k + 1;
    }
    assert samples[..k] == samples;
  }

  // ------------------------------------------------------------------ counts

  ghost function SampledAt(samples: seq<Sample>, lo: int, hi: int, n: nat): set<nat>
    requires n <= |samples|
  {
    set i | 0 <= i < n && lo <= samples[i].time < hi
  }

  lemma SampledNext(samples: seq<Sample>, lo: int, hi: int, n: nat)
    requires n < |samples|
    ensures |SampledAt(samples, lo, hi, n + 1)| == |SampledAt(samples, lo, hi, n)| + if lo <= samples[n].time < hi then 1 else 0
  {
    var at := SampledAt(samples, lo, hi, n);
    assert SampledAt(samples, lo, hi, n + 1) == if lo <= samples[n].time < hi then at + {n} else at;
  }

  /** The row count of a range is the number of its samples, with or without a value. */
  lemma {:induction false} CountIsSize(samples: seq<Sample>, lo: int, hi: int, n: nat)
    requires n <= |samples|
    ensures Count(samples[..n], lo, hi) == |SampledAt(samples, lo, hi, n)|
  {
    if n == 0 {
      assert SampledAt(samples, lo, hi, 0) == {};
    } else {
      CountIsSize(samples, lo, hi, n - 1);
      CountSnoc(samples[..n - 1], samples[n - 1], lo, hi);
      SampledNext(samples, lo, hi, n - 1);
      assert samples[..n] == samples[..n - 1] + [samples[n - 1]];
    }
  }

  lemma {:induction false} CountSnoc(samples: seq<Sample>, s: Sample, lo: int, hi: int)
    ensures Count(samples + [s], lo, hi) == Count(samples, lo, hi) + if lo <= s.time < hi then 1 else 0
  {
    if samples == [] {
      assert samples + [s] == [s] && [s][1..] == [];
    } else {
      CountSnoc(samples[1..], s, lo, hi);
      assert (samples + [s])[1..] == samples[1..] + [s];
    }
  }

  lemma {:induction false} SampleCounts(samples: seq<Sample>, lo: int, hi: int, i: nat)
    requires i < |samples| && lo <= samples[i].time < hi
    ensures Count(samples, lo, hi) > 0
  {
    if i > 0 {
      SampleCounts(samples[1..], lo, hi, i - 1);
    }
  }

  ghost predicate SampledIn(samples: seq<Sample>, lo: int, hi: int) {
    exists i | 0 <= i < |samples| :: lo <= samples[i].time < hi
  }

  lemma {:induction false} CountedIsSampled(samples: seq<Sample>, lo: int, hi: int)
    ensures Count(samples, lo, hi) > 0 <==> SampledIn(samples, lo, hi)
  {
    if samples != [] {
      CountedIsSampled(samples[1..], lo, hi);
      assert forall i | 1 <= i < |samples| :: samples[i] == samples[1..][i - 1];
      assert forall i | 0 <= i < |samples| - 1 :: samples[1..][i] == samples[i + 1];
    }
  }

  // ------------------------------------------------------------------ points

  /** A bucket of this width has a nonempty part in [from, to), and the gauge is about that part. */
  ghost predicate RawPoint(samples: seq<Sample>, width: int, from: int, to: int, p: Point) {
    Clipped(p.bucket, width, from, to) && Summarizes(p.gauge, samples, Max(p.bucket, from), Min(p.bucket + width, to))
  }

  predicate Clipped(b: int, width: int, from: int, to: int) {
    width > 0 && b % width == 0 && Max(b, from) < Min(b + width, to)
  }

  predicate HasPoint(points: seq<Point>, b: int) { exists p | p in points :: p.bucket == b }

  /** A stored row stands for a bucket that is complete in range, over, materialized and confirmed; raw samples for any other. */
  ghost predicate StitchedPoint(d: Data, from: int, to: int, p: Point) {
    var b := p.bucket;
    if from <= b && b + BUCKET <= to && b + BUCKET <= d.closed
       && d.checkpoint.Some? && b + BUCKET <= d.checkpoint.value && b in d.rows
    then b % BUCKET == 0 && p.gauge == d.rows[b]
    else
      && RawPoint(d.raw.samples, BUCKET, from, to, p)
      && (b in d.raw.rated || SampledIn(d.raw.samples, Max(b, from), Min(b + BUCKET, to)))
  }

  /** Every point means what it should, and every stored sample of the range is in the bucket of one. */
  ghost predicate Meaningful(d: Data, from: int, to: int, points: seq<Point>) {
    && (forall p | p in points :: StitchedPoint(d, from, to, p))
    && (forall i | 0 <= i < |d.raw.samples| && from <= d.raw.samples[i].time < to ::
          HasPoint(points, BucketStart(d.raw.samples[i].time)))
    && (forall b | b in d.raw.rated && Clipped(b, BUCKET, from, to) :: HasPoint(points, b))
  }

  lemma PieceMeans(d: Data, from: int, to: int, n: nat, p: Point)
    requires 0 <= from < to && n < Buckets(from, to) && p in Piece(d, from, to, BucketAt(from, n))
    ensures p.bucket == BucketAt(from, n) && StitchedPoint(d, from, to, p)
  {
    var b := BucketAt(from, n);
    BucketAtAligned(from, n);
    AggregateSummarizes(d.raw.samples, Max(b, from), Min(b + BUCKET, to));
    CountedIsSampled(d.raw.samples, Max(b, from), Min(b + BUCKET, to));
  }

  lemma {:induction false} PiecesMean(d: Data, from: int, to: int, n: nat, p: Point)
    requires 0 <= from < to && n <= Buckets(from, to) && p in Pieces(d, from, to, n)
    ensures StitchedPoint(d, from, to, p)
  {
    if p in Pieces(d, from, to, n - 1) {
      PiecesMean(d, from, to, n - 1, p);
    } else {
      PieceMeans(d, from, to, n - 1, p);
    }
  }

  lemma {:induction false} PieceIsIn(d: Data, from: int, to: int, n: nat, k: nat, p: Point)
    requires k < n && p in Piece(d, from, to, BucketAt(from, k))
    ensures p in Pieces(d, from, to, n)
  {
    if k < n - 1 {
      PieceIsIn(d, from, to, n - 1, k, p);
    }
  }

  lemma SampleHasPoint(d: Data, from: int, to: int, i: nat)
    requires 0 <= from < to && i < |d.raw.samples| && from <= d.raw.samples[i].time < to
    ensures HasPoint(Pieces(d, from, to, Buckets(from, to)), BucketStart(d.raw.samples[i].time))
  {
    var t := d.raw.samples[i].time;
    var k := BucketNumber(from, to, t);
    var b := BucketAt(from, k);
    SampleCounts(d.raw.samples, Max(b, from), Min(b + BUCKET, to), i);
    var p := Piece(d, from, to, b)[0];
    PieceIsIn(d, from, to, Buckets(from, to), k, p);
  }

  lemma RatedHasPoint(d: Data, from: int, to: int, b: int)
    requires 0 <= from < to && b in d.raw.rated && Clipped(b, BUCKET, from, to)
    ensures HasPoint(Pieces(d, from, to, Buckets(from, to)), b)
  {
    var t := Max(b, from);
    BucketOf(t, b);
    var k := BucketNumber(from, to, t);
    var p := Piece(d, from, to, b)[0];
    PieceIsIn(d, from, to, Buckets(from, to), k, p);
  }

  /** The stitched reference reports every sample of the range, in points that mean what they should. */
  lemma PiecesAreMeaningful(d: Data, from: int, to: int)
    requires 0 <= from < to
    ensures Meaningful(d, from, to, Pieces(d, from, to, Buckets(from, to)))
  {
    var points := Pieces(d, from, to, Buckets(from, to));
    forall p | p in points
      ensures StitchedPoint(d, from, to, p)
    {
      PiecesMean(d, from, to, Buckets(from, to), p);
    }
    forall i | 0 <= i < |d.raw.samples| && from <= d.raw.samples[i].time < to
      ensures HasPoint(points, BucketStart(d.raw.samples[i].time))
    {
      SampleHasPoint(d, from, to, i);
    }
    forall b | b in d.raw.rated && Clipped(b, BUCKET, from, to)
      ensures HasPoint(points, b)
    {
      RatedHasPoint(d, from, to, b);
    }
  }

  /** Where the rows match their buckets, rollup and raw points alike describe the stored samples. */
  lemma MatchedPoint(d: Data, from: int, to: int, p: Point)
    requires RowsMatch(d, from, to) && StitchedPoint(d, from, to, p)
    ensures RawPoint(d.raw.samples, BUCKET, from, to, p)
  {
    if Rolled(d, from, to, p.bucket) {
      AggregateSummarizes(d.raw.samples, p.bucket, p.bucket + BUCKET);
    }
  }
}
