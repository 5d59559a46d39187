/** The stitched query as it runs: plan, read rollup rows, read raw spans within budget, sort. */
module StitchQuery {
  import opened Durations
  import opened Options
  import opened RollupBuckets
  import opened Stitch
  import opened StitchMeaning

  /** The buckets from `from` on that the checkpoint proves materialized. */
  method ConfirmedBuckets(d: Data, from: int, to: int) returns (confirmed: set<int>)
    requires 0 <= from
    ensures forall n: nat | n < Buckets(from, to) :: BucketAt(from, n) in confirmed <==> Confirmed(d, BucketAt(from, n))
  {
    confirmed := {};
    if d.checkpoint.None? {
      return;
    }
    var cursor := BucketStart(from);
    ghost var k: nat := 0;
    while cursor < to
      invariant cursor == BucketAt(from, k) && k <= Buckets(from, to)
      invariant forall b | b in confirmed :: cursor > b
      invariant forall n: nat | n < k :: BucketAt(from, n) in confirmed <==> Confirmed(d, BucketAt(from, n))
      decreases (to - cursor)
    {
      if cursor + BUCKET <= d.checkpoint.value {
        confirmed := confirmed + {cursor};
      }
      cursor := cursor + BUCKET;
      k := k + 1;
    }
  }

  lemma BucketsLeft(from: int, to: int, k: nat)
    requires 0 <= from && k <= Buckets(from, to)
    ensures BucketAt(from, k) < to <==> k < Buckets(from, to)
  {
  }

  ghost predicate PlannedUpTo(d: Data, from: int, to: int, n: nat, rolled: seq<int>, spans: seq<Span>) {
    rolled == RolledBuckets(d, from, to, n) && spans == Spans(d, from, to, n)
  }

  /** One bucket goes to the rollup, or its part of the range to the raw spans. */
  method PlaceBucket(d: Data, from: int, to: int, bucket: int, confirmed: bool, ghost n: nat,
                     rolled: seq<int>, spans: seq<Span>)
    returns (rolled': seq<int>, spans': seq<Span>)
    requires confirmed == Confirmed(d, bucket) && bucket == BucketAt(from, n) && PlannedUpTo(d, from, to, n, rolled, spans)
    ensures PlannedUpTo(d, from, to, n + 1, rolled', spans')
  {
    rolled', spans' := rolled, spans;
    var end := bucket + BUCKET;
    if from <= bucket && end <= to && end <= d.closed && confirmed && bucket in d.rows {
      rolled' := rolled + [bucket];
      return;
    }
    var lo, hi := Max(bucket, from), Min(end, to);
    if lo >= hi {
      return;
    }
    if |spans| > 0 && spans[|spans| - 1].to == lo {
      spans' := spans[|spans| - 1 := Span(spans[|spans| - 1].from, hi)];
    } else {
      spans' := spans + [Span(lo, hi)];
    }
  }

  /** Decide bucket by bucket what comes from the rollup, and merge the rest into raw spans. */
  method Plan(d: Data, from: int, to: int) returns (rolled: seq<int>, spans: seq<Span>)
    requires 0 <= from
    ensures rolled == RolledBuckets(d, from, to, Buckets(from, to))
    ensures spans == Spans(d, from, to, Buckets(from, to))
  {
    var confirmed := ConfirmedBuckets(d, from, to);
    rolled, spans := [], [];
    var cursor := BucketStart(from);
    ghost var k: nat := 0;
    while cursor < to
      invariant cursor == BucketAt(from, k) && k <= Buckets(from, to)
      invariant PlannedUpTo(d, from, to, k, rolled, spans)
      decreases (to - cursor)
    {
      BucketsLeft(from, to, k);
      assert BucketAt(from, k) in confirmed <==> Confirmed(d, BucketAt(from, k));
      rolled, spans := PlaceBucket(d, from, to, cursor, cursor in confirmed, k, rolled, spans);
      cursor := cursor + BUCKET;
      k := k + 1;
    }
    BucketsLeft(from, to, k);
    assert k == Buckets(from, to);
  }

  // -------------------------------------------------------------- raw budget

  predicate HasBefore(samples: seq<Sample>, t: int) {
    samples != [] && (samples[0].time < t || HasBefore(samples[1..], t))
  }

  /** Rows that reading a span plans: those in it and one predecessor where there is one. */
  function Planned(samples: seq<Sample>, s: Span): nat {
    Count(samples, s.from, s.to) + if HasBefore(samples, s.from) then 1 else 0
  }

  /** The planned rows of a span are its stored samples and one before it, if there is any. */
  lemma PlannedAre(samples: seq<Sample>, s: Span)
    ensures Planned(samples, s) == |SampledAt(samples, s.from, s.to, |samples|)|
      + if exists i | 0 <= i < |samples| :: samples[i].time < s.from then 1 else 0
  {
    assert samples[..|samples|] == samples;
    CountIsSize(samples, s.from, s.to, |samples|);
    HasBeforeIff(samples, s.from);
  }

  lemma {:induction false} HasBeforeIff(samples: seq<Sample>, t: int)
    ensures HasBefore(samples, t) <==> exists i | 0 <= i < |samples| :: samples[i].time < t
  {
    if samples != [] {
      HasBeforeIff(samples[1..], t);
      if i :| 0 <= i < |samples| && samples[i].time < t {
        assert i > 0 ==> samples[1..][i - 1] == samples[i];
      }
    }
  }

  function TotalPlanned(samples: seq<Sample>, spans: seq<Span>): nat {
    if spans == [] then 0 else TotalPlanned(samples, spans[..|spans| - 1]) + Planned(samples, spans[|spans| - 1])
  }

  /** The planned rows of a plan are those of its spans added up. */
  lemma {:induction false} TotalIsSum(samples: seq<Sample>, a: seq<Span>, b: seq<Span>)
    ensures TotalPlanned(samples, a + b) == TotalPlanned(samples, a) + TotalPlanned(samples, b)
    ensures |a| == 1 ==> TotalPlanned(samples, a) == Planned(samples, a[0])
  {
    if b == [] {
      assert a + b == a;
    } else {
      TotalIsSum(samples, a, b[..|b| - 1]);
      assert (a + b)[..|a + b| - 1] == a + b[..|b| - 1];
    }
    assert |a| == 1 ==> TotalPlanned(samples, a[..0]) == 0;
  }

  const PROBE_LIMIT := MAX_RAW + 1

  /** Count at most one key more than the budget, plus the predecessor. */
  function Probe(samples: seq<Sample>, s: Span): nat {
    Min(Count(samples, s.from, s.to), PROBE_LIMIT) + if HasBefore(samples, s.from) then 1 else 0
  }

  lemma {:induction false} PlannedGrows(samples: seq<Sample>, spans: seq<Span>, i: nat)
    requires i <= |spans|
    ensures TotalPlanned(samples, spans[..i]) <= TotalPlanned(samples, spans)
  {
    if i < |spans| {
      assert spans[..|spans| - 1][..i] == spans[..i];
      PlannedGrows(samples, spans[..|spans| - 1], i);
    } else {
      assert spans[..i] == spans;
    }
  }

  /** Read the spans in turn; refused as soon as their planned rows together pass the budget. */
  method ReadSpans(d: Raw, spans: seq<Span>) returns (points: Option<seq<Point>>)
    ensures points.Some? <==> TotalPlanned(d.samples, spans) <= MAX_RAW
    ensures points.Some? ==> points.value == SpanPoints(d, spans)
  {
    var read, total := [], 0;
    for i := 0 to |spans|
      invariant total == TotalPlanned(d.samples, spans[..i]) <= MAX_RAW && read == SpanPoints(d, spans[..i])
    {
      assert spans[..i + 1][..i] == spans[..i];
      var samples := Probe(d.samples, spans[i]);
      total := total + samples;
      if samples > MAX_RAW || total > MAX_RAW {
        PlannedGrows(d.samples, spans, i + 1);
        return None;
      }
      read := read + RawPoints(d, spans[i].from, spans[i].to);
    }
    assert spans[..|spans|] == spans;
    return Some(read);
  }

  /** The rollup rows of the planned buckets, in order. */
  method ReadRows(d: Data, buckets: seq<int>) returns (points: seq<Point>)
    ensures points == RowPoints(d, buckets)
  {
    points := [];
    for i := 0 to |buckets|
      invariant points == RowPoints(d, buckets[..i])
    {
      assert buckets[..i + 1][..i] == buckets[..i];
      points := points + [Point(buckets[i], RowOf(d, buckets[i]))];
    }
    assert buckets[..|buckets|] == buckets;
  }

  // ----------------------------------------------------------------- sorting

  ghost predicate InOrder(s: seq<Point>, n: nat, skip: int)
    requires n <= |s|
  {
    forall p, q | 0 <= p < q < n && q != skip :: s[p].bucket <= s[q].bucket
  }

  /** Sift the element at `i` down to its place among the sorted ones before it. */
  method SiftDown(a: array<Point>, i: nat)
    requires i < a.Length && InOrder(a[..], i, i)
    modifies a
    ensures InOrder(a[..], i + 1, i + 1) && multiset(a[..]) == multiset(old(a[..]))
  {
    var j := i;
    while j > 0 && a[j].bucket < a[j - 1].bucket
      invariant 0 <= j <= i && InOrder(a[..], i + 1, j)
      invariant multiset(a[..]) == multiset(old(a[..]))
    {
      a[j], a[j - 1] := a[j - 1], a[j];
      j := j - 1;
    }
  }

  /** Insertion sort by time, in place. */
  method SortPoints(a: array<Point>)
    modifies a
    ensures SortedPoints(a[..]) && multiset(a[..]) == multiset(old(a[..]))
  {
    var i := 1;
    while i < a.Length
      invariant 1 <= i && (i <= a.Length ==> InOrder(a[..], i, i))
      invariant a.Length < i ==> a.Length == 0
      invariant multiset(a[..]) == multiset(old(a[..]))
    {
      SiftDown(a, i);
      i := i + 1;
    }
    OrderIsSorted(a[..]);
  }

  lemma {:induction false} OrderIsSorted(s: seq<Point>)
    requires InOrder(s, |s|, |s|)
    ensures SortedPoints(s)
  {
    if s != [] {
      OrderIsSorted(s[..|s| - 1]);
    }
  }

  // --------------------------------------------------------------- the query

  /**
   The answer is the reference in bucket order, read with at most 12,000 planned
   rows over all raw spans, and it is refused exactly when they are more.
   */
  method Query(d: Data, from: int, to: int) returns (points: Option<seq<Point>>)
    requires 0 <= from < to
    ensures points.Some? <==> TotalPlanned(d.raw.samples, Spans(d, from, to, Buckets(from, to))) <= MAX_RAW
    ensures points.Some? ==>
      && points.value == Pieces(d, from, to, Buckets(from, to)) && Ascending(points.value)
      && Meaningful(d, from, to, points.value)
      && (RowsMatch(d, from, to) ==> forall p | p in points.value :: RawPoint(d.raw.samples, BUCKET, from, to, p))
  {
    var rolled, spans := Plan(d, from, to);
    var rows := ReadRows(d, rolled);
    var raws := ReadSpans(d.raw, spans);
    if raws.None? {
      return None;
    }
    PlanHoldsPieces(d, from, to, Buckets(from, to));
    PiecesAscend(d, from, to, Buckets(from, to));
    PiecesAreMeaningful(d, from, to);
    if RowsMatch(d, from, to) {
      forall p | p in Pieces(d, from, to, Buckets(from, to))
        ensures RawPoint(d.raw.samples, BUCKET, from, to, p)
      {
        MatchedPoint(d, from, to, p);
      }
    }
    var sorted := Sorted(rows + raws.value, Pieces(d, from, to, Buckets(from, to)));
    return Some(sorted);
  }

  method Sorted(points: seq<Point>, ghost expected: seq<Point>) returns (sorted: seq<Point>)
    requires multiset(points) == multiset(expected) && Ascending(expected)
    ensures sorted == expected
  {
    var a := new Point[|points|](i requires 0 <= i < |points| => points[i]);
    assert a[..] == points;
    SortPoints(a);
    sorted := a[..];
    SortedIsAscending(sorted, expected);
  }
}
