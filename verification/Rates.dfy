/**
 Counter rates: adjacent samples form pairs, a valid pair has a rate, and the rate
 is charged to every grid bucket for the time the pair covers in it. Times are
 whole ticks of the database clock and rates are per tick, as reals.
 */
module Rates {
  import opened Arithmetic
  import opened Durations
  import opened Options

  /** One stored sample: its time, boot ID if known, and the four counters. */
  datatype Row = Row(time: int, boot: Option<string>, counters: seq<Option<int>>)

  /** The aggregation request: grid width, gap threshold and request window. */
  datatype Grid = Grid(width: int, gap: int, start: int, end: int)

  predicate ValidGrid(g: Grid) { 0 < g.width && 0 < g.gap && g.start <= g.end }

  ghost predicate Sorted(s: seq<Row>) { |s| < 2 || (s[0].time <= s[1].time && Sorted(s[1..])) }

  // ---------------------------------------------------------------- the scan

  function Within(rows: seq<Row>, from: int, to: int): seq<Row> {
    if rows == [] then []
    else if from <= rows[0].time < to then [rows[0]] + Within(rows[1..], from, to)
    else Within(rows[1..], from, to)
  }

  /** The latest row before the scan, as rate context. */
  function Predecessor(rows: seq<Row>, from: int): seq<Row> {
    if rows == [] || from <= rows[0].time then []
    else if Predecessor(rows[1..], from) == [] then [rows[0]] else Predecessor(rows[1..], from)
  }

  function Scan(rows: seq<Row>, from: int, to: int): seq<Row> { Predecessor(rows, from) + Within(rows, from, to) }

  // ------------------------------------------------------------------- pairs

  function CounterOf(r: Row, k: nat): Option<int> { if k < |r.counters| then r.counters[k] else None }

  predicate Rebooted(a: Row, b: Row) { a.boot.Some? && b.boot.Some? && a.boot != b.boot }

  /** The pair's rate: nothing across a reboot, a decrease, a missing counter, no time or too long a gap. */
  function Rate(a: Row, b: Row, k: nat, gap: int): Option<real> {
    if CounterOf(a, k).None? || CounterOf(b, k).None? || Rebooted(a, b) then None
    else if CounterOf(b, k).value < CounterOf(a, k).value || b.time - a.time <= 0 || b.time - a.time > gap then None
    else Some((CounterOf(b, k).value - CounterOf(a, k).value) as real / (b.time - a.time) as real)
  }

  /** Exactly when a pair has a rate; no increase is the rate zero, not a missing one. */
  lemma RateIff(a: Row, b: Row, k: nat, gap: int)
    ensures Rate(a, b, k, gap).Some? <==>
      && k < |a.counters| && a.counters[k].Some? && k < |b.counters| && b.counters[k].Some?
      && a.counters[k].value <= b.counters[k].value
      && (a.boot == b.boot || a.boot.None? || b.boot.None?) && 0 < b.time - a.time <= gap
    ensures Rate(a, b, k, gap).Some? ==>
      Rate(a, b, k, gap).value * (b.time - a.time) as real == (b.counters[k].value - a.counters[k].value) as real
    ensures Rate(a, b, k, gap).Some? && a.counters[k] == b.counters[k] ==> Rate(a, b, k, gap).value == 0.0
  {
  }

  /** A pair that has a rate. */
  datatype Pair = Pair(rate: real, from: int, to: int)

  /** The valid pairs of adjacent rows, in order. Each counter's pairs are valid on their own. */
  function Pairs(s: seq<Row>, k: nat, gap: int): seq<Pair> {
    if |s| < 2 then []
    else if Rate(s[0], s[1], k, gap).None? then Pairs(s[1..], k, gap)
    else [Pair(Rate(s[0], s[1], k, gap).value, s[0].time, s[1].time)] + Pairs(s[1..], k, gap)
  }

  function Overlap(a: int, b: int, x: int, y: int): int { Max(0, Min(b, y) - Max(a, x)) }

  /** The ticks of the pair inside both the bucket that starts at `x` and the window. */
  function Weight(p: Pair, x: int, g: Grid): int { Overlap(p.from, p.to, Max(x, g.start), Min(x + g.width, g.end)) }

  /** The rate charged for some ticks. */
  function Amount(rate: real, ticks: int): real { rate * ticks as real }

  // --------------------------------------------------------------- aggregates

  /** Valid coverage of the bucket. */
  function Coverage(ps: seq<Pair>, x: int, g: Grid): int {
    if ps == [] then 0 else Weight(ps[0], x, g) + Coverage(ps[1..], x, g)
  }

  /** The sum of rate times weight in the bucket. */
  function Volume(ps: seq<Pair>, x: int, g: Grid): real {
    if ps == [] then 0.0 else Amount(ps[0].rate, Weight(ps[0], x, g)) + Volume(ps[1..], x, g)
  }

  /** The reported average, when anything is covered. */
  function Average(ps: seq<Pair>, x: int, g: Grid): Option<real> {
    if Coverage(ps, x, g) > 0 then Some(Volume(ps, x, g) / Coverage(ps, x, g) as real) else None
  }

  function Higher(a: real, b: Option<real>): real { if b.Some? && a < b.value then b.value else a }

  /** The largest rate of a pair that touches the bucket inside the window. */
  function Peak(ps: seq<Pair>, x: int, g: Grid): Option<real> {
    if ps == [] then None
    else if Weight(ps[0], x, g) == 0 then Peak(ps[1..], x, g)
    else Some(Higher(ps[0].rate, Peak(ps[1..], x, g)))
  }

  // ----------------------------------------------------------------- the grid

  /** The grid of the window: its first bucket and the number of buckets. */
  function FirstBucket(g: Grid): int
    requires ValidGrid(g)
  {
    g.start / g.width * g.width
  }

  function BucketCount(g: Grid): (n: nat)
    requires ValidGrid(g)
  {
    QuotientMonotone(g.start, g.end, g.width);
    g.end / g.width - g.start / g.width + 1
  }

  /** Weights of one pair over `n` buckets from `x`. */
  function TotalWeight(p: Pair, x: int, n: nat, g: Grid): int
    decreases n
  {
    if n == 0 then 0 else Weight(p, x, g) + TotalWeight(p, x + g.width, n - 1, g)
  }

  /** What one bucket reports: its average for the ticks it covers. */
  function Report(ps: seq<Pair>, x: int, g: Grid): real {
    var average := Average(ps, x, g);
    if average.Some? then Amount(average.value, Coverage(ps, x, g)) else 0.0
  }

  function Reported(ps: seq<Pair>, x: int, n: nat, g: Grid): real
    decreases n
  {
    if n == 0 then 0.0 else Report(ps, x, g) + Reported(ps, x + g.width, n - 1, g)
  }

  /** Each pair's rate for its own ticks inside the window. */
  function Carried(ps: seq<Pair>, g: Grid): real {
    if ps == [] then 0.0 else Amount(ps[0].rate, Overlap(ps[0].from, ps[0].to, g.start, g.end)) + Carried(ps[1..], g)
  }

  // ------------------------------------------------------- weights of a pair

  lemma GridCovers(g: Grid)
    requires ValidGrid(g)
    ensures FirstBucket(g) <= g.start && g.end < FirstBucket(g) + BucketCount(g) * g.width
    ensures g.start < FirstBucket(g) + g.width && FirstBucket(g) + (BucketCount(g) - 1) * g.width <= g.end
  {
    Quotient(g.start, g.width);
    Quotient(g.end, g.width);
  }

  /** Two neighbouring stretches share an interval without loss. */
  lemma OverlapSplits(a: int, b: int, x: int, m: int, y: int, g: Grid)
    requires x <= m <= y
    ensures Overlap(a, b, Max(x, g.start), Min(m, g.end)) + Overlap(a, b, Max(m, g.start), Min(y, g.end))
      == Overlap(a, b, Max(x, g.start), Min(y, g.end))
  {
  }

  lemma {:induction false} SharesAdd(p: Pair, x: int, n: nat, g: Grid)
    requires 0 < g.width
    ensures TotalWeight(p, x, n, g) == Overlap(p.from, p.to, Max(x, g.start), Min(x + n * g.width, g.end))
    decreases n
  {
    if n > 0 {
      SharesAdd(p, x + g.width, n - 1, g);
      MultiplyMonotone(0, n - 1, g.width);
      assert x + g.width + (n - 1) * g.width == x + n * g.width;
      OverlapSplits(p.from, p.to, x, x + g.width, x + n * g.width, g);
    }
  }

  /** A valid pair's weights over the whole grid sum to its overlap with the window. */
  lemma WeightsConserved(p: Pair, g: Grid)
    requires ValidGrid(g)
    ensures TotalWeight(p, FirstBucket(g), BucketCount(g), g) == Overlap(p.from, p.to, g.start, g.end)
  {
    GridCovers(g);
    SharesAdd(p, FirstBucket(g), BucketCount(g), g);
  }

  // ------------------------------------------------------ coverage of a bucket

  /** Pairs of a sorted scan do not overlap, so a bucket is never covered beyond its part of the window. */
  lemma {:induction false} CoverageFits(s: seq<Row>, k: nat, x: int, g: Grid)
    requires ValidGrid(g) && Sorted(s) && s != []
    ensures s[0].time <= s[|s| - 1].time
    ensures 0 <= Coverage(Pairs(s, k, g.gap), x, g)
      <= Overlap(s[0].time, s[|s| - 1].time, Max(x, g.start), Min(x + g.width, g.end)) <= g.width
  {
    if |s| >= 2 {
      CoverageFits(s[1..], k, x, g);
      assert s[1..][|s| - 2] == s[|s| - 1];
      var rest := Pairs(s[1..], k, g.gap);
      if Rate(s[0], s[1], k, g.gap).Some? {
        assert Pairs(s, k, g.gap)[1..] == rest;
      }
    }
  }

  // -------------------------------------------------------------- conservation

  lemma Distribute(r: real, a: int, b: int)
    ensures Amount(r, a + b) == Amount(r, a) + Amount(r, b)
  {
  }

  function Volumes(ps: seq<Pair>, x: int, n: nat, g: Grid): real
    decreases n
  {
    if n == 0 then 0.0 else Volume(ps, x, g) + Volumes(ps, x + g.width, n - 1, g)
  }

  lemma {:induction false} ReportIsVolume(ps: seq<Pair>, x: int, g: Grid)
    ensures Report(ps, x, g) == Volume(ps, x, g)
  {
    UncoveredIsEmpty(ps, x, g);
  }

  lemma {:induction false} UncoveredIsEmpty(ps: seq<Pair>, x: int, g: Grid)
    ensures 0 <= Coverage(ps, x, g)
    ensures Coverage(ps, x, g) == 0 ==> Volume(ps, x, g) == 0.0
  {
    if ps != [] {
      UncoveredIsEmpty(ps[1..], x, g);
    }
  }

  lemma {:induction false} ReportedIsVolumes(ps: seq<Pair>, x: int, n: nat, g: Grid)
    ensures Reported(ps, x, n, g) == Volumes(ps, x, n, g)
    decreases n
  {
    if n > 0 {
      ReportIsVolume(ps, x, g);
      ReportedIsVolumes(ps, x + g.width, n - 1, g);
    }
  }

  /** Summing by bucket and then by pair is summing by pair and then by bucket. */
  lemma {:induction false} VolumesSplit(ps: seq<Pair>, x: int, n: nat, g: Grid)
    requires ps != []
    ensures Volumes(ps, x, n, g) == Amount(ps[0].rate, TotalWeight(ps[0], x, n, g)) + Volumes(ps[1..], x, n, g)
    decreases n
  {
    if n > 0 {
      VolumesSplit(ps, x + g.width, n - 1, g);
      Distribute(ps[0].rate, Weight(ps[0], x, g), TotalWeight(ps[0], x + g.width, n - 1, g));
    }
  }

  lemma {:induction false} NoPairsNoVolume(x: int, n: nat, g: Grid)
    ensures Volumes([], x, n, g) == 0.0
    decreases n
  {
    if n > 0 {
      NoPairsNoVolume(x + g.width, n - 1, g);
    }
  }

  lemma {:induction false} VolumesAreCarried(ps: seq<Pair>, g: Grid)
    requires ValidGrid(g)
    ensures Volumes(ps, FirstBucket(g), BucketCount(g), g) == Carried(ps, g)
  {
    if ps == [] {
      NoPairsNoVolume(FirstBucket(g), BucketCount(g), g);
    } else {
      VolumesSplit(ps, FirstBucket(g), BucketCount(g), g);
      WeightsConserved(ps[0], g);
      VolumesAreCarried(ps[1..], g);
    }
  }

  /** What the buckets report is what the pairs of the scan carry inside the window. */
  lemma RateConserved(ps: seq<Pair>, g: Grid)
    requires ValidGrid(g)
    ensures Reported(ps, FirstBucket(g), BucketCount(g), g) == Carried(ps, g)
  {
    ReportedIsVolumes(ps, FirstBucket(g), BucketCount(g), g);
    VolumesAreCarried(ps, g);
  }

  // ------------------------------------------------------------- telescoping

  /** Consecutive valid pairs that all lie inside the window. */
  ghost predicate Chain(s: seq<Row>, k: nat, g: Grid) {
    |s| < 2 || (Rate(s[0], s[1], k, g.gap).Some? && g.start <= s[0].time && s[1].time <= g.end && Chain(s[1..], k, g))
  }

  lemma PairCarries(a: Row, b: Row, k: nat, gap: int)
    requires Rate(a, b, k, gap).Some?
    ensures Amount(Rate(a, b, k, gap).value, b.time - a.time) == (CounterOf(b, k).value - CounterOf(a, k).value) as real
  {
  }

  lemma {:induction false} CarriedTelescopes(s: seq<Row>, k: nat, g: Grid)
    requires |s| >= 2 && Chain(s, k, g)
    ensures CounterOf(s[0], k).Some? && CounterOf(s[|s| - 1], k).Some?
    ensures Carried(Pairs(s, k, g.gap), g) == (CounterOf(s[|s| - 1], k).value - CounterOf(s[0], k).value) as real
  {
    var ps, rest := Pairs(s, k, g.gap), Pairs(s[1..], k, g.gap);
    assert ps[1..] == rest;
    PairCarries(s[0], s[1], k, g.gap);
    assert Overlap(s[0].time, s[1].time, g.start, g.end) == s[1].time - s[0].time;
    if |s| > 2 {
      CarriedTelescopes(s[1..], k, g);
    }
    assert s[1..][|s| - 2] == s[|s| - 1];
  }

  /** For a chain inside the window, average times coverage over the grid is last minus first counter. */
  lemma ReportTelescopes(s: seq<Row>, k: nat, g: Grid)
    requires ValidGrid(g) && |s| >= 2 && Chain(s, k, g)
    ensures CounterOf(s[0], k).Some? && CounterOf(s[|s| - 1], k).Some?
    ensures Reported(Pairs(s, k, g.gap), FirstBucket(g), BucketCount(g), g)
      == (CounterOf(s[|s| - 1], k).value - CounterOf(s[0], k).value) as real
  {
    RateConserved(Pairs(s, k, g.gap), g);
    CarriedTelescopes(s, k, g);
  }

  // --------------------------------------------------------- average and peak

  ghost predicate NonNegative(ps: seq<Pair>) { forall p | p in ps :: 0.0 <= p.rate }

  lemma {:induction false} RatesAreNonNegative(s: seq<Row>, k: nat, gap: int)
    ensures NonNegative(Pairs(s, k, gap))
  {
    if |s| >= 2 {
      RatesAreNonNegative(s[1..], k, gap);
    }
  }

  lemma AmountBounds(rate: real, peak: real, ticks: int)
    requires 0.0 <= rate <= peak && 0 <= ticks
    ensures 0.0 <= Amount(rate, ticks) <= Amount(peak, ticks)
  {
  }

  /** A bucket's volume is at most its peak times its coverage, and never negative. */
  lemma {:induction false} VolumeBelowPeak(ps: seq<Pair>, x: int, g: Grid, peak: real)
    requires NonNegative(ps) && 0.0 <= peak
    requires Peak(ps, x, g).Some? ==> Peak(ps, x, g).value <= peak
    ensures 0.0 <= Volume(ps, x, g) <= Amount(peak, Coverage(ps, x, g))
  {
    if ps != [] {
      VolumeBelowPeak(ps[1..], x, g, peak);
      var w := Weight(ps[0], x, g);
      if w > 0 {
        AmountBounds(ps[0].rate, peak, w);
      }
      Distribute(peak, w, Coverage(ps[1..], x, g));
    }
  }

  lemma {:induction false} CoveredHasPeak(ps: seq<Pair>, x: int, g: Grid)
    requires NonNegative(ps) && Coverage(ps, x, g) > 0
    ensures Peak(ps, x, g).Some? && 0.0 <= Peak(ps, x, g).value
  {
    if Weight(ps[0], x, g) == 0 {
      CoveredHasPeak(ps[1..], x, g);
    } else {
      assert ps[0] in ps;
    }
  }

  /** The pair covers some tick of the bucket inside the window. */
  ghost predicate Touches(p: Pair, x: int, g: Grid) {
    exists tick :: CoversTick(p, x, g, tick)
  }

  predicate CoversTick(p: Pair, x: int, g: Grid, tick: int) {
    p.from <= tick < p.to && x <= tick < x + g.width && g.start <= tick < g.end
  }

  lemma TouchesIff(p: Pair, x: int, g: Grid)
    ensures Touches(p, x, g) <==> Weight(p, x, g) > 0
  {
    var tick := Max(p.from, Max(x, g.start));
    if Weight(p, x, g) > 0 {
      assert CoversTick(p, x, g, tick);
    }
  }

  /** The peak is the rate of some pair that touches the bucket, and no such pair has a higher one. */
  lemma {:induction false} PeakIsGreatest(ps: seq<Pair>, x: int, g: Grid)
    ensures Peak(ps, x, g).Some? <==> exists p | p in ps :: Touches(p, x, g)
    ensures Peak(ps, x, g).Some? ==>
      && (exists p | p in ps :: Touches(p, x, g) && p.rate == Peak(ps, x, g).value)
      && (forall p | p in ps && Touches(p, x, g) :: p.rate <= Peak(ps, x, g).value)
  {
    if ps != [] {
      PeakIsGreatest(ps[1..], x, g);
      TouchesIff(ps[0], x, g);
      assert ps[0] in ps;
      assert forall p | p in ps :: p == ps[0] || p in ps[1..];
    }
  }

  lemma DivideBounds(v: real, ticks: int, peak: real)
    requires 0 < ticks && 0.0 <= v <= Amount(peak, ticks)
    ensures 0.0 <= v / ticks as real <= peak
  {
  }

  /** A reported average lies between zero and the reported peak. */
  lemma AverageBelowPeak(s: seq<Row>, k: nat, x: int, g: Grid)
    requires Average(Pairs(s, k, g.gap), x, g).Some?
    ensures var ps := Pairs(s, k, g.gap);
      Peak(ps, x, g).Some? && 0.0 <= Average(ps, x, g).value <= Peak(ps, x, g).value
  {
    var ps := Pairs(s, k, g.gap);
    RatesAreNonNegative(s, k, g.gap);
    CoveredHasPeak(ps, x, g);
    VolumeBelowPeak(ps, x, g, Peak(ps, x, g).value);
    DivideBounds(Volume(ps, x, g), Coverage(ps, x, g), Peak(ps, x, g).value);
  }

  // --------------------------------------------------------------- scan order

  /** The scan of an ordered table is ordered: its one predecessor, the latest row before the range, comes first. */
  lemma {:induction false} ScanIsSorted(rows: seq<Row>, from: int, to: int)
    requires Sorted(rows)
    ensures Sorted(Scan(rows, from, to)) && |Predecessor(rows, from)| <= 1
    ensures forall r | r in Predecessor(rows, from) :: r in rows && r.time < from
    ensures forall r | r in rows && r.time < from :: Predecessor(rows, from) != [] && r.time <= Predecessor(rows, from)[0].time
    ensures forall r :: r in Within(rows, from, to) <==> r in rows && from <= r.time < to
    ensures forall r: Row | from <= r.time :: r in Scan(rows, from, to) <==> r in rows && r.time < to
    ensures forall r | r in rows && r.time < from :: Scan(rows, from, to) != [] && r.time <= Scan(rows, from, to)[0].time < from
    ensures forall i | 0 < i < |Scan(rows, from, to)| :: from <= Scan(rows, from, to)[i].time
  {
    WithinIsSorted(rows, from, to);
    PredecessorIsOne(rows, from);
    var p, w := Predecessor(rows, from), Within(rows, from, to);
    if p != [] {
      assert (p + w)[1..] == w;
      assert w != [] ==> w[0] in w;
    } else {
      assert p + w == w;
    }
  }

  lemma {:induction false} WithinIsSorted(rows: seq<Row>, from: int, to: int)
    requires Sorted(rows)
    ensures Sorted(Within(rows, from, to))
    ensures forall r :: r in Within(rows, from, to) <==> r in rows && from <= r.time < to
    ensures forall r | r in rows :: rows[0].time <= r.time
  {
    if rows != [] {
      WithinIsSorted(rows[1..], from, to);
      var w := Within(rows[1..], from, to);
      assert w != [] ==> w[0] in w;
      assert ([rows[0]] + w)[1..] == w;
    }
  }

  lemma {:induction false} PredecessorIsOne(rows: seq<Row>, from: int)
    requires Sorted(rows)
    ensures |Predecessor(rows, from)| <= 1
    ensures forall r | r in Predecessor(rows, from) :: r in rows && r.time < from
    ensures forall r | r in rows && r.time < from :: Predecessor(rows, from) != [] && r.time <= Predecessor(rows, from)[0].time
  {
    if rows != [] {
      FirstIsLeast(rows);
      PredecessorIsOne(rows[1..], from);
    }
  }

  lemma {:induction false} FirstIsLeast(rows: seq<Row>)
    requires Sorted(rows)
    ensures forall r | r in rows :: rows[0].time <= r.time
  {
    if rows != [] {
      FirstIsLeast(rows[1..]);
    }
  }
}
