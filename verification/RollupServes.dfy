/**
 The rows that a stitched query serves: in a reachable state of the rollup they
 equal the direct aggregates of their buckets when nothing disturbed them since
 their last refresh, and then the stitched answer is the raw one.
 */
module RollupServes {
  import opened Options
  import opened RollupBuckets
  import R = Rollup
  import C = RollupCounts
  import S = Stitch
  import M = StitchMeaning

  /** What each sample measured, by sample ID; missing when its total was zero. */
  type Readings = map<nat, Option<real>>

  function ReadingOf(readings: Readings, id: nat): Option<real> { if id in readings then readings[id] else None }

  predicate StoredFor(s: R.State, server: nat, id: nat) {
    id in s.raw && id in s.known && s.known[id].server == server
  }

  /** The stored samples of a server with IDs from `k` below `n`, in ID order. */
  function StoredFrom(s: R.State, readings: Readings, server: nat, k: nat, n: nat): seq<S.Sample>
    decreases n - k
  {
    if k >= n then []
    else if StoredFor(s, server, k)
    then [S.Sample(s.known[k].time, ReadingOf(readings, k))] + StoredFrom(s, readings, server, k + 1, n)
    else StoredFrom(s, readings, server, k + 1, n)
  }

  /** Sum, count and maximum of the samples a row aggregates. */
  function GaugeOf(content: set<nat>, readings: Readings, k: nat, n: nat): S.Gauge
    decreases n - k
  {
    if k >= n then S.NO_GAUGE
    else if k in content then S.Plus(ReadingOf(readings, k), GaugeOf(content, readings, k + 1, n))
    else GaugeOf(content, readings, k + 1, n)
  }

  /** The gauge of a bucket's stored samples is the direct aggregate. */
  lemma {:induction false} ContentGauge(s: R.State, readings: Readings, server: nat, b: int, k: nat, n: nat)
    ensures S.Aggregate(StoredFrom(s, readings, server, k, n), b, b + BUCKET)
      == GaugeOf(R.Content(s, server, b), readings, k, n)
    decreases n - k
  {
    if k < n {
      ContentGauge(s, readings, server, b, k + 1, n);
      if StoredFor(s, server, k) {
        var rest := StoredFrom(s, readings, server, k + 1, n);
        assert ([S.Sample(s.known[k].time, ReadingOf(readings, k))] + rest)[1..] == rest;
      }
    }
  }

  /** What a query of the server reads in this state, with IDs below `n`. */
  ghost function DataOf(s: R.State, readings: Readings, server: nat, n: nat, rated: set<int>): S.Data {
    var t := R.TrackOf(s, server);
    S.Data(S.Raw(StoredFrom(s, readings, server, 0, n), rated),
           map b | b in t.rows :: GaugeOf(t.rows[b], readings, 0, n), t.checkpoint, BucketStart(s.now))
  }

  /** Since the bucket's last refresh no stored sample arrived in it and none of its row was pruned. */
  ghost predicate Undisturbed(states: seq<R.State>, events: seq<R.Event>, j: nat, server: nat, b: int)
    requires R.Run(states, events) && j < |states| && server in states[j].tracks && b in states[j].tracks[server].rows
  {
    exists i | 0 <= i < j :: LastRefresh(states, events, i, j, server, b)
      && R.Content(states[j], server, b) <= states[i].known.Keys && states[j].tracks[server].rows[b] <= states[j].raw
  }

  ghost predicate LastRefresh(states: seq<R.State>, events: seq<R.Event>, i: nat, j: nat, server: nat, b: int)
    requires |states| == |events| + 1 && i < j < |states|
  {
    C.Covering(states[i], events[i], server, b) && forall m | i < m < j :: !C.Covering(states[m], events[m], server, b)
  }

  lemma UndisturbedRowMatches(states: seq<R.State>, events: seq<R.Event>, j: nat, server: nat, b: int,
                              readings: Readings, n: nat, rated: set<int>)
    requires R.Run(states, events) && j < |states| && server in states[j].tracks && b in states[j].tracks[server].rows
    requires Undisturbed(states, events, j, server, b)
    ensures var d := DataOf(states[j], readings, server, n, rated);
      b in d.rows && d.rows[b] == S.Aggregate(d.raw.samples, b, b + BUCKET)
  {
    var i :| 0 <= i < j && LastRefresh(states, events, i, j, server, b)
      && R.Content(states[j], server, b) <= states[i].known.Keys && states[j].tracks[server].rows[b] <= states[j].raw;
    C.RowEqualsBucketIff(states, events, i, j, server, b);
    ContentGauge(states[j], readings, server, b, 0, n);
  }

  /** A query over undisturbed rows reports exactly the gauges of the raw samples. */
  lemma ServedIsRaw(states: seq<R.State>, events: seq<R.Event>, j: nat, server: nat, readings: Readings, n: nat,
                    rated: set<int>, from: int, to: int, b: int)
    requires R.Run(states, events) && j < |states| && server in states[j].tracks && 0 <= from < to
    requires forall c | c in states[j].tracks[server].rows
      && S.Rolled(DataOf(states[j], readings, server, n, rated), from, to, c) :: Undisturbed(states, events, j, server, c)
    ensures var d := DataOf(states[j], readings, server, n, rated);
      && S.RowsMatch(d, from, to)
      && S.GaugeIn(S.Pieces(d, from, to, S.Buckets(from, to)), b) == S.GaugeIn(S.RawPoints(d.raw, from, to), b)
      && forall p | p in S.Pieces(d, from, to, S.Buckets(from, to)) :: M.RawPoint(d.raw.samples, BUCKET, from, to, p)
  {
    var d := DataOf(states[j], readings, server, n, rated);
    forall c | c in d.rows && S.Rolled(d, from, to, c)
      ensures d.rows[c] == S.Aggregate(d.raw.samples, c, c + BUCKET)
    {
      UndisturbedRowMatches(states, events, j, server, c, readings, n, rated);
    }
    S.StitchRefinesRaw(d, rated, from, to, b);
    M.PiecesAreMeaningful(d, from, to);
    forall p | p in S.Pieces(d, from, to, S.Buckets(from, to))
      ensures M.RawPoint(d.raw.samples, BUCKET, from, to, p)
    {
      M.MatchedPoint(d, from, to, p);
    }
  }
}
