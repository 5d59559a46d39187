/**
 The six-hour rollup: a checkpointed refresh recomputes closed buckets from raw
 samples, and a prune, planned first and applied later, removes what is older than
 the retention. A row is identified with the samples it aggregates; times are
 nanoseconds.
 */
module Rollup {
  import opened Durations
  import opened Options
  import opened RollupBuckets
  import opened Wire

  const RETENTION := 35 * DAY
  const REFRESH_WINDOW := 48 * HOUR
  const BACKFILL_WINDOW := 35 * DAY

  predicate Aligned(b: int) { b % BUCKET == 0 }

  // ------------------------------------------------------------------- state

  /** A sample ever accepted, and when the hub accepted it. */
  datatype Known = Known(server: nat, time: int, at: int)

  /** One server's rollup rows, its checkpoint, and the start of its first materialization. */
  datatype Track = Track(rows: map<int, set<nat>>, checkpoint: Option<int>, first: int)

  const NO_TRACK := Track(map[], None, 0)

  /** A dry-run result: the cutoff and the servers that must not lose anything. */
  datatype Plan = Plan(cutoff: int, pending: set<nat>)

  /** `known` remembers every accepted sample; `raw` are the ones still stored. */
  datatype State = State(now: int, known: map<nat, Known>, raw: set<nat>, tracks: map<nat, Track>, plan: Option<Plan>)

  function TrackOf(s: State, server: nat): Track { if server in s.tracks then s.tracks[server] else NO_TRACK }

  datatype Chunk = Chunk(start: int, end: int)

  datatype Event =
    | Tick(to: int)
    | Accept(id: nat, server: nat, time: int)
    | Refresh(server: nat, window: int)
    | PlanPrune
    | ApplyPrune(chunks: seq<Chunk>)

  // ----------------------------------------------------------------- refresh

  function Window(window: int): int { if window <= 0 || window > BACKFILL_WINDOW then REFRESH_WINDOW else window }

  /** The first bucket a refresh computes: the window's, or an older unconfirmed one, above the retention floor. */
  function RollupStart(checkpoint: Option<int>, now: int, window: int): int {
    var floor := BucketStart(now - RETENTION);
    var start := Max(BucketStart(now - window), floor);
    if checkpoint.Some? && BucketStart(checkpoint.value) < start then Max(BucketStart(checkpoint.value), floor) else start
  }

  /** The stored samples of a server in the bucket. */
  function Content(s: State, server: nat, b: int): set<nat> {
    set id | id in s.raw && id in s.known && s.known[id].server == server && b <= s.known[id].time < b + BUCKET
  }

  predicate InGrid(b: int, from: int, to: int) { from <= b < to && Aligned(b - from) }

  /** Insert or replace a row, except a populated one by an empty one. */
  function Upserted(rows: map<int, set<nat>>, b: int, content: set<nat>): set<nat> {
    if content == {} && b in rows then rows[b] else content
  }

  function Materialize(s: State, server: nat, rows: map<int, set<nat>>, from: int, to: int): map<int, set<nat>> {
    (map b | b in rows && !InGrid(b, from, to) :: rows[b])
    + (map b | from <= b < to && Aligned(b - from) :: Upserted(rows, b, Content(s, server, b)))
  }

  /** The refresh cycle serves the server: recent samples, a late checkpoint, or samples and no checkpoint. */
  predicate Needs(s: State, server: nat, window: int) {
    var closed := BucketStart(s.now);
    || (exists id | id in s.raw && id in s.known :: s.known[id].server == server && closed - window <= s.known[id].time)
    || (TrackOf(s, server).checkpoint.Some? && TrackOf(s, server).checkpoint.value < closed)
    || (TrackOf(s, server).checkpoint.None? && exists id | id in s.raw && id in s.known ::
          s.known[id].server == server && closed - BACKFILL_WINDOW <= s.known[id].time)
  }

  function RefreshTrack(s: State, server: nat, window: int): Track {
    var t := TrackOf(s, server);
    var from, closed := RollupStart(t.checkpoint, s.now, window), BucketStart(s.now);
    if closed <= from then t
    else Track(Materialize(s, server, t.rows, from, closed), Some(closed), if t.checkpoint.Some? then t.first else from)
  }

  function RefreshStep(s: State, server: nat, window: int): State {
    if Needs(s, server, Window(window)) then s.(tracks := s.tracks[server := RefreshTrack(s, server, Window(window))]) else s
  }

  // ------------------------------------------------------------------- prune

  /** A server whose stored samples below the cutoff are not all aggregated. */
  predicate Pending(s: State, server: nat, cutoff: int) {
    exists id | id in s.raw && id in s.known ::
      s.known[id].server == server && s.known[id].time < cutoff && !Covered(TrackOf(s, server).checkpoint, s.known[id].time)
  }

  predicate Covered(checkpoint: Option<int>, time: int) { checkpoint.Some? && time < checkpoint.value }

  function PlanStep(s: State): State {
    var cutoff := s.now - RETENTION;
    var servers := set id | id in s.raw && id in s.known :: s.known[id].server;
    s.(plan := Some(Plan(cutoff, set server | server in servers && Pending(s, server, cutoff))))
  }

  predicate Holds(s: State, c: Chunk, pending: set<nat>) {
    exists id | id in s.raw && id in s.known :: c.start <= s.known[id].time < c.end && s.known[id].server in pending
  }

  /** The chunks dropped: the longest prefix of complete chunks without pending data. */
  function Prefix(s: State, chunks: seq<Chunk>, pending: set<nat>): nat {
    if chunks == [] || Holds(s, chunks[0], pending) then 0 else 1 + Prefix(s, chunks[1..], pending)
  }

  /** Chunks in order of their start, without overlap, all complete below the cutoff. */
  predicate ChunksBelow(chunks: seq<Chunk>, cutoff: int) {
    chunks != [] ==>
      && chunks[0].start < chunks[0].end <= cutoff && ChunksBelow(chunks[1..], cutoff)
      && (|chunks| > 1 ==> chunks[0].end <= chunks[1].start)
  }

  /** Dropping older than the boundary removes the whole chunks that end by it. */
  predicate Dropped(chunks: seq<Chunk>, boundary: int, time: int) {
    exists c | c in chunks :: c.end <= boundary && c.start <= time < c.end
  }

  function Boundary(s: State, chunks: seq<Chunk>, pending: set<nat>): Option<int> {
    var n := Prefix(s, chunks, pending);
    if n == 0 || n > |chunks| then None else Some(chunks[n - 1].end)
  }

  predicate Removed(s: State, p: Plan, chunks: seq<Chunk>, k: Known) {
    || (k.time < p.cutoff && k.server !in p.pending)
    || (Boundary(s, chunks, p.pending).Some? && Dropped(chunks, Boundary(s, chunks, p.pending).value, k.time))
  }

  function PrunedTrack(t: Track, cutoff: int): Track { t.(rows := map b | b in t.rows && cutoff <= b :: t.rows[b]) }

  function PrunedTracks(tracks: map<nat, Track>, p: Plan): map<nat, Track> {
    map server | server in tracks :: if server in p.pending then tracks[server] else PrunedTrack(tracks[server], p.cutoff)
  }

  function Kept(s: State, p: Plan, chunks: seq<Chunk>): set<nat> {
    set id | id in s.raw && (id in s.known ==> !Removed(s, p, chunks, s.known[id]))
  }

  function ApplyStep(s: State, chunks: seq<Chunk>): State {
    if s.plan.None? || !ChunksBelow(chunks, s.plan.value.cutoff) then s
    else
      var p := s.plan.value;
      s.(raw := Kept(s, p, chunks), tracks := PrunedTracks(s.tracks, p), plan := None)
  }

  // ------------------------------------------------------------------- steps

  function Step(s: State, e: Event): State {
    match e
    case Tick(to) => if to < s.now then s else s.(now := to)
    case Accept(id, server, time) =>
      if id in s.known || !(s.now - TALUS_WINDOW.past <= time <= s.now + TALUS_WINDOW.future) then s
      else s.(known := s.known[id := Known(server, time, s.now)], raw := s.raw + {id})
    case Refresh(server, window) => RefreshStep(s, server, window)
    case PlanPrune => PlanStep(s)
    case ApplyPrune(chunks) => ApplyStep(s, chunks)
  }

  // --------------------------------------------------------------- invariant

  /** Every accepted sample is stored until it is older than the retention. */
  ghost predicate Stored(s: State) {
    && (forall id | id in s.raw :: id in s.known)
    && (forall id | id in s.known :: KnownOk(s.known[id], s.now) && (id in s.raw || s.known[id].time < s.now - RETENTION))
  }

  predicate KnownOk(k: Known, now: int) { k.at <= now && k.at - TALUS_WINDOW.past <= k.time }

  /** From the first start, or 35 days ago, up to the checkpoint, every bucket has a row. */
  ghost predicate Contiguous(t: Track, now: int) {
    t.checkpoint.Some? ==>
      && Aligned(t.checkpoint.value) && t.checkpoint.value <= now
      && forall b | Aligned(b) && t.first <= b < t.checkpoint.value && now - RETENTION <= b :: b in t.rows
  }

  ghost predicate AllContiguous(s: State) {
    forall server | server in s.tracks :: Contiguous(s.tracks[server], s.now)
  }

  /** What the plan would delete is aggregated. */
  ghost predicate PlanSafe(s: State) {
    s.plan.Some? ==>
      && s.plan.value.cutoff <= s.now - RETENTION
      && forall id | id in s.raw && id in s.known && Prunable(s.plan.value, s.known[id]) ::
           Covered(TrackOf(s, s.known[id].server).checkpoint, s.known[id].time)
  }

  predicate Prunable(p: Plan, k: Known) { k.time < p.cutoff && k.server !in p.pending }

  ghost predicate Inv(s: State) { Stored(s) && AllContiguous(s) && PlanSafe(s) }

  const START := State(0, map[], {}, map[], None)

  // ----------------------------------------------------------------- refresh

  /** Every grid bucket gets a row, and rows outside the grid stay. */
  lemma MaterializeRows(s: State, server: nat, rows: map<int, set<nat>>, from: int, to: int, b: int)
    ensures b in rows || InGrid(b, from, to) <==> b in Materialize(s, server, rows, from, to)
    ensures InGrid(b, from, to) ==> Materialize(s, server, rows, from, to)[b] == Upserted(rows, b, Content(s, server, b))
    ensures b in rows && !InGrid(b, from, to) ==> Materialize(s, server, rows, from, to)[b] == rows[b]
  {
  }

  /** A populated row is never replaced by an empty one. */
  lemma NeverEmptied(s: State, server: nat, rows: map<int, set<nat>>, from: int, to: int, b: int)
    requires b in rows && rows[b] != {}
    ensures b in Materialize(s, server, rows, from, to) && Materialize(s, server, rows, from, to)[b] != {}
  {
  }

  /** A refresh starts at or before its checkpoint unless it starts at the retention floor. */
  lemma StartReaches(checkpoint: Option<int>, now: int, window: int)
    ensures var from := RollupStart(checkpoint, now, window);
      && Aligned(from) && now - RETENTION - BUCKET < from
      && from <= Max(BucketStart(now - window), BucketStart(now - RETENTION))
      && (checkpoint.Some? && Aligned(checkpoint.value) ==> from <= checkpoint.value || from <= now - RETENTION)
  {
  }

  lemma AlignedInGrid(b: int, from: int, to: int)
    requires Aligned(b) && Aligned(from) && from <= b < to
    ensures InGrid(b, from, to)
  {
  }

  /** A bucket that must have a row either had one or is computed now. */
  lemma BucketKept(t: Track, now: int, from: int, closed: int, b: int)
    requires Contiguous(t, now) && Aligned(from) && Aligned(b) && b < closed && now - RETENTION <= b
    requires t.checkpoint.Some? ==> t.first <= b && (from <= t.checkpoint.value || from <= now - RETENTION)
    requires t.checkpoint.None? ==> from <= b
    ensures b in t.rows || InGrid(b, from, closed)
  {
  }

  lemma MaterializedContiguous(s: State, server: nat, t: Track, from: int, closed: int, first: int)
    requires Contiguous(t, s.now) && Aligned(from) && closed == BucketStart(s.now)
    requires if t.checkpoint.Some? then first == t.first && (from <= t.checkpoint.value || from <= s.now - RETENTION)
             else first == from
    ensures Contiguous(Track(Materialize(s, server, t.rows, from, closed), Some(closed), first), s.now)
  {
    forall b | Aligned(b) && first <= b < closed && s.now - RETENTION <= b
      ensures b in Materialize(s, server, t.rows, from, closed)
    {
      BucketKept(t, s.now, from, closed, b);
      MaterializeRows(s, server, t.rows, from, closed, b);
    }
  }

  lemma CheckpointClosed(checkpoint: int, now: int)
    requires Aligned(checkpoint) && checkpoint <= now
    ensures checkpoint <= BucketStart(now)
  {
  }

  lemma RefreshContiguous(s: State, server: nat, window: int)
    requires Contiguous(TrackOf(s, server), s.now)
    ensures Contiguous(RefreshTrack(s, server, window), s.now)
    ensures Advances(TrackOf(s, server).checkpoint, RefreshTrack(s, server, window).checkpoint)
  {
    var t := TrackOf(s, server);
    var from, closed := RollupStart(t.checkpoint, s.now, window), BucketStart(s.now);
    StartReaches(t.checkpoint, s.now, window);
    if t.checkpoint.Some? {
      CheckpointClosed(t.checkpoint.value, s.now);
    }
    if from < closed {
      MaterializedContiguous(s, server, t, from, closed, if t.checkpoint.Some? then t.first else from);
    }
  }

  predicate Advances(a: Option<int>, b: Option<int>) { a.Some? ==> b.Some? && a.value <= b.value }

  lemma RefreshKeepsInv(s: State, server: nat, window: int)
    requires Inv(s)
    ensures Inv(RefreshStep(s, server, window))
  {
    RefreshContiguous(s, server, Window(window));
  }

  // ----------------------------------------------------------- clock and data

  lemma TickKeepsInv(s: State, to: int)
    requires Inv(s) && s.now <= to
    ensures Inv(s.(now := to))
  {
  }

  lemma AcceptKeepsInv(s: State, id: nat, server: nat, time: int)
    requires Inv(s) && id !in s.known && s.now - TALUS_WINDOW.past <= time
    ensures Inv(s.(known := s.known[id := Known(server, time, s.now)], raw := s.raw + {id}))
  {
  }

  // ------------------------------------------------------------------- prune

  lemma PlanKeepsInv(s: State)
    requires Inv(s)
    ensures Inv(PlanStep(s))
  {
  }

  lemma {:induction false} ChunksOrdered(chunks: seq<Chunk>, cutoff: int)
    requires ChunksBelow(chunks, cutoff)
    ensures forall c | c in chunks :: c.start < c.end <= cutoff && chunks[0].end <= c.end
    ensures forall c | c in chunks && c != chunks[0] :: chunks[0].end < c.end
  {
    if |chunks| > 1 {
      ChunksOrdered(chunks[1..], cutoff);
      assert chunks[1..][0] == chunks[1];
    }
  }

  /** The boundary selects exactly the prefix: no dropped chunk holds data of a pending server. */
  lemma {:induction false} DroppedHoldNone(s: State, chunks: seq<Chunk>, pending: set<nat>, cutoff: int, c: Chunk)
    requires ChunksBelow(chunks, cutoff) && c in chunks && Boundary(s, chunks, pending).Some?
    requires c.end <= Boundary(s, chunks, pending).value
    ensures !Holds(s, c, pending) && c.end <= cutoff
  {
    ChunksOrdered(chunks, cutoff);
    if c != chunks[0] {
      var rest := chunks[1..];
      assert c in rest;
      assert Prefix(s, rest, pending) == Prefix(s, chunks, pending) - 1;
      if Prefix(s, rest, pending) > 0 {
        DroppedHoldNone(s, rest, pending, cutoff, c);
      }
    }
  }

  /** The dropped chunks are a prefix: the ones that end by the boundary are the first ones, up to it. */
  lemma {:induction false} DroppedArePrefix(s: State, chunks: seq<Chunk>, pending: set<nat>, cutoff: int, i: nat)
    requires ChunksBelow(chunks, cutoff) && i < |chunks| && Boundary(s, chunks, pending).Some?
    ensures chunks[i].end <= Boundary(s, chunks, pending).value <==> i < Prefix(s, chunks, pending)
  {
    ChunksOrdered(chunks, cutoff);
    var rest := chunks[1..];
    if Prefix(s, rest, pending) == 0 {
      assert i > 0 ==> chunks[i] == rest[i - 1] && rest[i - 1] in rest;
      if i > 0 {
        ChunksOrdered(rest, cutoff);
        assert rest[0] == chunks[1];
      }
    } else if i > 0 {
      DroppedArePrefix(s, rest, pending, cutoff, i - 1);
    } else {
      PrefixFits(s, chunks, pending);
      assert chunks[Prefix(s, chunks, pending) - 1] in chunks;
    }
  }

  lemma {:induction false} PrefixFits(s: State, chunks: seq<Chunk>, pending: set<nat>)
    ensures Prefix(s, chunks, pending) <= |chunks|
  {
    if chunks != [] && !Holds(s, chunks[0], pending) {
      PrefixFits(s, chunks[1..], pending);
    }
  }

  /** Dropping whole chunks is only a shortcut: a prune removes exactly what lies below the cutoff and is not a pending server's. */
  lemma RemovedIff(s: State, p: Plan, chunks: seq<Chunk>, id: nat)
    requires ChunksBelow(chunks, p.cutoff) && id in s.raw && id in s.known
    ensures Removed(s, p, chunks, s.known[id]) <==> s.known[id].time < p.cutoff && s.known[id].server !in p.pending
  {
    if Removed(s, p, chunks, s.known[id]) {
      RemovedIsPrunable(s, p, chunks, id);
    }
  }

  /** Whatever a prune removes is below the cutoff and not a pending server's. */
  lemma RemovedIsPrunable(s: State, p: Plan, chunks: seq<Chunk>, id: nat)
    requires ChunksBelow(chunks, p.cutoff) && id in s.raw && id in s.known && Removed(s, p, chunks, s.known[id])
    ensures Prunable(p, s.known[id])
  {
    var k := s.known[id];
    if !(k.time < p.cutoff && k.server !in p.pending) {
      var c :| c in chunks && c.end <= Boundary(s, chunks, p.pending).value && c.start <= k.time < c.end;
      DroppedHoldNone(s, chunks, p.pending, p.cutoff, c);
    }
  }

  lemma ApplyKeepsStored(s: State, chunks: seq<Chunk>)
    requires Inv(s) && s.plan.Some? && ChunksBelow(chunks, s.plan.value.cutoff)
    ensures Stored(ApplyStep(s, chunks))
  {
  }

  lemma ApplyKeepsInv(s: State, chunks: seq<Chunk>)
    requires Inv(s)
    ensures Inv(ApplyStep(s, chunks))
  {
    if s.plan.Some? && ChunksBelow(chunks, s.plan.value.cutoff) {
      ApplyKeepsStored(s, chunks);
    }
  }

  // -------------------------------------------------------------------- runs

  ghost predicate Run(states: seq<State>, events: seq<Event>) {
    && |states| == |events| + 1 && states[0] == START
    && forall i | 0 <= i < |events| :: states[i + 1] == Step(states[i], events[i])
  }

  /** A sample is stored exactly when its ID is new and its time within 25 hours before and 5 minutes after now. */
  lemma AcceptIff(s: State, id: nat, server: nat, time: int)
    requires id !in s.raw
    ensures id in Step(s, Accept(id, server, time)).raw <==>
      id !in s.known && s.now - 25 * HOUR <= time <= s.now + 5 * MINUTE
  {
  }

  lemma StepKeepsInv(s: State, e: Event)
    requires Inv(s)
    ensures Inv(Step(s, e))
  {
    match e
    case Tick(to) => if s.now <= to { TickKeepsInv(s, to); }
    case Accept(id, server, time) =>
      if id !in s.known && s.now - TALUS_WINDOW.past <= time {
        AcceptKeepsInv(s, id, server, time);
      }
    case Refresh(server, window) => RefreshKeepsInv(s, server, window);
    case PlanPrune => PlanKeepsInv(s);
    case ApplyPrune(chunks) => ApplyKeepsInv(s, chunks);
  }

  lemma {:induction false} RunKeepsInv(states: seq<State>, events: seq<Event>, i: nat)
    requires Run(states, events) && i < |states|
    ensures Inv(states[i])
  {
    if i > 0 {
      RunKeepsInv(states, events, i - 1);
      StepKeepsInv(states[i - 1], events[i - 1]);
    }
  }

  /** Contiguity in every reachable state. */
  lemma RowsAreContiguous(states: seq<State>, events: seq<Event>, i: nat, server: nat, b: int)
    requires Run(states, events) && i < |states| && server in states[i].tracks
    requires var t := states[i].tracks[server];
      Aligned(b) && t.checkpoint.Some? && Max(t.first, states[i].now - RETENTION) <= b < t.checkpoint.value
    ensures b in states[i].tracks[server].rows
  {
    RunKeepsInv(states, events, i);
  }

  /** The bucket of a sample accepted within 23 hours lies in every refresh window. */
  lemma FreshBucket(k: Known, now: int, window: int, from: int)
    requires KnownOk(k, now) && now <= k.at + 23 * HOUR && REFRESH_WINDOW <= window
    requires from <= Max(BucketStart(now - window), BucketStart(now - RETENTION))
    ensures from <= BucketStart(k.time) && Aligned(BucketStart(k.time))
  {
  }

  /** Freshness: a sample accepted at most 23 hours ago is counted by a refresh once its bucket is closed. */
  lemma RefreshCounts(states: seq<State>, events: seq<Event>, i: nat, id: nat, window: int)
    requires Run(states, events) && i < |events| && id in states[i].known
    requires states[i].now <= states[i].known[id].at + 23 * HOUR && REFRESH_WINDOW <= Window(window)
    requires BucketStart(states[i].known[id].time) + BUCKET <= BucketStart(states[i].now)
    requires events[i] == Refresh(states[i].known[id].server, window)
    ensures var k := states[i].known[id];
      && k.server in states[i + 1].tracks && BucketStart(k.time) in states[i + 1].tracks[k.server].rows
      && id in states[i + 1].tracks[k.server].rows[BucketStart(k.time)]
  {
    RunKeepsInv(states, events, i);
    var s, k := states[i], states[i].known[id];
    assert KnownOk(k, s.now);
    assert id in s.raw;
    var from, closed := RollupStart(TrackOf(s, k.server).checkpoint, s.now, Window(window)), BucketStart(s.now);
    StartReaches(TrackOf(s, k.server).checkpoint, s.now, Window(window));
    assert id in Content(s, k.server, BucketStart(k.time));
    FreshBucket(k, s.now, Window(window), from);
    AlignedInGrid(BucketStart(k.time), from, closed);
    MaterializeRows(s, k.server, TrackOf(s, k.server).rows, from, closed, BucketStart(k.time));
  }

  /** Retention safety: an applied prune removes only samples before their server's checkpoint, never a pending server's. */
  lemma PruneIsSafe(states: seq<State>, events: seq<Event>, i: nat, id: nat)
    requires Run(states, events) && i < |events| && id in states[i].raw && id !in states[i + 1].raw
    ensures id in states[i].known && events[i].ApplyPrune? && states[i].plan.Some?
    ensures states[i].known[id].server !in states[i].plan.value.pending
    ensures var checkpoint := TrackOf(states[i], states[i].known[id].server).checkpoint;
      checkpoint.Some? && states[i].known[id].time < checkpoint.value
  {
    RunKeepsInv(states, events, i);
    RemovedIsPrunable(states[i], states[i].plan.value, events[i].chunks, id);
  }

  /** A populated row stays populated until retention removes it. */
  lemma PopulatedStays(s: State, e: Event, server: nat, b: int)
    requires server in s.tracks && b in s.tracks[server].rows && s.tracks[server].rows[b] != {}
    ensures server in Step(s, e).tracks
    ensures b in Step(s, e).tracks[server].rows ==> Step(s, e).tracks[server].rows[b] != {}
    ensures b !in Step(s, e).tracks[server].rows ==>
      e.ApplyPrune? && s.plan.Some? && b < s.plan.value.cutoff && server !in s.plan.value.pending
  {
  }
}
