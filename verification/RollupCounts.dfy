/**
 Which samples the rollup counts, over whole runs: exactly when a stored sample
 was ever aggregated, a run in which retention removes one that never was, and
 exactly when a row equals the stored samples of its bucket.
 */
module RollupCounts {
  import opened Durations
  import opened Options
  import opened RollupBuckets
  import opened Rollup

  // -------------------------------------------------------------- membership

  /** The accepted samples of a server in a bucket. */
  function BucketIds(known: map<nat, Known>, server: nat, b: int): set<nat> {
    set id | id in known && known[id].server == server && b <= known[id].time < b + BUCKET
  }

  lemma ContentIs(s: State, server: nat, b: int)
    ensures Content(s, server, b) == s.raw * BucketIds(s.known, server, b)
  {
  }

  ghost predicate TrackKnown(known: map<nat, Known>, server: nat, rows: map<int, set<nat>>) {
    forall b | b in rows :: rows[b] <= BucketIds(known, server, b)
  }

  /** A row aggregates only accepted samples of its own server and bucket. */
  ghost predicate RowsKnown(s: State) {
    forall server | server in s.tracks :: TrackKnown(s.known, server, s.tracks[server].rows)
  }

  lemma RefreshKeepsKnown(s: State, server: nat, window: int)
    requires RowsKnown(s)
    ensures TrackKnown(s.known, server, RefreshTrack(s, server, window).rows)
  {
    var t := TrackOf(s, server);
    var from, closed := RollupStart(t.checkpoint, s.now, window), BucketStart(s.now);
    forall b | b in RefreshTrack(s, server, window).rows
      ensures RefreshTrack(s, server, window).rows[b] <= BucketIds(s.known, server, b)
    {
      MaterializeRows(s, server, t.rows, from, closed, b);
      ContentIs(s, server, b);
    }
  }

  lemma StepKeepsKnown(s: State, e: Event)
    requires RowsKnown(s)
    ensures RowsKnown(Step(s, e))
  {
    match e
    case Accept(id, server, time) =>
      forall v, b
        ensures id !in s.known ==> BucketIds(s.known, v, b) <= BucketIds(Step(s, e).known, v, b)
      {
      }
    case Refresh(server, window) => RefreshKeepsKnown(s, server, Window(window));
    case _ =>
  }

  lemma {:induction false} RunKeepsKnown(states: seq<State>, events: seq<Event>, i: nat)
    requires Run(states, events) && i < |states|
    ensures RowsKnown(states[i])
  {
    if i > 0 {
      RunKeepsKnown(states, events, i - 1);
      StepKeepsKnown(states[i - 1], events[i - 1]);
    }
  }

  /** Accepted samples are never forgotten or altered, and stored again never. */
  lemma {:induction false} KnownStays(states: seq<State>, events: seq<Event>, i: nat, j: nat, id: nat)
    requires Run(states, events) && i <= j < |states| && id in states[i].known
    ensures id in states[j].known && states[j].known[id] == states[i].known[id]
    ensures id in states[j].raw ==> id in states[i].raw
  {
    if i < j {
      KnownStays(states, events, i, j - 1, id);
      assert states[j] == Step(states[j - 1], events[j - 1]);
    }
  }

  // -------------------------------------------------------------- aggregation

  /** The step is a refresh of the server whose grid contains the bucket. */
  predicate Covering(s: State, e: Event, server: nat, b: int) {
    && e.Refresh? && e.server == server && Needs(s, server, Window(e.window))
    && InGrid(b, RollupStart(TrackOf(s, server).checkpoint, s.now, Window(e.window)), BucketStart(s.now))
  }

  predicate InRowOf(s: State, server: nat, b: int, id: nat) {
    server in s.tracks && b in s.tracks[server].rows && id in s.tracks[server].rows[b]
  }

  /** Only a covering refresh changes a row, apart from its removal. */
  lemma StepKeepsRow(s: State, e: Event, server: nat, b: int)
    requires server in Step(s, e).tracks && b in Step(s, e).tracks[server].rows && !Covering(s, e, server, b)
    ensures server in s.tracks && b in s.tracks[server].rows
    ensures s.tracks[server].rows[b] == Step(s, e).tracks[server].rows[b]
  {
    if e.Refresh? && e.server == server && Needs(s, server, Window(e.window)) {
      var t := TrackOf(s, server);
      MaterializeRows(s, server, t.rows, RollupStart(t.checkpoint, s.now, Window(e.window)), BucketStart(s.now), b);
    }
  }

  /** A covering refresh writes the stored samples of the bucket, unless that would empty a row. */
  lemma CoveringWrites(s: State, e: Event, server: nat, b: int)
    requires Covering(s, e, server, b)
    ensures server in Step(s, e).tracks && b in Step(s, e).tracks[server].rows
    ensures Step(s, e).tracks[server].rows[b] == Upserted(TrackOf(s, server).rows, b, Content(s, server, b))
  {
    var t := TrackOf(s, server);
    MaterializeRows(s, server, t.rows, RollupStart(t.checkpoint, s.now, Window(e.window)), BucketStart(s.now), b);
  }

  ghost predicate EverInRow(states: seq<State>, i: nat, server: nat, b: int, id: nat)
    requires i < |states|
  {
    exists j | 0 <= j <= i :: InRowOf(states[j], server, b, id)
  }

  ghost predicate EverCovered(states: seq<State>, events: seq<Event>, i: nat, server: nat, b: int, id: nat)
    requires |states| == |events| + 1 && i < |states|
  {
    exists j | 0 <= j < i :: id in states[j].raw && Covering(states[j], events[j], server, b)
  }

  lemma {:induction false} InRowWasCovered(states: seq<State>, events: seq<Event>, i: nat, server: nat, b: int, id: nat)
    requires Run(states, events) && i < |states| && InRowOf(states[i], server, b, id)
    ensures EverCovered(states, events, i, server, b, id)
  {
    if i > 0 {
      var s, e := states[i - 1], events[i - 1];
      if Covering(s, e, server, b) && id in s.raw {
        assert Covering(states[i - 1], events[i - 1], server, b);
      } else {
        if Covering(s, e, server, b) {
          CoveringWrites(s, e, server, b);
        } else {
          StepKeepsRow(s, e, server, b);
        }
        assert InRowOf(s, server, b, id);
        InRowWasCovered(states, events, i - 1, server, b, id);
        var j :| 0 <= j < i - 1 && id in states[j].raw && Covering(states[j], events[j], server, b);
      }
    }
  }

  lemma CoveredIsCounted(states: seq<State>, events: seq<Event>, j: nat, i: nat, id: nat)
    requires Run(states, events) && j < i < |states| && id in states[i].known && id in states[j].raw
    requires Covering(states[j], events[j], states[i].known[id].server, BucketStart(states[i].known[id].time))
    ensures InRowOf(states[j + 1], states[i].known[id].server, BucketStart(states[i].known[id].time), id)
  {
    var k := states[i].known[id];
    RunKeepsInv(states, events, j);
    KnownStays(states, events, j, i, id);
    CoveringWrites(states[j], events[j], k.server, BucketStart(k.time));
    assert id in Content(states[j], k.server, BucketStart(k.time));
  }

  /**
   A stored sample has been in its row if and only if some refresh of its server,
   after its acceptance, started at or before its bucket and closed it.
   */
  lemma AggregatedIff(states: seq<State>, events: seq<Event>, i: nat, id: nat)
    requires Run(states, events) && i < |states| && id in states[i].known && id in states[i].raw
    ensures var k := states[i].known[id];
      EverInRow(states, i, k.server, BucketStart(k.time), id)
      <==> EverCovered(states, events, i, k.server, BucketStart(k.time), id)
  {
    var k := states[i].known[id];
    var b := BucketStart(k.time);
    if EverInRow(states, i, k.server, b, id) {
      var j :| 0 <= j <= i && InRowOf(states[j], k.server, b, id);
      InRowWasCovered(states, events, j, k.server, b, id);
      var m :| 0 <= m < j && id in states[m].raw && Covering(states[m], events[m], k.server, b);
    } else if EverCovered(states, events, i, k.server, b, id) {
      var j :| 0 <= j < i && id in states[j].raw && Covering(states[j], events[j], k.server, b);
      CoveredIsCounted(states, events, j, i, id);
    }
  }

  /** So a prune removes only aggregated samples exactly when each removed one was covered before. */
  lemma PrunedWasAggregatedIff(states: seq<State>, events: seq<Event>, i: nat, id: nat)
    requires Run(states, events) && i < |events| && id in states[i].raw && id !in states[i + 1].raw
    ensures id in states[i].known
    ensures var k := states[i].known[id];
      EverInRow(states, i, k.server, BucketStart(k.time), id)
      <==> EverCovered(states, events, i, k.server, BucketStart(k.time), id)
  {
    RunKeepsInv(states, events, i);
    AggregatedIff(states, events, i, id);
  }

  /** A refresh within 23 hours of the acceptance covers, so a hub that refreshes hourly aggregates before it prunes. */
  lemma TimelyRefreshCovers(states: seq<State>, events: seq<Event>, i: nat, id: nat, window: int)
    requires Run(states, events) && i < |events| && id in states[i].known
    requires states[i].now <= states[i].known[id].at + 23 * HOUR && REFRESH_WINDOW <= Window(window)
    requires BucketStart(states[i].known[id].time) + BUCKET <= BucketStart(states[i].now)
    requires events[i] == Refresh(states[i].known[id].server, window)
    ensures id in states[i].raw
    ensures Covering(states[i], events[i], states[i].known[id].server, BucketStart(states[i].known[id].time))
  {
    RunKeepsInv(states, events, i);
    var s, k := states[i], states[i].known[id];
    assert KnownOk(k, s.now);
    var from := RollupStart(TrackOf(s, k.server).checkpoint, s.now, Window(window));
    StartReaches(TrackOf(s, k.server).checkpoint, s.now, Window(window));
    FreshBucket(k, s.now, Window(window), from);
    AlignedInGrid(BucketStart(k.time), from, BucketStart(s.now));
  }

  // ------------------------------------------------- a sample lost uncounted

  /** Day one hundred, on a bucket boundary. */
  const T := 100 * DAY

  /**
   A refresh confirms the buckets up to T; a sample of T - 24 h arrives; the next
   refresh runs only at T + 40 h and starts after its bucket; at T + 36 days the
   prune removes it.
   */
  const LATE: seq<Event> := [
    Tick(T), Accept(0, 1, T - 6 * HOUR), Refresh(1, REFRESH_WINDOW), Accept(1, 1, T - 24 * HOUR),
    Tick(T + 40 * HOUR), Refresh(1, REFRESH_WINDOW), Tick(T + 36 * DAY), PlanPrune, ApplyPrune([])]

  function Execute(s: State, events: seq<Event>): seq<State>
    decreases |events|
  {
    if events == [] then [s] else [s] + Execute(Step(s, events[0]), events[1..])
  }

  lemma {:induction false} ExecuteSteps(s: State, events: seq<Event>)
    ensures |Execute(s, events)| == |events| + 1 && Execute(s, events)[0] == s
    ensures forall i | 0 <= i < |events| :: Execute(s, events)[i + 1] == Step(Execute(s, events)[i], events[i])
    decreases |events|
  {
    if events != [] {
      ExecuteSteps(Step(s, events[0]), events[1..]);
    }
  }

  lemma FirstRefresh(s: State)
    requires s == State(T, map[0 := Known(1, T - 6 * HOUR, T)], {0}, map[], None)
    ensures var t := Step(s, Refresh(1, REFRESH_WINDOW));
      t == s.(tracks := t.tracks) && 1 in t.tracks && t.tracks[1].checkpoint == Some(T)
  {
    assert 0 in s.raw && s.known[0].server == 1;
  }

  lemma SecondRefresh(s: State)
    requires s.now == T + 40 * HOUR && 1 in s.tracks && s.tracks[1].checkpoint == Some(T)
    ensures var t := Step(s, Refresh(1, REFRESH_WINDOW));
      t == s.(tracks := t.tracks) && 1 in t.tracks && t.tracks[1].checkpoint == Some(T + 36 * HOUR)
    ensures !Covering(s, Refresh(1, REFRESH_WINDOW), 1, T - 24 * HOUR)
  {
  }

  lemma LatePrune(s: State)
    requires s.now == T + 36 * DAY && s.raw == {0, 1} && 1 in s.tracks && s.tracks[1].checkpoint == Some(T + 36 * HOUR)
    requires s.known == map[0 := Known(1, T - 6 * HOUR, T), 1 := Known(1, T - 24 * HOUR, T)]
    ensures 1 !in Step(Step(s, PlanPrune), ApplyPrune([])).raw
  {
    var t := Step(s, PlanPrune);
    assert t.plan.value.cutoff == T + DAY && !Pending(s, 1, T + DAY);
    assert Removed(t, t.plan.value, [], s.known[1]);
  }

  ghost predicate Arrived(s: State) {
    && s.known == map[0 := Known(1, T - 6 * HOUR, T), 1 := Known(1, T - 24 * HOUR, T)]
    && s.raw == {0, 1} && 1 in s.tracks
  }

  lemma LateArrives(states: seq<State>)
    requires Run(states, LATE)
    ensures forall i | 0 <= i < 4 :: 1 !in states[i].raw
    ensures Arrived(states[4]) && states[4].now == T && states[4].tracks[1].checkpoint == Some(T)
  {
    assert states[1] == Step(states[0], LATE[0]) && states[2] == Step(states[1], LATE[1]);
    assert states[2] == State(T, map[0 := Known(1, T - 6 * HOUR, T)], {0}, map[], None);
    FirstRefresh(states[2]);
    assert states[3] == Step(states[2], LATE[2]) && states[4] == Step(states[3], LATE[3]);
  }

  lemma LateWaits(states: seq<State>)
    requires Run(states, LATE) && Arrived(states[4]) && states[4].now == T && states[4].tracks[1].checkpoint == Some(T)
    ensures Arrived(states[7]) && states[7].now == T + 36 * DAY && states[7].tracks[1].checkpoint == Some(T + 36 * HOUR)
    ensures !Covering(states[5], LATE[5], 1, T - 24 * HOUR)
  {
    assert states[5] == Step(states[4], LATE[4]);
    SecondRefresh(states[5]);
    assert states[6] == Step(states[5], LATE[5]) && states[7] == Step(states[6], LATE[6]);
  }

  /** Retention can remove a sample that no row ever counted. */
  lemma LateSampleLost() returns (states: seq<State>)
    ensures Run(states, LATE)
    ensures 1 in states[8].raw && 1 !in states[9].raw && 1 in states[8].known
    ensures !EverInRow(states, 8, 1, T - 24 * HOUR, 1)
  {
    states := Execute(START, LATE);
    ExecuteSteps(START, LATE);
    LateArrives(states);
    LateWaits(states);
    LatePrune(states[7]);
    assert states[8] == Step(states[7], LATE[7]) && states[9] == Step(states[8], LATE[8]);
    NeverCovered(states);
    AggregatedIff(states, LATE, 8, 1);
  }

  lemma NeverCovered(states: seq<State>)
    requires Run(states, LATE) && (forall i | 0 <= i < 4 :: 1 !in states[i].raw)
    requires !Covering(states[5], LATE[5], 1, T - 24 * HOUR)
    ensures !EverCovered(states, LATE, 8, 1, T - 24 * HOUR, 1)
    ensures BucketStart(T - 24 * HOUR) == T - 24 * HOUR
  {
    assert !LATE[4].Refresh? && !LATE[6].Refresh? && !LATE[7].Refresh?;
  }

  // --------------------------------------------------------- rows and buckets

  lemma {:induction false} RowUnchanged(states: seq<State>, events: seq<Event>, i: nat, j: nat, server: nat, b: int)
    requires Run(states, events) && i <= j < |states|
    requires server in states[j].tracks && b in states[j].tracks[server].rows
    requires forall m | i <= m < j :: !Covering(states[m], events[m], server, b)
    ensures server in states[i].tracks && b in states[i].tracks[server].rows
    ensures states[i].tracks[server].rows[b] == states[j].tracks[server].rows[b]
  {
    if i < j {
      StepKeepsRow(states[j - 1], events[j - 1], server, b);
      RowUnchanged(states, events, i, j - 1, server, b);
    }
  }

  /**
   A row equals the stored samples of its bucket if and only if, since its last
   refresh, no sample still stored was accepted into the bucket and none of the
   row's samples was pruned.
   */
  lemma RowEqualsBucketIff(states: seq<State>, events: seq<Event>, i: nat, j: nat, server: nat, b: int)
    requires Run(states, events) && i < j < |states| && Covering(states[i], events[i], server, b)
    requires forall m | i < m < j :: !Covering(states[m], events[m], server, b)
    requires server in states[j].tracks && b in states[j].tracks[server].rows
    ensures states[j].tracks[server].rows[b] == Content(states[j], server, b)
      <==> Content(states[j], server, b) <= states[i].known.Keys && states[j].tracks[server].rows[b] <= states[j].raw
  {
    var row, content := states[j].tracks[server].rows[b], Content(states[j], server, b);
    RowUnchanged(states, events, i + 1, j, server, b);
    CoveringWrites(states[i], events[i], server, b);
    RunKeepsKnown(states, events, j);
    ContentIs(states[j], server, b);
    if content <= states[i].known.Keys && row <= states[j].raw {
      forall id | id in content
        ensures id in row
      {
        KnownStays(states, events, i, j, id);
        assert id in Content(states[i], server, b);
      }
      assert row <= content;
    }
    if row == content {
      RunKeepsKnown(states, events, i + 1);
      assert TrackKnown(states[i + 1].known, server, states[i + 1].tracks[server].rows);
      assert states[i + 1].known == states[i].known;
    }
  }
}
