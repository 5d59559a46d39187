/** Rollup maintenance as it runs: the refresh loop over servers, and a planned prune applied later. */
module RollupStore {
  import opened Durations
  import opened Options
  import opened Rollup
  import opened RollupBuckets

  /** Refresh the servers in turn. */
  ghost function Refreshed(s: State, servers: seq<nat>, window: int): State {
    if servers == [] then s
    else RefreshStep(Refreshed(s, servers[..|servers| - 1], window), servers[|servers| - 1], window)
  }

  /** Refreshing some servers changes neither the samples nor another server's need. */
  lemma {:induction false} NeedsStay(s: State, servers: seq<nat>, window: int, server: nat)
    requires server !in servers
    ensures var t := Refreshed(s, servers, window);
      && t == s.(tracks := t.tracks) && TrackOf(t, server) == TrackOf(s, server)
      && Needs(t, server, Window(window)) == Needs(s, server, Window(window))
  {
    if servers != [] {
      NeedsStay(s, servers[..|servers| - 1], window, server);
    }
  }

  lemma {:induction false} RefreshedKeepsInv(s: State, servers: seq<nat>, window: int)
    requires Inv(s)
    ensures Inv(Refreshed(s, servers, window))
  {
    if servers != [] {
      RefreshedKeepsInv(s, servers[..|servers| - 1], window);
      RefreshKeepsInv(Refreshed(s, servers[..|servers| - 1], window), servers[|servers| - 1], window);
    }
  }

  ghost predicate Once(servers: seq<nat>) { forall i | 0 <= i < |servers| :: servers[i] !in servers[..i] }

  /** Recomputing a server's rows does not depend on the other servers' tracks. */
  lemma SameRefresh(s: State, t: State, server: nat, window: int)
    requires t == s.(tracks := t.tracks) && TrackOf(t, server) == TrackOf(s, server)
    ensures RefreshTrack(t, server, window) == RefreshTrack(s, server, window)
  {
    assert forall b :: Content(t, server, b) == Content(s, server, b);
  }

  /** A selected server is refreshed exactly once, from the state before the cycle. */
  lemma {:induction false} RefreshedOnce(s: State, servers: seq<nat>, window: int, server: nat)
    requires Once(servers) && server in servers && Needs(s, server, Window(window))
    ensures TrackOf(Refreshed(s, servers, window), server) == RefreshTrack(s, server, Window(window))
  {
    var n := |servers| - 1;
    var before := servers[..n];
    assert Once(before) by {
      assert forall i | 0 <= i < n :: before[i] == servers[i] && before[..i] == servers[..i];
    }
    if servers[n] == server {
      NeedsStay(s, before, window, server);
      SameRefresh(s, Refreshed(s, before, window), server, Window(window));
    } else {
      RefreshedOnce(s, before, window, server);
    }
  }

  ghost predicate StoredSince(s: State, server: nat, since: int) {
    exists id | id in s.raw && id in s.known :: s.known[id].server == server && since <= s.known[id].time
  }

  /** The server still has a stored sample below the cutoff that no checkpoint confirms. */
  ghost predicate Unaggregated(s: State, server: nat, cutoff: int) {
    exists id | id in s.raw && id in s.known :: s.known[id].server == server && s.known[id].time < cutoff && !Before(s, s.known[id])
  }

  /** The sample lies before its server's checkpoint. */
  predicate Before(s: State, k: Known) {
    k.server in s.tracks && s.tracks[k.server].checkpoint.Some? && k.time < s.tracks[k.server].checkpoint.value
  }

  /** Exactly the rows before the cutoff are gone, if there is one, and nothing else changed. */
  ghost predicate KeptRows(a: Track, b: Track, cutoff: Option<int>) {
    && b.checkpoint == a.checkpoint && b.first == a.first
    && (forall bucket :: bucket in b.rows <==> bucket in a.rows && (cutoff.Some? ==> cutoff.value <= bucket))
    && (forall bucket | bucket in b.rows :: b.rows[bucket] == a.rows[bucket])
  }

  /** Where a cycle leaves a server's checkpoint. */
  ghost function CheckpointAfter(s: State, server: nat, window: int): Option<int> {
    var closed := BucketStart(s.now);
    var reach := if 0 < window <= 35 * DAY then window else 48 * HOUR;
    if TrackOf(s, server).checkpoint.Some? || (StoredSince(s, server, closed - 35 * DAY) && s.now - reach < closed)
    then Some(closed) else None
  }

  /** The three reasons to serve a server: recent samples, a late checkpoint, or retained samples and no checkpoint. */
  lemma NeedsIff(s: State, server: nat, window: int)
    ensures Needs(s, server, window) <==>
      || StoredSince(s, server, BucketStart(s.now) - window)
      || (server in s.tracks && s.tracks[server].checkpoint.Some? && s.tracks[server].checkpoint.value < BucketStart(s.now))
      || ((server in s.tracks ==> s.tracks[server].checkpoint.None?) && StoredSince(s, server, BucketStart(s.now) - 35 * DAY))
  {
  }

  /** When a refresh has anything to compute. */
  lemma StartsBefore(checkpoint: Option<int>, now: int, window: int)
    requires checkpoint.Some? ==> Aligned(checkpoint.value) && checkpoint.value <= BucketStart(now)
    ensures RollupStart(checkpoint, now, window) < BucketStart(now)
      <==> now - window < BucketStart(now) || (checkpoint.Some? && checkpoint.value < BucketStart(now))
  {
  }

  lemma NeedsFirst(s: State, server: nat, window: int)
    requires TrackOf(s, server).checkpoint.None?
    ensures Needs(s, server, Window(window)) <==> StoredSince(s, server, BucketStart(s.now) - BACKFILL_WINDOW)
  {
  }

  lemma NeedsLate(s: State, server: nat, window: int)
    requires TrackOf(s, server).checkpoint.Some? && !Needs(s, server, window)
    ensures BucketStart(s.now) <= TrackOf(s, server).checkpoint.value
  {
  }

  lemma CheckpointFollows(s: State, server: nat, window: int)
    requires Inv(s)
    ensures CheckpointAfter(s, server, window)
      == (if Needs(s, server, Window(window)) then RefreshTrack(s, server, Window(window)) else TrackOf(s, server)).checkpoint
  {
    var t := TrackOf(s, server);
    if t.checkpoint.None? {
      NeedsFirst(s, server, window);
    } else {
      assert server in s.tracks && Contiguous(s.tracks[server], s.now);
      CheckpointClosed(t.checkpoint.value, s.now);
      if !Needs(s, server, Window(window)) {
        NeedsLate(s, server, Window(window));
      }
    }
    StartsBefore(t.checkpoint, s.now, Window(window));
  }

  /** A window shorter than the open bucket's age gives a new server no checkpoint, although it is selected. */
  lemma ShortWindowStalls()
    ensures var s := State(7 * HOUR, map[1 := Known(1, 6 * HOUR, 7 * HOUR)], {1}, map[], None);
      && Stored(s) && Needs(s, 1, Window(MINUTE))
      && TrackOf(RefreshStep(s, 1, MINUTE), 1).checkpoint.None?
  {
    var s := State(7 * HOUR, map[1 := Known(1, 6 * HOUR, 7 * HOUR)], {1}, map[], None);
    assert 1 in s.raw && 1 in s.known;
  }

  class MetricRepo {
    var now: int
    var known: map<nat, Known>
    var raw: set<nat>
    var tracks: map<nat, Track>
    var plan: Option<Plan>

    constructor ()
      ensures Valid() && Value() == START
    {
      now, known, raw, tracks, plan := 0, map[], {}, map[], None;
    }

    function Value(): State
      reads this
    {
      State(now, known, raw, tracks, plan)
    }

    ghost predicate Valid()
      reads this
    {
      Inv(Value())
    }

    /**
     Every server that needs it, each materialized and checkpointed in its own
     transaction. Afterwards each of them is contiguous, and no sample is touched.
     */
    method RefreshRollups(window: int) returns (servers: seq<nat>)
      requires Valid()
      modifies this`tracks
      ensures Valid() && Value() == Refreshed(old(Value()), servers, window)
      ensures forall server :: server in servers <==> Needs(old(Value()), server, Window(window))
      ensures raw == old(raw) && forall server | server in tracks :: Contiguous(tracks[server], now)
      ensures forall server :: TrackOf(Value(), server).checkpoint == CheckpointAfter(old(Value()), server, window)
    {
      ghost var s := Value();
      servers := ServersNeedingRollup(Value(), Window(window));
      RefreshedKeepsInv(Value(), servers, window);
      RefreshEach(servers, window);
      forall server
        ensures TrackOf(Value(), server).checkpoint == CheckpointAfter(s, server, window)
      {
        CheckpointFollows(s, server, window);
        if server in servers {
          RefreshedOnce(s, servers, window, server);
        } else {
          NeedsStay(s, servers, window, server);
        }
      }
    }

    method RefreshEach(servers: seq<nat>, window: int)
      requires forall i | 0 <= i < |servers| :: Needs(Value(), servers[i], Window(window)) && servers[i] !in servers[..i]
      modifies this`tracks
      ensures Value() == Refreshed(old(Value()), servers, window)
    {
      for i := 0 to |servers|
        invariant Value() == Refreshed(old(Value()), servers[..i], window)
      {
        var server := servers[i];
        assert servers[..i + 1][..i] == servers[..i];
        NeedsStay(old(Value()), servers[..i], window, server);
        var t := RefreshTrack(Value(), server, Window(window));
        tracks := tracks[server := t];
      }
      assert servers[..|servers|] == servers;
    }

    /** A dry run: the cutoff, and the servers with unaggregated samples below it. */
    method PlanRetention()
      requires Valid()
      modifies this`plan
      ensures Valid() && Value() == Step(old(Value()), PlanPrune)
      ensures plan.Some? && plan.value.cutoff == now - 35 * DAY
      ensures forall server :: server in plan.value.pending <==> Unaggregated(old(Value()), server, now - 35 * DAY)
      ensures forall id | id in raw && id in known && known[id].time < plan.value.cutoff && known[id].server !in plan.value.pending ::
        Before(Value(), known[id])
    {
      StepKeepsInv(Value(), PlanPrune);
      plan := PlanStep(Value()).plan;
    }

    /**
     Apply the plan: drop whole chunks, then delete rows and rollups below the
     cutoff. What goes was before its server's checkpoint and of no pending server.
     */
    method PruneMetrics(chunks: seq<Chunk>) returns (dropped: nat)
      requires Valid() && plan.Some? && ChunksBelow(chunks, plan.value.cutoff)
      modifies this
      ensures Valid() && Value() == ApplyStep(old(Value()), chunks)
      ensures dropped == Prefix(old(Value()), chunks, old(plan).value.pending)
      ensures raw <= old(raw) && known == old(known)
      ensures forall id | id in old(raw) && id !in raw :: id in known && Before(old(Value()), known[id])
      ensures forall id | id in old(raw) && id in known ::
        id !in raw <==> known[id].time < old(plan).value.cutoff && known[id].server !in old(plan).value.pending
      ensures tracks.Keys == old(tracks).Keys && forall server | server in tracks ::
        KeptRows(old(tracks)[server], tracks[server], if server in old(plan).value.pending then None else Some(old(plan).value.cutoff))
    {
      ghost var before := Value();
      ApplyKeepsInv(before, chunks);
      forall id | id in raw && id !in Kept(before, plan.value, chunks)
        ensures Prunable(plan.value, known[id])
      {
        RemovedIsPrunable(before, plan.value, chunks, id);
      }
      forall id | id in raw && id in known
        ensures Removed(before, plan.value, chunks, known[id])
          <==> known[id].time < plan.value.cutoff && known[id].server !in plan.value.pending
      {
        RemovedIff(before, plan.value, chunks, id);
      }
      dropped := PruneLocked(chunks);
    }

    method PruneLocked(chunks: seq<Chunk>) returns (dropped: nat)
      requires plan.Some? && ChunksBelow(chunks, plan.value.cutoff)
      modifies this
      ensures Value() == ApplyStep(old(Value()), chunks) && raw == Kept(old(Value()), old(plan).value, chunks)
      ensures dropped == Prefix(old(Value()), chunks, old(plan).value.pending)
    {
      var p := plan.value;
      ghost var before := Value();
      var boundary: Option<int>;
      dropped, boundary := DroppableChunks(Value(), chunks, p.pending);
      if boundary.Some? {
        raw := set id | id in raw && (id in known ==> !Dropped(chunks, boundary.value, known[id].time));
      }
      raw := set id | id in raw && (id in known ==> !(known[id].time < p.cutoff && known[id].server !in p.pending));
      assert raw == Kept(before, p, chunks);
      tracks := PrunedTracks(tracks, p);
      plan := None;
    }
  }

  lemma OnceMore(servers: seq<nat>, server: nat)
    requires Once(servers) && server !in servers
    ensures Once(servers + [server])
  {
    forall i | 0 <= i < |servers|
      ensures (servers + [server])[..i] == servers[..i]
    {
    }
    assert (servers + [server])[..|servers|] == servers;
  }

  /** The servers a refresh cycle serves, each once: those with samples or a checkpoint that need it. */
  method ServersNeedingRollup(s: State, window: int) returns (servers: seq<nat>)
    ensures forall server :: server in servers <==> Needs(s, server, window)
    ensures Once(servers)
  {
    servers := [];
    var rest := (set id | id in s.raw && id in s.known :: s.known[id].server) + s.tracks.Keys;
    ghost var all := rest;
    assert forall server | Needs(s, server, window) :: server in all;
    while rest != {}
      invariant rest <= all
      invariant forall server :: server in servers <==> server in all - rest && Needs(s, server, window)
      invariant Once(servers)
      decreases |rest|
    {
      var server :| server in rest;
      if Needs(s, server, window) {
        OnceMore(servers, server);
        servers := servers + [server];
      }
      rest := rest - {server};
    }
  }

  /** Walk the chunks in order up to the first that still holds a pending server's data. */
  method DroppableChunks(s: State, chunks: seq<Chunk>, pending: set<nat>) returns (n: nat, boundary: Option<int>)
    ensures n == Prefix(s, chunks, pending) && boundary == Boundary(s, chunks, pending)
    ensures n <= |chunks| && (boundary == if n == 0 then None else Some(chunks[n - 1].end))
    ensures forall id, i | id in s.raw && id in s.known && 0 <= i < n && s.known[id].server in pending ::
      !(chunks[i].start <= s.known[id].time < chunks[i].end)
    ensures n < |chunks| ==> exists id | id in s.raw && id in s.known ::
      s.known[id].server in pending && chunks[n].start <= s.known[id].time < chunks[n].end
  {
    n, boundary := 0, None;
    while n < |chunks|
      invariant n <= |chunks| && Prefix(s, chunks, pending) == n + Prefix(s, chunks[n..], pending)
      invariant boundary == if n == 0 then None else Some(chunks[n - 1].end)
      invariant forall i | 0 <= i < n :: !Holds(s, chunks[i], pending)
    {
      if Holds(s, chunks[n], pending) {
        break;
      }
      assert chunks[n..][1..] == chunks[n + 1..];
      boundary := Some(chunks[n].end);
      n := n + 1;
    }
  }
}
