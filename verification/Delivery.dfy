/**
 The whole delivery protocol: an agent with its outbox, an unreliable connection
 and the hub's store, run through any sequence of operations and faults.
 */
module Delivery {
  import opened Durations
  import opened Options
  import opened Wire
  import HubStore
  import Outbox

  datatype Op =
    /** The collector hands a sample to the outbox. */
    | Capture(sample: Sample, size: nat, now: int)
    /** The transport sends a batch; the reply, if any, is now in flight. */
    | Send(now: int, reached: bool, hubNow: int, ingestNow: int, commit: int, hub: Hub)
    /** The reply in flight arrives, or is lost. */
    | Deliver
    | LoseReply
    /** The agent process starts again, after a crash, a power loss or a stop. */
    | Restart(keep: set<string>, keepCounter: bool, now: int)
    /** The hub deletes old receipts. */
    | PurgeReceipts(now: int, commit: int)

  /** The clock reading and commit time of a hub transaction that the operation may cause. */
  predicate Transacts(op: Op) { op.Send? || op.PurgeReceipts? }

  function ReadAt(op: Op): int
    requires Transacts(op)
  {
    if op.Send? then op.ingestNow else op.now
  }

  /** Hub time over the operations: commits are ordered, and no clock reading is older than the lag. */
  ghost predicate TimelyOps(ops: seq<Op>, lag: int) {
    && (forall i, j | 0 <= i < j < |ops| && Transacts(ops[i]) && Transacts(ops[j]) :: ops[i].commit <= ops[j].commit)
    && (forall i | 0 <= i < |ops| && Transacts(ops[i]) :: ops[i].commit - lag <= ReadAt(ops[i]) <= ops[i].commit)
  }

  /** Sample IDs are unique: a captured ID always stands for the same sample. */
  ghost predicate GenuineOps(ops: seq<Op>, captured: map<string, Sample>) {
    forall i | 0 <= i < |ops| && ops[i].Capture? :: Outbox.Genuine(ops[i].sample, Some(captured))
  }

  /** The hub committed at most one transaction for the operation, with its times and genuine samples. */
  ghost predicate Commits(before: seq<HubStore.Event>, after: seq<HubStore.Event>, op: Op, origin: Outbox.Origin) {
    after == before || (|after| == |before| + 1 && after[..|before|] == before && CommitOf(after[|before|], op, origin))
  }

  ghost predicate CommitOf(e: HubStore.Event, op: Op, origin: Outbox.Origin) {
    && Transacts(op) && e.commit == op.commit && e.now == ReadAt(op)
    && (e.IngestEvent? ==> forall i | 0 <= i < |e.samples| :: Outbox.Genuine(e.samples[i], origin))
  }

  ghost function StoredIds(rows: seq<HubStore.Row>, server: nat): set<string> {
    set i | 0 <= i < |rows| && rows[i].server == server :: rows[i].sample.id
  }

  lemma StoredIdsGrow(rows: seq<HubStore.Row>, rows': seq<HubStore.Row>, server: nat)
    requires rows <= rows'
    ensures StoredIds(rows, server) <= StoredIds(rows', server)
  {
  }

  lemma RowIsStored(t: HubStore.Tables, server: nat, id: string)
    requires HubStore.HasRow(t, HubStore.Key(server, id))
    ensures id in StoredIds(t.rows, server)
  {
  }

  ghost predicate Ingested(e: HubStore.Event, now: int, commit: int, origin: Outbox.Origin) {
    e.IngestEvent? && e.now == now && e.commit == commit
    && forall i | 0 <= i < |e.samples| :: Outbox.Genuine(e.samples[i], origin)
  }

  lemma KeptGenuine(batch: seq<Sample>, now: int, origin: Outbox.Origin)
    requires forall i | 0 <= i < |batch| :: Outbox.Genuine(batch[i], origin)
    ensures forall i | 0 <= i < |HubStore.Kept(batch, now)| :: Outbox.Genuine(HubStore.Kept(batch, now)[i], origin)
  {
    HubStore.SplitByWindow(batch, now);
    forall i | 0 <= i < |HubStore.Kept(batch, now)|
      ensures Outbox.Genuine(HubStore.Kept(batch, now)[i], origin)
    {
      assert HubStore.Kept(batch, now)[i] in batch;
    }
  }

  lemma EventAppended(before: seq<HubStore.Event>, e: HubStore.Event)
    ensures (before + [e])[..|before|] == before && (before + [e])[|before|] == e
  {
  }

  // ------------------------------------------------------------- one request

  /** The hub's answers to one request, apart from its samples. */
  datatype Hub = Hub(open: bool, slot: bool, active: bool, outcome: HubStore.DbOutcome, current: bool)

  /** The batch was stored and the agent is told so. */
  ghost predicate Acknowledges(hub: Hub, batch: seq<Sample>, hubNow: int, ingestNow: int) {
    hub.open && hub.slot && hub.current
    && HubStore.SeenCommitted(HubStore.Kept(batch, hubNow), ingestNow, hub.active, hub.outcome)
  }

  /** What the reply settles: the stored samples and the ones that can never be accepted. */
  ghost function AckedIds(hub: Hub, batch: seq<Sample>, hubNow: int, ingestNow: int): set<string> {
    if Acknowledges(hub, batch, hubNow, ingestNow) then SampleIds(HubStore.Kept(batch, hubNow)) else {}
  }

  ghost function RejectedIds(hub: Hub, batch: seq<Sample>, hubNow: int): set<string> {
    if hub.open then SampleIds(HubStore.Rejected(batch, hubNow)) else {}
  }

  /** The reply acknowledges exactly what was seen to commit and rejects exactly what is out of the window. */
  ghost predicate Answers(r: Response, hub: Hub, batch: seq<Sample>, hubNow: int, ingestNow: int) {
    && Outbox.ToSet(r.ack) == AckedIds(hub, batch, hubNow, ingestNow)
    && Outbox.ToSet(r.rejected) == RejectedIds(hub, batch, hubNow)
  }

  lemma IdsAsSet(samples: seq<Sample>)
    ensures Outbox.ToSet(HubStore.Ids(samples)) == SampleIds(samples)
  {
    forall i | 0 <= i < |samples|
      ensures samples[i].id in Outbox.ToSet(HubStore.Ids(samples))
    {
      assert HubStore.Ids(samples)[i] == samples[i].id;
    }
  }

  /** Every rejected sample of a sent batch is one entry of the queue that the acknowledgement leaves. */
  lemma RejectedCount(es: seq<Outbox.Entry>, names: set<string>, batch: seq<Sample>, now: int, acked: set<string>)
    requires Outbox.Queue(es, names) && Outbox.IsBatch(batch, es) && es != []
    requires acked == {} || acked == SampleIds(HubStore.Kept(batch, now))
    ensures Outbox.CountIn(Outbox.Without(es, acked), SampleIds(HubStore.Rejected(batch, now)))
      == |HubStore.Rejected(batch, now)|
  {
    Outbox.BatchIds(batch, es, names);
    HubStore.SplitIds(batch, now);
    IdsSize(HubStore.Rejected(batch, now));
    Outbox.CountListed(es, names, acked, SampleIds(HubStore.Rejected(batch, now)));
  }

  /** What the settled samples of a sent batch leave of the queue. */
  lemma SettledQueue(es: seq<Outbox.Entry>, names: set<string>, hub: Hub, batch: seq<Sample>, hubNow: int, ingestNow: int)
    requires Outbox.Queue(es, names) && Outbox.IsBatch(batch, es) && es != []
    ensures Acknowledges(hub, batch, hubNow, ingestNow) ==>
      Outbox.Without(es, AckedIds(hub, batch, hubNow, ingestNow) + RejectedIds(hub, batch, hubNow)) == es[|batch| - 1..|es| - 1]
    ensures Outbox.CountIn(Outbox.Without(es, AckedIds(hub, batch, hubNow, ingestNow)), RejectedIds(hub, batch, hubNow))
      == if hub.open then |HubStore.Rejected(batch, hubNow)| else 0
  {
    Outbox.BatchGone(batch, es, names);
    HubStore.SplitIds(batch, hubNow);
    if hub.open {
      RejectedCount(es, names, batch, hubNow, AckedIds(hub, batch, hubNow, ingestNow));
    } else {
      Outbox.WithoutNone(Outbox.Without(es, AckedIds(hub, batch, hubNow, ingestNow)));
    }
  }

  /** One agent, its disk, the hub's store and at most one reply in flight. */
  class World {
    const server: nat
    const disk: Outbox.Disk
    const store: HubStore.Store
    var spool: Outbox.Spool
    var up: bool
    var reply: Option<Response>
    /** The IDs of the samples the outbox accepted with success. */
    var taken: set<string>

    constructor (server: nat, script: seq<Outbox.Fault>, ghost origin: Outbox.Origin)
      ensures Valid() && fresh(disk) && fresh(store) && fresh(spool)
      ensures taken == {} && this.server == server && disk.origin == origin && store.events == []
    {
      this.server := server;
      var d := new Outbox.Disk(script, origin);
      var h := new HubStore.Store();
      var q := new Outbox.Spool(d, [], 0, 0);
      disk, store, spool := d, h, q;
      up, reply, taken := false, None, {};
    }

    ghost predicate Valid()
      reads this, disk, store, spool
    {
      && spool.disk == disk
      && disk.Honest() && disk.Named()
      && (up ==> spool.Valid() && Outbox.Traced(spool.entries, disk.origin))
      && HubStore.Receipted(store.State()) && store.Recorded()
      && taken <= disk.accepted
      && disk.acked <= StoredIds(store.rows, server)
      && (reply.Some? ==> forall i | 0 <= i < |reply.value.ack| ::
            reply.value.ack[i] in StoredIds(store.rows, server))
    }

    /** Nothing silently lost: all but the counted samples are on disk or stored. */
    lemma NoSilentLoss()
      requires Valid()
      ensures exists lost: set<string> ::
        && taken <= lost + disk.files.Keys + StoredIds(store.rows, server)
        && |lost| <= disk.counter && |lost| <= disk.settledCounter
        && (up ==> |lost| <= spool.dropped <= disk.counter)
    {
    }

    method Capture(s: Sample, size: nat, now: int) returns (st: Outbox.Status)
      requires Valid() && up && Outbox.Genuine(s, disk.origin)
      modifies this, disk, spool
      ensures Valid() && spool == old(spool)
      ensures taken == if st.Fine? then old(taken) + {s.id} else old(taken)
      ensures st.Fine? ==> s.id in disk.accepted
    {
      st := spool.Add(s, size, now);
      up := !st.Crashed?;
      if st.Fine? {
        taken := taken + {s.id};
      }
    }

    method Send(now: int, reached: bool, hubNow: int, ingestNow: int, ghost commit: int, hub: Hub)
      returns (ghost batch: seq<Sample>)
      requires Valid() && up
      modifies this, disk, spool, store
      ensures Valid() && spool == old(spool) && taken == old(taken)
      ensures old(store.rows) <= store.rows
      ensures store.events == old(store.events) ||
        (|store.events| == |old(store.events)| + 1 && store.events[..|old(store.events)|] == old(store.events)
         && Ingested(store.events[|old(store.events)|], ingestNow, commit, disk.origin))
      ensures old(disk.Reliable()) ==>
        && up && disk.Reliable() && spool.Prepared(old(spool.entries), old(spool.dropped), now)
        && Outbox.IsBatch(batch, spool.entries)
        && (batch == [] ==> reply == old(reply))
        && (reached && batch != [] ==> reply.Some? && Answers(reply.value, hub, batch, hubNow, ingestNow))
    {
      var st, out := spool.Batch(now);
      up, batch := !st.Crashed?, out;
      if !st.Fine? || out == [] || !reached {
        return;
      }
      SendBatch(out, hubNow, ingestNow, commit, hub);
    }

    /** The hub handles the batch; its reply, with only stored IDs acknowledged, is in flight. */
    method SendBatch(batch: seq<Sample>, hubNow: int, ingestNow: int, ghost commit: int, hub: Hub)
      requires Valid() && forall i | 0 <= i < |batch| :: Outbox.Genuine(batch[i], disk.origin)
      modifies this`reply, store
      ensures Valid() && old(store.rows) <= store.rows
      ensures reply.Some? && Answers(reply.value, hub, batch, hubNow, ingestNow)
      ensures store.events == old(store.events) ||
        (|store.events| == |old(store.events)| + 1 && store.events[..|old(store.events)|] == old(store.events)
         && Ingested(store.events[|old(store.events)|], ingestNow, commit, disk.origin))
    {
      ghost var rows, events := store.rows, store.events;
      var r := store.Receive(server, batch, hubNow, ingestNow, commit, hub.open, hub.slot, hub.active, hub.outcome, hub.current);
      StoredIdsGrow(rows, store.rows, server);
      forall i | 0 <= i < |r.ack| ensures r.ack[i] in StoredIds(store.rows, server) {
        RowIsStored(store.State(), server, r.ack[i]);
      }
      KeptGenuine(batch, hubNow, disk.origin);
      EventAppended(events, HubStore.IngestEvent(server, HubStore.Kept(batch, hubNow), ingestNow, commit));
      IdsAsSet(HubStore.Kept(batch, hubNow));
      IdsAsSet(HubStore.Rejected(batch, hubNow));
      reply := Some(r);
    }

    /** The client acknowledges first and handles rejections only if that worked. */
    method Deliver()
      requires Valid() && up
      modifies this, disk, spool
      ensures Valid() && spool == old(spool) && taken == old(taken) && reply.None?
      ensures old(disk.Reliable()) ==> up && disk.Reliable()
      ensures old(reply.None?) ==> spool.entries == old(spool.entries) && spool.dropped == old(spool.dropped)
      ensures old(disk.Reliable() && reply.Some?) ==>
        spool.Settled(old(spool.entries), old(spool.dropped), Outbox.ToSet(old(reply.value.ack)), Outbox.ToSet(old(reply.value.rejected)))
    {
      if reply.None? {
        return;
      }
      var r := reply.value;
      reply := None;
      var st := spool.Settle(r.ack, r.rejected);
      up := !st.Crashed?;
    }

    /**
     One undisturbed round trip: the queue is pruned, a batch is sent, and exactly
     the entries that the reply settles leave. When the hub stored the batch, all
     of it leaves, and what remains is the backlog that did not fit, in order.
     */
    method Exchange(now: int, hubNow: int, ingestNow: int, ghost commit: int, hub: Hub)
      returns (ghost queued: seq<Outbox.Entry>, ghost batch: seq<Sample>)
      requires Valid() && up && disk.Reliable()
      modifies this, disk, spool, store
      ensures Valid() && up && disk.Reliable() && spool == old(spool) && taken == old(taken)
      ensures spool.Pruned(old(spool.entries), queued, now) && !Outbox.Prunable(queued, now - spool.age, spool.limit)
      ensures Outbox.IsBatch(batch, queued)
      ensures spool.entries ==
        Outbox.Without(queued, AckedIds(hub, batch, hubNow, ingestNow) + RejectedIds(hub, batch, hubNow))
      ensures Acknowledges(hub, batch, hubNow, ingestNow) ==>
        && AckedIds(hub, batch, hubNow, ingestNow) <= StoredIds(store.rows, server)
        && spool.entries == (if queued == [] then [] else queued[|batch| - 1..|queued| - 1])
      ensures spool.dropped == old(spool.dropped) + |old(spool.entries)| - |queued|
        + if hub.open then |HubStore.Rejected(batch, hubNow)| else 0
    {
      reply := None;
      batch := Send(now, true, hubNow, ingestNow, commit, hub);
      queued := spool.entries;
      if queued != [] {
        SettledQueue(queued, disk.files.Keys, hub, batch, hubNow, ingestNow);
      }
      Deliver();
    }

    method Restart(keep: set<string>, keepCounter: bool, now: int)
      requires Valid()
      modifies this, disk
      ensures Valid() && fresh(spool) && taken == old(taken)
    {
      reply := None;
      var st, q := Outbox.Reopen(disk, keep, keepCounter, now);
      spool, up := q, st.Fine?;
    }

    method Purge(now: int, ghost commit: int)
      requires Valid()
      modifies store
      ensures Valid() && store.rows == old(store.rows)
      ensures store.events == old(store.events) + [HubStore.PurgeEvent(now, commit)]
    {
      ghost var t := store.State();
      store.Cleanup(now, commit);
      forall k | k in store.receipts ensures HubStore.HasRow(store.State(), k) {
        HubStore.RowsStay(t, store.State(), k);
      }
    }

    method Perform(op: Op)
      requires Valid() && (op.Capture? ==> Outbox.Genuine(op.sample, disk.origin))
      modifies this, disk, store, spool
      ensures Valid() && (spool == old(spool) || fresh(spool))
      ensures old(taken) <= taken && Commits(old(store.events), store.events, op, disk.origin)
    {
      match op
      case Capture(s, size, now) =>
        if up { var _ := Capture(s, size, now); }
      case Send(now, reached, hubNow, ingestNow, commit, hub) =>
        if up { ghost var _ := Send(now, reached, hubNow, ingestNow, commit, hub); }
      case Deliver =>
        if up { Deliver(); }
      case LoseReply =>
        reply := None;
      case Restart(keep, keepCounter, now) =>
        Restart(keep, keepCounter, now);
      case PurgeReceipts(now, commit) =>
        Purge(now, commit);
    }
  }

  // ------------------------------------------------------------ exactly once

  /** The hub's history follows the operations: ordered, timely and genuine. */
  ghost predicate Follows(events: seq<HubStore.Event>, ops: seq<Op>, n: nat, captured: map<string, Sample>, lag: int)
    requires n <= |ops|
  {
    && HubStore.LegalRun(events, captured, HubStore.DEPLOYED.(lag := lag))
    && (events != [] ==> exists i | 0 <= i < n :: Transacts(ops[i]) && ops[i].commit == events[|events| - 1].commit)
  }

  lemma CommitFollows(before: seq<HubStore.Event>, after: seq<HubStore.Event>, ops: seq<Op>, n: nat,
                      captured: map<string, Sample>, lag: int)
    requires n < |ops| && TimelyOps(ops, lag) && Follows(before, ops, n, captured, lag)
    requires Commits(before, after, ops[n], Some(captured))
    ensures Follows(after, ops, n + 1, captured, lag)
  {
    if after != before {
      var e := after[|before|];
      if before != [] {
        var i :| 0 <= i < n && Transacts(ops[i]) && ops[i].commit == before[|before| - 1].commit;
        assert before[|before| - 1].commit <= e.commit;
      }
      assert forall k | 0 <= k < |before| :: after[k] == before[k];
      assert Transacts(ops[n]) && ops[n].commit == after[|after| - 1].commit;
    } else if before != [] {
      var i :| 0 <= i < n && Transacts(ops[i]) && ops[i].commit == before[|before| - 1].commit;
    }
  }

  /**
   Every run, with every fault and crash: the samples the outbox accepted are on
   disk or in the hub, except for no more than the persisted drop counter says;
   and where IDs are unique and clock readings at most 22 h 55 min old, the hub
   has at most one row for each of them.
   */
  method Simulate(server: nat, script: seq<Outbox.Fault>, ops: seq<Op>, ghost captured: map<string, Sample>, ghost lag: int)
    returns (taken: set<string>, onDisk: set<string>, counter: nat, rows: seq<HubStore.Row>)
    ensures |taken - onDisk - StoredIds(rows, server)| <= counter
    ensures GenuineOps(ops, captured) && TimelyOps(ops, lag) && 0 <= lag <= 22 * HOUR + 55 * MINUTE ==>
      HubStore.OneRowPerKey(HubStore.Tables(map[], rows))
  {
    ghost var strict := GenuineOps(ops, captured) && TimelyOps(ops, lag);
    var w := new World(server, script, if strict then Some(captured) else None);
    for i := 0 to |ops|
      invariant fresh(w) && fresh(w.disk) && fresh(w.store) && fresh(w.spool)
      invariant w.Valid() && w.server == server && w.disk.origin == if strict then Some(captured) else None
      invariant strict ==> Follows(w.store.events, ops, i, captured, lag)
    {
      ghost var before := w.store.events;
      w.Perform(ops[i]);
      if strict {
        CommitFollows(before, w.store.events, ops, i, captured, lag);
      }
    }
    w.NoSilentLoss();
    taken, onDisk, counter, rows := w.taken, w.disk.files.Keys, w.disk.counter, w.store.rows;
    ghost var lost: set<string> :| taken <= lost + onDisk + StoredIds(rows, server) && |lost| <= counter;
    Outbox.SubsetCard(taken - onDisk - StoredIds(rows, server), lost);
    if strict && 0 <= lag <= 22 * HOUR + 55 * MINUTE {
      StoredOnce(w.store.events, captured, lag);
    }
  }

  lemma StoredOnce(events: seq<HubStore.Event>, captured: map<string, Sample>, lag: int)
    requires HubStore.LegalRun(events, captured, HubStore.DEPLOYED.(lag := lag)) && 0 <= lag <= 22 * HOUR + 55 * MINUTE
    ensures HubStore.OneRowPerKey(HubStore.Run(events, HubStore.DEPLOYED))
  {
    HubStore.DeployedExactlyOnce(lag);
    HubStore.RunIgnoresLag(events, lag);
  }
}
