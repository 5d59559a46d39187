/**
 The hub's side of sample delivery: deduplication receipts and metric rows are
 committed together, and old receipts are purged later. The central result is
 that no sample ID ever produces two metric rows, and exactly which retention
 of receipts that needs.
 */
module HubStore {
  import opened Durations
  import opened Options
  import opened Wire

  /** Receipts are kept per server and sample ID. */
  datatype Key = Key(server: nat, id: string)

  datatype Row = Row(server: nat, sample: Sample)

  function KeyOf(r: Row): Key { Key(r.server, r.sample.id) }

  datatype Tables = Tables(receipts: map<Key, int>, rows: seq<Row>)

  const EMPTY := Tables(map[], [])

  /** Insert the receipt; insert the metric only if the receipt was new. */
  function IngestOne(t: Tables, server: nat, s: Sample, now: int): Tables {
    var k := Key(server, s.id);
    if k in t.receipts then t
    else Tables(t.receipts[k := now], t.rows + [Row(server, s)])
  }

  function IngestAll(t: Tables, server: nat, samples: seq<Sample>, now: int): Tables {
    if samples == [] then t
    else IngestOne(IngestAll(t, server, samples[..|samples| - 1], now), server, samples[|samples| - 1], now)
  }

  lemma IngestAllStep(t: Tables, server: nat, samples: seq<Sample>, i: nat, now: int)
    requires i < |samples|
    ensures IngestAll(t, server, samples[..i + 1], now)
         == IngestOne(IngestAll(t, server, samples[..i], now), server, samples[i], now)
  {
    assert samples[..i + 1][..i] == samples[..i];
  }

  predicate AllAccepted(samples: seq<Sample>, now: int, w: Window) {
    forall i | 0 <= i < |samples| :: Check(samples[i], now, w).Accepted?
  }

  /** One ingest transaction: a single rejected sample rolls the batch back. */
  function Ingest(t: Tables, server: nat, samples: seq<Sample>, now: int, w: Window): Tables {
    if AllAccepted(samples, now, w) then IngestAll(t, server, samples, now) else t
  }

  function Purge(t: Tables, now: int, retention: int): Tables {
    t.(receipts := map k | k in t.receipts && t.receipts[k] >= now - retention :: t.receipts[k])
  }

  function Ids(samples: seq<Sample>): (ids: seq<string>)
    ensures |ids| == |samples|
    ensures forall i | 0 <= i < |ids| :: ids[i] == samples[i].id
  {
    seq(|samples|, i requires 0 <= i < |samples| => samples[i].id)
  }

  ghost predicate HasRow(t: Tables, k: Key) {
    exists i :: 0 <= i < |t.rows| && KeyOf(t.rows[i]) == k
  }

  ghost predicate OneRowPerKey(t: Tables) {
    forall i, j | 0 <= i < j < |t.rows| :: KeyOf(t.rows[i]) != KeyOf(t.rows[j])
  }

  // ------------------------------------------------------------------- runs

  /**
   A policy: the capture-time window, how long receipts are kept, and how stale
   a clock reading may be when the transaction that uses it commits. Both the
   ingest and the purge read the clock before their transaction takes effect.
   */
  datatype Policy = Policy(window: Window, retention: int, lag: int)

  ghost predicate Sensible(p: Policy) {
    p.window.past >= 0 && p.window.future >= 0 && p.retention >= 0 && p.lag >= 0
  }

  datatype Event =
    | IngestEvent(server: nat, samples: seq<Sample>, now: int, commit: int)
    | PurgeEvent(now: int, commit: int)

  function Apply(t: Tables, e: Event, p: Policy): Tables {
    match e
    case IngestEvent(server, samples, now, _) => Ingest(t, server, samples, now, p.window)
    case PurgeEvent(now, _) => Purge(t, now, p.retention)
  }

  function Run(events: seq<Event>, p: Policy): Tables {
    if events == [] then EMPTY
    else Apply(Run(events[..|events| - 1], p), events[|events| - 1], p)
  }

  /** Hub time: commits are ordered, and no clock reading is older than the lag. */
  ghost predicate Timely(events: seq<Event>, p: Policy) {
    && (forall i, j | 0 <= i < j < |events| :: events[i].commit <= events[j].commit)
    && (forall i | 0 <= i < |events| :: events[i].commit - p.lag <= events[i].now <= events[i].commit)
  }

  /** Sample IDs are unique: an ID always stands for the same captured sample. */
  ghost predicate Genuine(events: seq<Event>, captured: map<string, Sample>) {
    forall i, j | 0 <= i < |events| && events[i].IngestEvent? && 0 <= j < |events[i].samples| ::
      var s := events[i].samples[j]; s.id in captured && captured[s.id] == s
  }

  ghost predicate LegalRun(events: seq<Event>, captured: map<string, Sample>, p: Policy) {
    Timely(events, p) && Genuine(events, captured)
  }

  /** The promise: in every legal run each sample ID has at most one row. */
  ghost predicate ExactlyOnce(p: Policy) {
    forall events: seq<Event>, captured: map<string, Sample> ::
      LegalRun(events, captured, p) ==> OneRowPerKey(Run(events, p))
  }

  // -------------------------------------------------------------- invariant

  /**
   A stored row is protected either by its receipt or by its age: without a
   receipt, no clock reading from now on can find its capture time acceptable.
   */
  ghost predicate Protected(t: Tables, r: Row, horizon: int, p: Policy) {
    || (KeyOf(r) in t.receipts && r.sample.time <= t.receipts[KeyOf(r)] + p.window.future)
    || r.sample.time < horizon - p.lag - p.window.past
  }

  ghost predicate Inv(t: Tables, horizon: int, captured: map<string, Sample>, p: Policy) {
    && OneRowPerKey(t)
    && (forall i | 0 <= i < |t.rows| ::
          && Protected(t, t.rows[i], horizon, p)
          && t.rows[i].sample.id in captured && captured[t.rows[i].sample.id] == t.rows[i].sample)
  }

  lemma LaterHorizon(t: Tables, h: int, h': int, captured: map<string, Sample>, p: Policy)
    requires Inv(t, h, captured, p) && h <= h'
    ensures Inv(t, h', captured, p)
  {
  }

  lemma IngestOneKeepsInv(t: Tables, server: nat, s: Sample, now: int, h: int,
                          captured: map<string, Sample>, p: Policy)
    requires Inv(t, h, captured, p)
    requires s.id in captured && captured[s.id] == s
    requires InWindow(s.time, now, p.window) && h - p.lag <= now
    ensures Inv(IngestOne(t, server, s, now), h, captured, p)
  {
  }

  lemma {:induction false} IngestAllKeepsInv(t: Tables, server: nat, samples: seq<Sample>, now: int, h: int,
                                             captured: map<string, Sample>, p: Policy)
    requires Inv(t, h, captured, p)
    requires forall i | 0 <= i < |samples| ::
      samples[i].id in captured && captured[samples[i].id] == samples[i]
    requires (forall i | 0 <= i < |samples| :: InWindow(samples[i].time, now, p.window)) && h - p.lag <= now
    ensures Inv(IngestAll(t, server, samples, now), h, captured, p)
  {
    if samples != [] {
      var n := |samples| - 1;
      IngestAllKeepsInv(t, server, samples[..n], now, h, captured, p);
      IngestOneKeepsInv(IngestAll(t, server, samples[..n], now), server, samples[n], now, h, captured, p);
    }
  }

  lemma PurgeKeepsInv(t: Tables, now: int, h: int, captured: map<string, Sample>, p: Policy)
    requires Inv(t, h, captured, p) && now <= h
    requires p.retention >= p.window.past + p.window.future + p.lag
    ensures Inv(Purge(t, now, p.retention), h, captured, p)
  {
  }

  ghost function Horizon(events: seq<Event>): int {
    if events == [] then 0 else events[|events| - 1].commit
  }

  lemma {:induction false} RunKeepsInv(events: seq<Event>, captured: map<string, Sample>, p: Policy)
    requires LegalRun(events, captured, p)
    requires p.retention >= p.window.past + p.window.future + p.lag
    ensures Inv(Run(events, p), Horizon(events), captured, p)
  {
    if events != [] {
      var n := |events| - 1;
      var before, e := events[..n], events[n];
      RunKeepsInv(before, captured, p);
      var t := Run(before, p);
      if n > 0 {
        LaterHorizon(t, Horizon(before), e.commit, captured, p);
      }
      match e
      case IngestEvent(server, samples, now, _) =>
        if AllAccepted(samples, now, p.window) {
          IngestAllKeepsInv(t, server, samples, now, e.commit, captured, p);
        }
      case PurgeEvent(now, _) =>
        PurgeKeepsInv(t, now, e.commit, captured, p);
    }
  }

  // ------------------------------------------------------------ main theorem

  ghost function Probe(time: int): (s: Sample)
    ensures ValidContent(s) && s.time == time
  {
    Sample("00000000000000000000000000000000", "b", time, Readings(true))
  }

  /** A run that stores the same ID twice when receipts are kept too briefly. */
  lemma ShortRetentionDuplicates(p: Policy) returns (events: seq<Event>, captured: map<string, Sample>)
    requires Sensible(p) && p.retention < p.window.past + p.window.future + p.lag
    ensures LegalRun(events, captured, p) && !OneRowPerKey(Run(events, p))
  {
    var s := Probe(p.window.future);
    var purgeAt := p.retention + 1;
    var again := Max(purgeAt - p.lag, 0);
    var first, purge, second :=
      IngestEvent(1, [s], 0, 0), PurgeEvent(purgeAt, purgeAt), IngestEvent(1, [s], again, purgeAt);
    events, captured := [first, purge, second], map[s.id := s];
    StoredTwice(p, s, first, purge, second);
    assert KeyOf(Run(events, p).rows[0]) == KeyOf(Run(events, p).rows[1]);
  }

  /** Once the purge removed the receipt, the second ingest stores the row again. */
  lemma StoredTwice(p: Policy, s: Sample, first: Event, purge: Event, second: Event)
    requires first.IngestEvent? && first.server == 1 && first.samples == [s] && Check(s, first.now, p.window).Accepted?
    requires purge.PurgeEvent? && first.now < purge.now - p.retention
    requires second.IngestEvent? && second.server == 1 && second.samples == [s] && Check(s, second.now, p.window).Accepted?
    ensures Run([first, purge, second], p).rows == [Row(1, s), Row(1, s)]
  {
    var t1, t2 := Run([first], p), Run([first, purge], p);
    IngestSingle(EMPTY, 1, s, first.now, p.window);
    assert [first][..0] == [] && Run([], p) == EMPTY;
    assert t1.rows == [Row(1, s)] && t1.receipts == map[Key(1, s.id) := first.now];
    assert [first, purge][..1] == [first];
    assert t2.rows == t1.rows && t2.receipts == map[];
    IngestSingle(t2, 1, s, second.now, p.window);
    assert [first, purge, second][..2] == [first, purge];
  }

  lemma IngestSingle(t: Tables, server: nat, s: Sample, now: int, w: Window)
    requires Check(s, now, w).Accepted?
    ensures Ingest(t, server, [s], now, w) == IngestOne(t, server, s, now)
  {
    assert [s][..0] == [] && IngestAll(t, server, [], now) == t;
  }

  /**
   Exactly-once storage, with the exact condition: every legal run stores each
   sample ID at most once if and only if receipts outlive the acceptance window
   and the staleness of a clock reading.
   */
  lemma ExactlyOnceIffRetentionCovers(p: Policy)
    requires Sensible(p)
    ensures ExactlyOnce(p) <==> p.retention >= p.window.past + p.window.future + p.lag
  {
    if p.retention >= p.window.past + p.window.future + p.lag {
      forall events: seq<Event>, captured: map<string, Sample> | LegalRun(events, captured, p)
        ensures OneRowPerKey(Run(events, p))
      {
        RunKeepsInv(events, captured, p);
      }
    } else {
      var events, captured := ShortRetentionDuplicates(p);
      assert LegalRun(events, captured, p);
    }
  }

  const RECEIPT_RETENTION: int := 48 * HOUR

  /** The deployed constants tolerate any clock staleness up to 22h55m, and no more. */
  lemma DeployedExactlyOnce(lag: int)
    requires lag >= 0
    ensures ExactlyOnce(Policy(TALUS_WINDOW, RECEIPT_RETENTION, lag)) <==> lag <= 22 * HOUR + 55 * MINUTE
  {
    ExactlyOnceIffRetentionCovers(Policy(TALUS_WINDOW, RECEIPT_RETENTION, lag));
  }

  // -------------------------------------------------------- acknowledgements

  /** A receipt is only ever written together with its row. */
  ghost predicate Receipted(t: Tables) {
    forall k | k in t.receipts :: HasRow(t, k)
  }

  lemma IngestOneStores(t: Tables, server: nat, s: Sample, now: int)
    requires Receipted(t)
    ensures var t' := IngestOne(t, server, s, now);
      Receipted(t') && t.rows <= t'.rows && HasRow(t', Key(server, s.id))
  {
    var t' := IngestOne(t, server, s, now);
    if t' != t {
      assert KeyOf(t'.rows[|t.rows|]) == Key(server, s.id);
      forall k | k in t.receipts ensures HasRow(t', k) {
        RowsStay(t, t', k);
      }
    }
  }

  lemma RowsStay(t: Tables, t': Tables, k: Key)
    requires HasRow(t, k) && t.rows <= t'.rows
    ensures HasRow(t', k)
  {
  }

  /** After a committed ingest every sample of the batch has its row: acknowledging is sound. */
  lemma {:induction false} IngestStoresAll(t: Tables, server: nat, samples: seq<Sample>, now: int)
    requires Receipted(t)
    ensures var t' := IngestAll(t, server, samples, now);
      && Receipted(t')
      && t.rows <= t'.rows
      && (forall i | 0 <= i < |samples| :: HasRow(t', Key(server, samples[i].id)))
  {
    if samples != [] {
      var n := |samples| - 1;
      var t1 := IngestAll(t, server, samples[..n], now);
      IngestStoresAll(t, server, samples[..n], now);
      IngestOneStores(t1, server, samples[n], now);
      var t2 := IngestOne(t1, server, samples[n], now);
      forall i | 0 <= i < n ensures HasRow(t2, Key(server, samples[i].id)) {
        assert samples[..n][i] == samples[i];
        RowsStay(t1, t2, Key(server, samples[i].id));
      }
    }
  }

  // ------------------------------------------------------------- the service

  lemma RunSnoc(events: seq<Event>, e: Event)
    ensures Run(events + [e], DEPLOYED) == Apply(Run(events, DEPLOYED), e, DEPLOYED)
  {
    assert (events + [e])[..|events|] == events;
  }

  /** The tables of a run do not depend on the clock lag it is judged by. */
  lemma {:induction false} RunIgnoresLag(events: seq<Event>, lag: int)
    ensures Run(events, DEPLOYED) == Run(events, DEPLOYED.(lag := lag))
  {
    if events != [] {
      RunIgnoresLag(events[..|events| - 1], lag);
    }
  }

  /** How the ingest transaction ends; a lost acknowledgement leaves it unknown. */
  datatype DbOutcome = Committed | RolledBack | CommittedUnseen

  /**
   The body of the ingest transaction, sample by sample on the table contents. It
   fails when the credential is no longer the active one of a live server.
   */
  method Transact(t: Tables, server: nat, samples: seq<Sample>, now: int, active: bool)
    returns (ok: bool, tx: Tables, ids: seq<string>)
    ensures ok <==> active && AllAccepted(samples, now, TALUS_WINDOW)
    ensures ok ==> tx == IngestAll(t, server, samples, now) && ids == Ids(samples)
  {
    tx, ids := t, [];
    if !active {
      return false, tx, ids;
    }
    for i := 0 to |samples|
      invariant forall j | 0 <= j < i :: Check(samples[j], now, TALUS_WINDOW).Accepted?
      invariant tx == IngestAll(t, server, samples[..i], now)
      invariant |ids| == i && forall j | 0 <= j < i :: ids[j] == samples[j].id
    {
      var s := samples[i];
      if !Validate(s, now).Accepted? {
        return false, tx, ids;
      }
      IngestAllStep(t, server, samples, i, now);
      var k := Key(server, s.id);
      if k !in tx.receipts {
        tx := Tables(tx.receipts[k := now], tx.rows + [Row(server, s)]);
      }
      ids := ids + [s.id];
    }
    assert samples[..|samples|] == samples;
    ok := true;
  }

  /** The transaction stored every sample and the hub saw it commit. */
  predicate SeenCommitted(samples: seq<Sample>, now: int, active: bool, outcome: DbOutcome) {
    active && outcome.Committed? && AllAccepted(samples, now, TALUS_WINDOW)
  }

  const DEPLOYED := Policy(TALUS_WINDOW, RECEIPT_RETENTION, 0)

  class Store {
    var receipts: map<Key, int>
    var rows: seq<Row>
    /** The committed transactions, in order. */
    ghost var events: seq<Event>

    constructor ()
      ensures State() == EMPTY && events == [] && Recorded()
    {
      receipts, rows, events := map[], [], [];
    }

    ghost function State(): Tables
      reads this
    {
      Tables(receipts, rows)
    }

    /** The tables are what the committed transactions made of empty ones. */
    ghost predicate Recorded()
      reads this
    {
      State() == Run(events, DEPLOYED)
    }

    /** Validate, record the receipt and store the row of every sample, or nothing. */
    method IngestBatch(server: nat, samples: seq<Sample>, now: int, ghost commit: int, active: bool, outcome: DbOutcome)
      returns (ack: Option<seq<string>>)
      requires Recorded()
      modifies this
      ensures Recorded()
      ensures State() == (if outcome.RolledBack? || !active then old(State())
                          else Ingest(old(State()), server, samples, now, TALUS_WINDOW))
      ensures events == (if outcome.RolledBack? || !active then old(events)
                         else old(events) + [IngestEvent(server, samples, now, commit)])
      ensures ack.Some? <==> outcome.Committed? && active && AllAccepted(samples, now, TALUS_WINDOW)
      ensures ack.Some? ==> ack.value == Ids(samples)
    {
      var ok, tx, ids := Transact(Tables(receipts, rows), server, samples, now, active);
      if outcome.RolledBack? || !active {
        return None;
      }
      RunSnoc(events, IngestEvent(server, samples, now, commit));
      events := events + [IngestEvent(server, samples, now, commit)];
      if !ok {
        return None;
      }
      receipts, rows := tx.receipts, tx.rows;
      return if outcome.Committed? then Some(ids) else None;
    }

    /** Delete the receipts older than two days. */
    method Cleanup(now: int, ghost commit: int)
      requires Recorded()
      modifies this
      ensures Recorded() && State() == Purge(old(State()), now, RECEIPT_RETENTION)
      ensures events == old(events) + [PurgeEvent(now, commit)]
    {
      RunSnoc(events, PurgeEvent(now, commit));
      events := events + [PurgeEvent(now, commit)];
      receipts := map k | k in receipts && receipts[k] >= now - RECEIPT_RETENTION :: receipts[k];
    }

    /**
     Handle one sample request: split off the samples whose capture time can
     never be accepted, store the rest in one transaction and acknowledge only
     what committed. `open` is false while the hub is closing, the server is
     revoked or the credential was replaced; `slot` is a free writer slot;
     `current` says the credential is still the registered one afterwards and
     `active` that the transaction found it so.
     */
    method Receive(server: nat, samples: seq<Sample>, now: int, ingestNow: int, ghost commit: int,
                   open: bool, slot: bool, active: bool, outcome: DbOutcome, current: bool)
      returns (reply: Response)
      requires Receipted(State()) && Recorded()
      modifies this
      ensures Receipted(State()) && Recorded() && old(rows) <= rows
      ensures events == old(events) || events == old(events) + [IngestEvent(server, Kept(samples, now), ingestNow, commit)]
      ensures reply.rejected == if open then Ids(Rejected(samples, now)) else []
      ensures State() ==
        (if open && slot && Kept(samples, now) != [] && active && !outcome.RolledBack?
         then Ingest(old(State()), server, Kept(samples, now), ingestNow, TALUS_WINDOW)
         else old(State()))
      ensures reply.ack ==
        (if open && slot && current && SeenCommitted(Kept(samples, now), ingestNow, active, outcome)
         then Ids(Kept(samples, now)) else [])
      ensures reply.retry <==>
        !open || (Kept(samples, now) != [] &&
                  (!slot || (current && !SeenCommitted(Kept(samples, now), ingestNow, active, outcome))))
      ensures forall i | 0 <= i < |reply.ack| :: HasRow(State(), Key(server, reply.ack[i]))
    {
      reply := Response([], [], false);
      if !open {
        return reply.(retry := true);
      }
      var valid, rejected := [], [];
      for i := 0 to |samples|
        invariant State() == old(State()) && events == old(events)
        invariant valid == Kept(samples[..i], now)
        invariant rejected == Ids(Rejected(samples[..i], now))
      {
        assert samples[..i + 1][..i] == samples[..i];
        if Validate(samples[i], now).OutsideWindow? {
          rejected := rejected + [samples[i].id];
        } else {
          valid := valid + [samples[i]];
        }
      }
      assert samples[..|samples|] == samples;
      reply := reply.(rejected := rejected);
      if valid == [] {
        return;
      }
      if !slot {
        return reply.(retry := true);
      }
      IngestStoresAll(State(), server, valid, ingestNow);
      var ack := IngestBatch(server, valid, ingestNow, commit, active, outcome);
      if !current {
        return;
      }
      if ack.None? {
        return reply.(retry := true);
      }
      return reply.(ack := ack.value);
    }
  }

  /** The samples a request keeps for storage, in order. */
  function Kept(samples: seq<Sample>, now: int): seq<Sample> {
    if samples == [] then []
    else
      var n := |samples| - 1;
      Kept(samples[..n], now) + (if Validate(samples[n], now).OutsideWindow? then [] else [samples[n]])
  }

  /** The samples a request refuses for their capture time, in order. */
  function Rejected(samples: seq<Sample>, now: int): seq<Sample> {
    if samples == [] then []
    else
      var n := |samples| - 1;
      Rejected(samples[..n], now) + (if Validate(samples[n], now).OutsideWindow? then [samples[n]] else [])
  }

  /** Splitting a request neither loses nor duplicates a sample. */
  lemma {:induction false} SplitIsPartition(samples: seq<Sample>, now: int)
    ensures multiset(Kept(samples, now)) + multiset(Rejected(samples, now)) == multiset(samples)
  {
    if samples != [] {
      var n := |samples| - 1;
      SplitIsPartition(samples[..n], now);
      assert samples == samples[..n] + [samples[n]];
    }
  }

  /** The IDs are split, and distinct ones stay distinct on each side. */
  ghost predicate SplitsIds(all: seq<Sample>, kept: seq<Sample>, rejected: seq<Sample>) {
    && SampleIds(kept) + SampleIds(rejected) == SampleIds(all)
    && (DistinctIds(all) ==> DistinctIds(kept) && DistinctIds(rejected) && SampleIds(kept) !! SampleIds(rejected))
  }

  lemma SplitNext(all: seq<Sample>, kept: seq<Sample>, rejected: seq<Sample>, s: Sample)
    requires SplitsIds(all, kept, rejected)
    ensures SplitsIds(all + [s], kept + [s], rejected) && SplitsIds(all + [s], kept, rejected + [s])
  {
    OneMoreId(all, s);
    OneMoreId(kept, s);
    OneMoreId(rejected, s);
  }

  lemma {:induction false} SplitIds(samples: seq<Sample>, now: int)
    ensures SplitsIds(samples, Kept(samples, now), Rejected(samples, now))
  {
    if samples != [] {
      var init, s := samples[..|samples| - 1], samples[|samples| - 1];
      SplitIds(init, now);
      SplitNext(init, Kept(init, now), Rejected(init, now), s);
      assert samples == init + [s];
      assert Kept(init, now) + [] == Kept(init, now) && Rejected(init, now) + [] == Rejected(init, now);
    }
  }

  /** What is kept or rejected was in the request, and on its side of the window. */
  lemma {:induction false} SplitByWindow(samples: seq<Sample>, now: int)
    ensures forall s | s in Kept(samples, now) :: s in samples
    ensures forall s | s in Rejected(samples, now) :: s in samples
    ensures forall s | s in Kept(samples, now) :: !Validate(s, now).OutsideWindow?
    ensures forall s | s in Rejected(samples, now) :: Validate(s, now).OutsideWindow?
  {
    if samples != [] {
      SplitByWindow(samples[..|samples| - 1], now);
    }
  }
}
