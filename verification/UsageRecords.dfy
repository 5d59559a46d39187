/**
 The usage log: operation records written by leased instances, ordered by a
 sequence number, recovered by reconciliation and removed by retention. Times are
 database microseconds.
 */
module UsageRecords {
  import opened Options

  // ------------------------------------------------------------------- state

  datatype Outcome = Running | Succeeded | Failed | Rejected | Cancelled | Unknown

  datatype Reason = NoReason | LeaseExpired | FinalizationUnavailable | OwnerMissing | OtherReason

  datatype Source = Operation | AuditLegacy

  /** What may not change between two writes of one operation. */
  datatype Identity = Identity(started: int, auth: string, source: Source, owner: Option<string>)

  /** What a write replaces. */
  datatype Progress = Progress(outcome: Outcome, stateSeq: nat, reason: Reason, reconciled: Option<int>, retention: Option<int>)

  datatype Record = Record(id: nat, identity: Identity, recorded: int, progress: Progress)

  datatype Instance = Instance(lease: int, retired: Option<int>)

  /** Records by operation ID, the next record ID, and the instances. */
  datatype Db = Db(records: map<string, Record>, nextId: nat, owners: map<string, Instance>)

  const EMPTY := Db(map[], 1, map[])

  datatype Error = Ok | MissingOwner | RetiredOwner | ExpiredLease | Invalid

  /** A submitted record; `wellFormed` covers the fields that are only checked for presence and size. */
  datatype Input = Input(operation: string, identity: Identity, outcome: Outcome, stateSeq: nat, reason: Reason,
                         finished: Option<int>, reconciled: Option<int>, wellFormed: bool)

  datatype Event =
    | Register(owner: string, now: int, lease: nat)
    | Heartbeat(owner: string, now: int, lease: nat)
    | Upsert(v: Input, now: int, keep: int)
    | Reconcile(owner: string, self: string, locked: bool, tracked: set<string>, chosen: set<string>, now: int, grace: int)
    | CleanRecord(operation: string, id: nat, locked: bool, now: int, keep: int, backfilled: bool)
    | CleanInstance(owner: string, locked: bool, now: int)

  // --------------------------------------------------------------- instances

  predicate Live(o: Instance, now: int) { o.retired.None? && now < o.lease }

  function LockOwner(db: Db, owner: string, now: int, valid: bool): Error {
    if owner !in db.owners then MissingOwner
    else if db.owners[owner].retired.Some? then RetiredOwner
    else if valid && db.owners[owner].lease <= now then ExpiredLease
    else Ok
  }

  predicate Referenced(records: map<string, Record>, owner: string) {
    exists op | op in records :: records[op].identity.owner == Some(owner)
  }

  function RegisterStep(db: Db, owner: string, now: int, lease: nat): Db {
    if owner in db.owners || Referenced(db.records, owner) then db
    else db.(owners := db.owners[owner := Instance(now + lease, None)])
  }

  function HeartbeatStep(db: Db, owner: string, now: int, lease: nat): Db {
    if LockOwner(db, owner, now, false) != Ok then db
    else db.(owners := db.owners[owner := db.owners[owner].(lease := now + lease)])
  }

  // ------------------------------------------------------------------ upsert

  predicate RecoveryUnknown(p: Progress) {
    p.outcome.Unknown? && (p.reason.LeaseExpired? || p.reason.FinalizationUnavailable?)
  }

  /** A decided outcome: not running and not open to recovery. */
  predicate Decided(p: Progress) { !p.outcome.Running? && !RecoveryUnknown(p) }

  /** The progress a submitted record stands for, or nothing when it has no end. */
  function Submitted(v: Input): Option<Progress> {
    if !v.wellFormed then None
    else if v.outcome.Running? then Some(Progress(Running, v.stateSeq, NoReason, None, None))
    else if v.finished.Some? then Some(Progress(v.outcome, v.stateSeq, v.reason, v.reconciled, v.finished))
    else if v.identity.source.AuditLegacy?
    then Some(Progress(v.outcome, v.stateSeq, v.reason, v.reconciled, Some(v.identity.started)))
    else if v.reconciled.Some? then Some(Progress(v.outcome, v.stateSeq, v.reason, v.reconciled, v.reconciled))
    else None
  }

  /** The write of `p` over an existing record's progress. */
  function Applied(was: Progress, p: Progress): Progress {
    if Decided(was) || p.stateSeq <= was.stateSeq then was
    else if RecoveryUnknown(was) && p.outcome.Running? && !was.reason.LeaseExpired? then was
    else p
  }

  function Verdict(db: Db, v: Input, now: int): Error {
    if v.wellFormed && v.outcome.Running? && v.identity.owner.None? then MissingOwner
    else if Submitted(v).None? then Invalid
    else if v.identity.owner.Some? && LockOwner(db, v.identity.owner.value, now, true) != Ok
    then LockOwner(db, v.identity.owner.value, now, true)
    else if v.operation in db.records && db.records[v.operation].identity != v.identity then Invalid
    else Ok
  }

  function UpsertStep(db: Db, v: Input, now: int, keep: int): Db {
    if Verdict(db, v, now) != Ok then db
    else
      var p := Submitted(v).value;
      if v.operation in db.records then
        var was := db.records[v.operation];
        db.(records := db.records[v.operation := was.(progress := Applied(was.progress, p))])
      else if p.retention.Some? && p.retention.value + keep <= now then db
      else db.(records := db.records[v.operation := Record(db.nextId, v.identity, now, p)], nextId := db.nextId + 1)
  }

  // --------------------------------------------------------------- reconcile

  /** Why the instance's records are taken over, if they are. */
  function Takeover(db: Db, e: Event): Option<Reason>
    requires e.Reconcile?
  {
    if e.owner !in db.owners then Some(OwnerMissing)
    else if e.locked then None
    else if !Live(db.owners[e.owner], e.now) then Some(LeaseExpired)
    else if e.owner == e.self then Some(FinalizationUnavailable)
    else None
  }

  predicate Recoverable(op: string, r: Record, e: Event, reason: Reason)
    requires e.Reconcile?
  {
    && r.identity.owner == Some(e.owner)
    && if reason.FinalizationUnavailable?
       then (r.progress.outcome.Running? || (r.progress.outcome.Unknown? && r.progress.reason.LeaseExpired?))
            && r.recorded + e.grace <= e.now && op !in e.tracked
       else r.progress.outcome.Running?
  }

  function Recovered(p: Progress, reason: Reason, now: int): Progress {
    if p.reconciled.None? then p.(outcome := Unknown, reason := reason, reconciled := Some(now), retention := Some(now))
    else p.(outcome := Unknown, reason := reason)
  }

  function Recover(op: string, r: Record, e: Event, reason: Reason): Record
    requires e.Reconcile?
  {
    if op in e.chosen && Recoverable(op, r, e, reason) then r.(progress := Recovered(r.progress, reason, e.now)) else r
  }

  function ReconcileStep(db: Db, e: Event): Db
    requires e.Reconcile?
  {
    var reason := Takeover(db, e);
    if reason.None? then db
    else db.(records := map op | op in db.records :: Recover(op, db.records[op], e, reason.value))
  }

  // ----------------------------------------------------------------- cleanup

  predicate Expired(r: Record, now: int, keep: int, backfilled: bool) {
    && !r.progress.outcome.Running? && r.progress.retention.Some? && r.progress.retention.value + keep <= now
    && (r.identity.source.AuditLegacy? ==> backfilled)
  }

  /** The owner that could still write a lease-expired record. */
  predicate AwaitsOwner(db: Db, r: Record) {
    && r.progress.outcome.Unknown? && r.progress.reason.LeaseExpired?
    && r.identity.owner.Some? && r.identity.owner.value in db.owners
  }

  function Retire(owners: map<string, Instance>, owner: string, now: int): map<string, Instance> {
    if owner in owners && owners[owner].retired.None? then owners[owner := owners[owner].(retired := Some(now))] else owners
  }

  predicate Removable(db: Db, e: Event)
    requires e.CleanRecord?
  {
    && e.operation in db.records && db.records[e.operation].id == e.id && !e.locked
    && Expired(db.records[e.operation], e.now, e.keep, e.backfilled)
    && (AwaitsOwner(db, db.records[e.operation]) ==>
          !Live(db.owners[db.records[e.operation].identity.owner.value], e.now))
  }

  function CleanRecordStep(db: Db, e: Event): Db
    requires e.CleanRecord?
  {
    if !Removable(db, e) then db
    else
      var r := db.records[e.operation];
      db.(records := db.records - {e.operation},
          owners := if AwaitsOwner(db, r) then Retire(db.owners, r.identity.owner.value, e.now) else db.owners)
  }

  function CleanInstanceStep(db: Db, owner: string, locked: bool, now: int): Db {
    if owner !in db.owners || locked || Live(db.owners[owner], now) || Referenced(db.records, owner) then db
    else db.(owners := db.owners - {owner})
  }

  function Step(db: Db, e: Event): Db {
    match e
    case Register(owner, now, lease) => RegisterStep(db, owner, now, lease)
    case Heartbeat(owner, now, lease) => HeartbeatStep(db, owner, now, lease)
    case Upsert(v, now, keep) => UpsertStep(db, v, now, keep)
    case Reconcile(_, _, _, _, _, _, _) => ReconcileStep(db, e)
    case CleanRecord(_, _, _, _, _, _) => CleanRecordStep(db, e)
    case CleanInstance(owner, locked, now) => CleanInstanceStep(db, owner, locked, now)
  }

  // --------------------------------------------------------------- invariant

  /** Record IDs come from the sequence, and every owned record's owner exists. */
  ghost predicate Inv(db: Db) {
    forall op | op in db.records :: RecordOk(db, db.records[op])
  }

  predicate RecordOk(db: Db, r: Record) {
    r.id < db.nextId && (r.identity.owner.Some? ==> r.identity.owner.value in db.owners)
  }

  lemma StepKeepsInv(db: Db, e: Event)
    requires Inv(db)
    ensures Inv(Step(db, e)) && db.nextId <= Step(db, e).nextId
  {
  }

  // --------------------------------------------------------------- evolution

  predicate Lives(db: Db, op: string, id: nat) { op in db.records && db.records[op].id == id }

  /** How one record may change: never its identity, never backwards, and never once decided. */
  predicate Evolves(a: Record, b: Record) {
    && b.id == a.id && b.identity == a.identity && b.recorded == a.recorded
    && a.progress.stateSeq <= b.progress.stateSeq
    && (Decided(a.progress) ==> b.progress == a.progress)
  }

  lemma EvolvesTransitive(a: Record, b: Record, c: Record)
    requires Evolves(a, b) && Evolves(b, c)
    ensures Evolves(a, c)
  {
  }

  /** One step either keeps a record, evolved, or deletes one that no live owner can still write. */
  lemma StepEvolves(db: Db, e: Event, op: string)
    requires op in db.records
    ensures op in Step(db, e).records ==> Evolves(db.records[op], Step(db, e).records[op])
    ensures op !in Step(db, e).records ==>
      && e.CleanRecord? && e.operation == op && !db.records[op].progress.outcome.Running?
      && (AwaitsOwner(db, db.records[op]) ==> Step(db, e).owners[db.records[op].identity.owner.value].retired.Some?)
  {
  }

  /** A record found under an operation either was there or is numbered afresh. */
  lemma StepCreates(db: Db, e: Event, op: string)
    requires op in Step(db, e).records
    ensures op in db.records || Step(db, e).records[op].id == db.nextId
  {
  }

  // -------------------------------------------------------------------- runs

  ghost predicate Run(states: seq<Db>, events: seq<Event>) {
    && |states| == |events| + 1 && states[0] == EMPTY
    && forall i | 0 <= i < |events| :: states[i + 1] == Step(states[i], events[i])
  }

  lemma {:induction false} RunKeepsInv(states: seq<Db>, events: seq<Event>, i: nat, j: nat)
    requires Run(states, events) && i <= j < |states|
    ensures Inv(states[j]) && states[i].nextId <= states[j].nextId
    decreases j
  {
    if j > 0 {
      RunKeepsInv(states, events, if i < j then i else j - 1, j - 1);
      StepKeepsInv(states[j - 1], events[j - 1]);
    }
  }

  /** A record seen at two moments of a run was there, and only evolved, in between. */
  lemma {:induction false} RecordEvolves(states: seq<Db>, events: seq<Event>, i: nat, j: nat, op: string, id: nat)
    requires Run(states, events) && i <= j < |states| && Lives(states[i], op, id) && Lives(states[j], op, id)
    ensures Evolves(states[i].records[op], states[j].records[op])
    ensures forall k | i <= k <= j :: Lives(states[k], op, id)
  {
    if i < j {
      RunKeepsInv(states, events, i, i);
      RunKeepsInv(states, events, i, j - 1);
      assert RecordOk(states[i], states[i].records[op]);
      StepCreates(states[j - 1], events[j - 1], op);
      StepEvolves(states[j - 1], events[j - 1], op);
      RecordEvolves(states, events, i, j - 1, op, id);
      EvolvesTransitive(states[i].records[op], states[j - 1].records[op], states[j].records[op]);
    }
  }

  /** A decided outcome never changes as long as the record exists. */
  lemma DecidedIsFinal(states: seq<Db>, events: seq<Event>, i: nat, j: nat, op: string, id: nat)
    requires Run(states, events) && i <= j < |states| && Lives(states[i], op, id) && Lives(states[j], op, id)
    requires Decided(states[i].records[op].progress)
    ensures states[j].records[op] == states[i].records[op]
  {
    RecordEvolves(states, events, i, j, op, id);
  }

  /** A running record is never deleted: its next state holds it under the same ID. */
  lemma RunningIsKept(states: seq<Db>, events: seq<Event>, i: nat, op: string)
    requires Run(states, events) && i < |events| && op in states[i].records
    requires states[i].records[op].progress.outcome.Running?
    ensures Lives(states[i + 1], op, states[i].records[op].id)
  {
  }

  /** Every record with an owner has an owner row, so recovery never reports a missing owner. */
  lemma OwnersExist(states: seq<Db>, events: seq<Event>, i: nat, op: string)
    requires Run(states, events) && i < |states| && op in states[i].records
    ensures states[i].records[op].identity.owner.Some? ==> states[i].records[op].identity.owner.value in states[i].owners
    ensures i < |events| && events[i].Reconcile? && states[i + 1].records[op].progress.reason.OwnerMissing? ==>
      states[i + 1].records[op] == states[i].records[op]
  {
    RunKeepsInv(states, events, i, i);
    assert RecordOk(states[i], states[i].records[op]);
  }

  // ------------------------------------------------------------------ writes

  /** The submission has an end: it still runs, or some time says when it was over. */
  predicate HasEnd(v: Input) {
    v.outcome.Running? || v.finished.Some? || v.identity.source.AuditLegacy? || v.reconciled.Some?
  }

  /** The time from which retention counts. */
  function EndOf(v: Input): Option<int> {
    if v.outcome.Running? then None
    else if v.finished.None? && v.identity.source.AuditLegacy? then Some(v.identity.started)
    else if v.finished.None? then v.reconciled
    else v.finished
  }

  /** The submission is complete, its owner may write now, and it names the same operation as before. */
  predicate Acceptable(db: Db, v: Input, now: int) {
    && v.wellFormed && HasEnd(v) && (v.outcome.Running? ==> v.identity.owner.Some?)
    && (v.identity.owner.None?
        || (v.identity.owner.value in db.owners && Live(db.owners[v.identity.owner.value], now)))
    && (v.operation in db.records ==> db.records[v.operation].identity == v.identity)
  }

  /** A newer write replaces a running record and a recovery, but does not restart one without a finalizer. */
  predicate Replaces(v: Input, was: Progress) {
    was.stateSeq < v.stateSeq &&
    match was.outcome
    case Running => true
    case Unknown => was.reason.LeaseExpired? || (was.reason.FinalizationUnavailable? && !v.outcome.Running?)
    case _ => false
  }

  /** The stored outcome, sequence number, reason and times are the submitted ones. */
  predicate Carries(p: Progress, v: Input) {
    && p.outcome == v.outcome && p.stateSeq == v.stateSeq && p.retention == EndOf(v)
    && p.reason == (if v.outcome.Running? then NoReason else v.reason)
    && p.reconciled == (if v.outcome.Running? then None else v.reconciled)
  }

  /** Exactly what a submission does to its record, and when it is refused. */
  lemma UpsertEffect(db: Db, v: Input, now: int, keep: int)
    ensures var db' := UpsertStep(db, v, now, keep);
      && (Verdict(db, v, now) == Ok <==> Acceptable(db, v, now))
      && db'.owners == db.owners
      && (!Acceptable(db, v, now) ==> db' == db)
      && (Acceptable(db, v, now) && v.operation in db.records ==>
            v.operation in db'.records && Rewritten(db.records[v.operation], db'.records[v.operation], v))
      && (Acceptable(db, v, now) && v.operation !in db.records ==>
            Inserted(db, db', v, now, EndOf(v).Some? && EndOf(v).value + keep <= now))
  {
  }

  predicate Rewritten(a: Record, b: Record, v: Input) {
    && b.id == a.id && b.identity == a.identity && b.recorded == a.recorded
    && (if Replaces(v, a.progress) then Carries(b.progress, v) else b.progress == a.progress)
  }

  /** A record past its retention is not stored any more; any other is, under the next ID. */
  predicate Inserted(db: Db, db': Db, v: Input, now: int, late: bool) {
    if late then v.operation !in db'.records
    else
      && v.operation in db'.records && Carries(db'.records[v.operation].progress, v) && db'.nextId == db.nextId + 1
      && db'.records[v.operation] == Record(db.nextId, v.identity, now, db'.records[v.operation].progress)
  }

  // ----------------------------------------------------------- reconciliation

  /** Reconciliation invents no result and no progress: a changed record is unknown at the same sequence number. */
  lemma ReconcileInventsNothing(db: Db, e: Event, op: string)
    requires e.Reconcile? && op in db.records
    ensures op in Step(db, e).records && Step(db, e).owners == db.owners
    ensures var a, b := db.records[op], Step(db, e).records[op];
      b == a || (!Decided(a.progress) && RecoveredFrom(a.progress, b.progress) && a.identity.owner == Some(e.owner))
  {
  }

  predicate RecoveredFrom(a: Progress, b: Progress) {
    b.outcome.Unknown? && b.stateSeq == a.stateSeq && b.reconciled.Some? && b.reason != NoReason
  }

  /** Who takes a record over: anyone from a dead owner, and a live owner from itself once it lost track. */
  predicate TakenOver(db: Db, e: Event, op: string)
    requires e.Reconcile? && op in db.records
  {
    var r := db.records[op];
    && op in e.chosen && r.identity.owner == Some(e.owner) && (e.owner in db.owners ==> !e.locked)
    && (r.progress.outcome.Running?
        || (e.owner in db.owners && Live(db.owners[e.owner], e.now)
            && r.progress.outcome.Unknown? && r.progress.reason.LeaseExpired?))
    && (e.owner in db.owners && Live(db.owners[e.owner], e.now) ==>
          e.owner == e.self && op !in e.tracked && r.recorded + e.grace <= e.now)
  }

  /** Exactly the records taken over change: unknown, for the stated reason, and reconciled now if never before. */
  lemma ReconcileEffect(db: Db, e: Event, op: string)
    requires e.Reconcile? && op in db.records
    ensures op in Step(db, e).records && Step(db, e).owners == db.owners
    ensures var a, b := db.records[op].progress, Step(db, e).records[op].progress;
      && Step(db, e).records[op] == db.records[op].(progress := b)
      && (!TakenOver(db, e, op) ==> b == a)
      && (TakenOver(db, e, op) ==> TakenAs(db, e, a, b))
  {
  }

  predicate TakenAs(db: Db, e: Event, a: Progress, b: Progress)
    requires e.Reconcile?
  {
    && b.outcome.Unknown? && b.stateSeq == a.stateSeq
    && (b.reason.OwnerMissing? <==> e.owner !in db.owners)
    && (b.reason.LeaseExpired? <==> e.owner in db.owners && !Live(db.owners[e.owner], e.now))
    && (b.reason.FinalizationUnavailable? <==> e.owner in db.owners && Live(db.owners[e.owner], e.now))
    && b.reconciled == (if a.reconciled.Some? then a.reconciled else Some(e.now))
    && b.retention == (if a.reconciled.Some? then a.retention else Some(e.now))
  }

  /** A live owner's records are safe from everyone else, and from itself while tracked or recent. */
  lemma ReconcileSpares(db: Db, e: Event, op: string)
    requires e.Reconcile? && op in db.records && e.owner in db.owners && Live(db.owners[e.owner], e.now)
    requires e.owner != e.self || op in e.tracked || e.now < db.records[op].recorded + e.grace
    ensures Step(db, e).records[op] == db.records[op]
  {
  }

  // --------------------------------------------------------------- retention

  /** The record is over, past its retention, and no live owner may still write it. */
  predicate Deletable(db: Db, e: Event, r: Record)
    requires e.CleanRecord?
  {
    && r.id == e.id && !e.locked && !r.progress.outcome.Running?
    && r.progress.retention.Some? && e.now >= r.progress.retention.value + e.keep
    && (r.identity.source.Operation? || e.backfilled)
    && (r.progress.reason != LeaseExpired || !r.progress.outcome.Unknown? || r.identity.owner.None?
        || r.identity.owner.value !in db.owners || !Live(db.owners[r.identity.owner.value], e.now))
  }

  /** Exactly which record a cleanup deletes. */
  lemma CleanEffect(db: Db, e: Event)
    requires e.CleanRecord?
    ensures Removable(db, e) <==> e.operation in db.records && Deletable(db, e, db.records[e.operation])
    ensures Step(db, e).records == if Removable(db, e) then db.records - {e.operation} else db.records
  {
  }

  /** The instance is dead and no record names it. */
  predicate Droppable(db: Db, owner: string, locked: bool, now: int) {
    && owner in db.owners && !locked && (db.owners[owner].retired.Some? || db.owners[owner].lease <= now)
    && forall op | op in db.records :: db.records[op].identity.owner != Some(owner)
  }

  // ----------------------------------------------- records without finalizer

  predicate Unfinalized(p: Progress) { p.outcome.Unknown? && p.reason.FinalizationUnavailable? }

  /** A submission that carries the recovery reason reserved for reconciliation. */
  predicate Reopens(e: Event) { e.Upsert? && e.v.outcome.Unknown? && e.v.reason.LeaseExpired? }

  predicate Closed(p: Progress) { Unfinalized(p) || Decided(p) }

  lemma ClosedStays(db: Db, e: Event, op: string)
    requires op in db.records && op in Step(db, e).records && Closed(db.records[op].progress) && !Reopens(e)
    ensures Closed(Step(db, e).records[op].progress)
  {
  }

  /** Without such submissions, a record whose finalization is unavailable never runs again. */
  lemma {:induction false} UnfinalizedNeverRuns(states: seq<Db>, events: seq<Event>, i: nat, j: nat, op: string, id: nat)
    requires Run(states, events) && i <= j < |states| && Lives(states[i], op, id) && Lives(states[j], op, id)
    requires Unfinalized(states[i].records[op].progress)
    requires forall k | i <= k < j :: !Reopens(events[k])
    ensures Closed(states[j].records[op].progress) && !states[j].records[op].progress.outcome.Running?
  {
    RecordEvolves(states, events, i, j, op, id);
    if i < j {
      UnfinalizedNeverRuns(states, events, i, j - 1, op, id);
      ClosedStays(states[j - 1], events[j - 1], op);
    }
  }

  /**
   Exactly which single write lets a later one run the record again: a newer one
   that itself claims the lease-expired recovery.
   */
  lemma ReopenedIff(was: Progress, p: Progress)
    requires Unfinalized(was)
    ensures (exists q :: Applied(Applied(was, p), q).outcome.Running?)
      <==> (was.stateSeq < p.stateSeq && p.outcome.Unknown? && p.reason.LeaseExpired?)
  {
    if was.stateSeq < p.stateSeq && p.outcome.Unknown? && p.reason.LeaseExpired? {
      var q := Progress(Running, p.stateSeq + 1, NoReason, None, None);
      assert Applied(Applied(was, p), q).outcome.Running?;
    }
  }

  const OWNER := "o"
  const OP := "op"

  const OWNED := Identity(0, "jwt", Operation, Some(OWNER))

  /** A reachable record that runs again: started, recovered without a finalizer, then the two writes. */
  const REOPENING: seq<Event> := [
    Register(OWNER, 0, 100),
    Upsert(Input(OP, OWNED, Running, 1, NoReason, None, None, true), 1, 10),
    Reconcile(OWNER, OWNER, false, {}, {OP}, 50, 30),
    Upsert(Input(OP, OWNED, Unknown, 2, LeaseExpired, Some(51), None, true), 52, 10),
    Upsert(Input(OP, OWNED, Running, 3, NoReason, None, None, true), 53, 10)]

  function After(events: seq<Event>): Db {
    if events == [] then EMPTY else Step(After(events[..|events| - 1]), events[|events| - 1])
  }

  lemma Started()
    ensures var db := After(REOPENING[..2]);
      db.owners == map[OWNER := Instance(100, None)]
      && db.records == map[OP := Record(1, OWNED, 1, Progress(Running, 1, NoReason, None, None))]
  {
    assert REOPENING[..2][..1] == REOPENING[..1] && REOPENING[..1][..0] == [];
    assert !Referenced(EMPTY.records, OWNER);
    assert After(REOPENING[..1]) == Db(map[], 1, map[OWNER := Instance(100, None)]);
  }

  lemma Recovers()
    ensures var db := After(REOPENING[..3]);
      db.owners == map[OWNER := Instance(100, None)]
      && db.records == map[OP := Record(1, OWNED, 1, Progress(Unknown, 1, FinalizationUnavailable, Some(50), Some(50)))]
  {
    Started();
    assert REOPENING[..3][..2] == REOPENING[..2];
  }

  /** The whole run from the empty database: unfinalized after three steps, running again after five. */
  lemma ReopenedExample()
    ensures OP in After(REOPENING[..3]).records && Unfinalized(After(REOPENING[..3]).records[OP].progress)
    ensures OP in After(REOPENING).records && After(REOPENING).records[OP].id == After(REOPENING[..3]).records[OP].id
    ensures After(REOPENING).records[OP].progress.outcome.Running?
  {
    Recovers();
    assert REOPENING[..4][..3] == REOPENING[..3] && REOPENING[..4] == REOPENING[..|REOPENING| - 1];
    assert After(REOPENING[..4]).records == map[OP := Record(1, OWNED, 1, Progress(Unknown, 2, LeaseExpired, None, Some(51)))];
  }
}
