/** The usage-log repository: each transaction is one step of the record protocol. */
module UsageRepo {
  import opened Options
  import opened UsageRecords

  class UsageLogRepo {
    var records: map<string, Record>
    var nextId: nat
    var owners: map<string, Instance>

    constructor ()
      ensures Valid() && Value() == EMPTY
    {
      records, nextId, owners := map[], 1, map[];
    }

    function Value(): Db
      reads this
    {
      Db(records, nextId, owners)
    }

    /** Record IDs come from the sequence, and every owned record's owner exists. */
    ghost predicate Valid()
      reads this
    {
      Inv(Value())
    }

    method LockOwner(owner: string, now: int, valid: bool) returns (error: Error)
      ensures error == UsageRecords.LockOwner(Value(), owner, now, valid)
    {
      if owner !in owners {
        return MissingOwner;
      }
      if owners[owner].retired.Some? {
        return RetiredOwner;
      }
      if valid && owners[owner].lease <= now {
        return ExpiredLease;
      }
      return Ok;
    }

    /** Succeeds for a new instance and for a live one, and touches no record. */
    method RegisterInstance(owner: string, now: int, lease: nat) returns (error: Error)
      requires Valid()
      modifies this
      ensures Valid() && Value() == Step(old(Value()), Register(owner, now, lease))
      ensures error == Ok <==> owner in owners && (owner !in old(owners) || Live(owners[owner], now))
      ensures owners == if owner in old(owners) || Referenced(records, owner) then old(owners)
                        else old(owners)[owner := Instance(now + lease, None)]
      ensures records == old(records) && old(owners).Keys <= owners.Keys
    {
      StepKeepsInv(Value(), Register(owner, now, lease));
      if owner in owners {
        error := LockOwner(owner, now, true);
        return;
      }
      var referenced := FindReference(records, owner);
      if referenced {
        return MissingOwner;
      }
      owners := owners[owner := Instance(now + lease, None)];
      return Ok;
    }

    /** A heartbeat renews even an expired lease, but never a retired one. */
    method Beat(owner: string, now: int, lease: nat) returns (error: Error)
      requires Valid()
      modifies this
      ensures Valid() && Value() == Step(old(Value()), Heartbeat(owner, now, lease))
      ensures error == UsageRecords.LockOwner(old(Value()), owner, now, false)
      ensures error == Ok ==> owner in owners && owners[owner] == Instance(now + lease, None)
      ensures error != Ok ==> Value() == old(Value())
    {
      StepKeepsInv(Value(), Heartbeat(owner, now, lease));
      error := LockOwner(owner, now, false);
      if error == Ok {
        owners := owners[owner := owners[owner].(lease := now + lease)];
      }
    }

    /** An upsert changes its own record only, and only forwards; a decided one stays as it is. */
    method Put(v: Input, now: int, keep: int) returns (error: Error)
      requires Valid()
      modifies this
      ensures Valid() && Value() == Step(old(Value()), Upsert(v, now, keep))
      ensures error == Verdict(old(Value()), v, now) && (error == Ok <==> Acceptable(old(Value()), v, now))
      ensures error != Ok ==> Value() == old(Value())
      ensures error == Ok && v.operation in old(records) ==>
        v.operation in records && Rewritten(old(records)[v.operation], records[v.operation], v)
      ensures error == Ok && v.operation !in old(records) ==>
        Inserted(old(Value()), Value(), v, now, EndOf(v).Some? && EndOf(v).value + keep <= now)
      ensures forall op | op in old(records) :: op in records && Evolves(old(records)[op], records[op])
      ensures forall op | op in records && op != v.operation :: op in old(records) && records[op] == old(records)[op]
    {
      StepKeepsInv(Value(), Upsert(v, now, keep));
      UpsertEffect(Value(), v, now, keep);
      error := PutLocked(v, now, keep);
    }

    method PutLocked(v: Input, now: int, keep: int) returns (error: Error)
      modifies this
      ensures Value() == UpsertStep(old(Value()), v, now, keep)
      ensures error == Verdict(old(Value()), v, now)
    {
      if v.wellFormed && v.outcome.Running? && v.identity.owner.None? {
        return MissingOwner;
      }
      var submitted := Submitted(v);
      if submitted.None? {
        return Invalid;
      }
      if v.identity.owner.Some? {
        error := LockOwner(v.identity.owner.value, now, true);
        if error != Ok {
          return;
        }
      }
      error := Write(v, submitted.value, now, keep);
    }

    /** Insert the record, or apply the write to the one that exists. */
    method Write(v: Input, p: Progress, now: int, keep: int) returns (error: Error)
      requires Submitted(v) == Some(p)
      requires Verdict(Value(), v, now).Ok? || (v.operation in records && records[v.operation].identity != v.identity)
      requires Verdict(Value(), v, now).Ok? || Verdict(Value(), v, now).Invalid?
      modifies this
      ensures Value() == UpsertStep(old(Value()), v, now, keep)
      ensures error == Verdict(old(Value()), v, now)
    {
      if v.operation !in records {
        if p.retention.Some? && p.retention.value + keep <= now {
          return Ok;
        }
        records := records[v.operation := Record(nextId, v.identity, now, p)];
        nextId := nextId + 1;
        return Ok;
      }
      var was := records[v.operation];
      if was.identity != v.identity {
        return Invalid;
      }
      if Decided(was.progress) || p.stateSeq <= was.progress.stateSeq {
        return Ok;
      }
      if RecoveryUnknown(was.progress) && p.outcome.Running? && !was.progress.reason.LeaseExpired? {
        return Ok;
      }
      records := records[v.operation := was.(progress := p)];
      return Ok;
    }

    /** Take over the records of one instance, in the order they were selected. */
    method ReconcileOwner(e: Event, selected: seq<string>)
      requires Valid() && e.Reconcile? && e.chosen == set op | op in selected
      modifies this
      ensures Valid() && Value() == Step(old(Value()), e)
      ensures owners == old(owners) && records.Keys == old(records).Keys
      ensures forall op | op in records ::
        && Evolves(old(records)[op], records[op])
        && (records[op] != old(records)[op] ==>
              records[op].identity.owner == Some(e.owner) && RecoveredFrom(old(records)[op].progress, records[op].progress))
        && (TakenOver(old(Value()), e, op) ==> TakenAs(old(Value()), e, old(records)[op].progress, records[op].progress))
        && (!TakenOver(old(Value()), e, op) ==> records[op] == old(records)[op])
    {
      StepKeepsInv(Value(), e);
      forall op | op in records
        ensures TakenOver(Value(), e, op) ==> TakenAs(Value(), e, records[op].progress, Step(Value(), e).records[op].progress)
        ensures !TakenOver(Value(), e, op) ==> Step(Value(), e).records[op] == records[op]
      {
        ReconcileEffect(Value(), e, op);
      }
      var reason := Takeover(Value(), e);
      if reason.None? {
        return;
      }
      records := RecoverAll(records, e, reason.value, selected);
    }

    /** Delete one expired record; an owner that could still write it is retired with it. */
    method CleanRecord(e: Event) returns (deleted: bool)
      requires Valid() && e.CleanRecord?
      modifies this
      ensures Valid() && Value() == Step(old(Value()), e)
      ensures deleted <==> e.operation in old(records) && Deletable(old(Value()), e, old(records)[e.operation])
      ensures records == if deleted then old(records) - {e.operation} else old(records)
      ensures deleted ==>
        && !old(records)[e.operation].progress.outcome.Running?
        && (AwaitsOwner(old(Value()), old(records)[e.operation]) ==>
              owners[old(records)[e.operation].identity.owner.value].retired.Some?)
      ensures owners.Keys == old(owners).Keys
      ensures forall o | o in owners && owners[o] != old(owners)[o] ::
        && deleted && old(records)[e.operation].identity.owner == Some(o)
        && old(owners)[o].retired.None? && owners[o] == Instance(old(owners)[o].lease, Some(e.now))
    {
      StepKeepsInv(Value(), e);
      CleanEffect(Value(), e);
      if e.operation !in records || records[e.operation].id != e.id || e.locked {
        return false;
      }
      var r := records[e.operation];
      if !Expired(r, e.now, e.keep, e.backfilled) {
        return false;
      }
      if AwaitsOwner(Value(), r) {
        var owner := r.identity.owner.value;
        if Live(owners[owner], e.now) {
          return false;
        }
        if owners[owner].retired.None? {
          owners := owners[owner := owners[owner].(retired := Some(e.now))];
        }
      }
      records := records - {e.operation};
      return true;
    }

    /** Only a dead instance that no record names goes. */
    method CleanInstance(owner: string, locked: bool, now: int)
      requires Valid()
      modifies this
      ensures Valid() && Value() == Step(old(Value()), Event.CleanInstance(owner, locked, now))
      ensures records == old(records)
      ensures owners == if Droppable(old(Value()), owner, locked, now) then old(owners) - {owner} else old(owners)
    {
      StepKeepsInv(Value(), Event.CleanInstance(owner, locked, now));
      if owner !in owners || locked || Live(owners[owner], now) {
        return;
      }
      var referenced := FindReference(records, owner);
      if !referenced {
        owners := owners - {owner};
      }
    }
  }

  method FindReference(records: map<string, Record>, owner: string) returns (found: bool)
    ensures found == Referenced(records, owner)
  {
    var rest := records.Keys;
    while rest != {}
      invariant rest <= records.Keys
      invariant forall op | op in records.Keys - rest :: records[op].identity.owner != Some(owner)
      decreases |rest|
    {
      var op :| op in rest;
      if records[op].identity.owner == Some(owner) {
        return true;
      }
      rest := rest - {op};
    }
    return false;
  }

  /** Rewrite the selected records one by one; one that no longer qualifies is skipped. */
  method RecoverAll(records: map<string, Record>, e: Event, reason: Reason, selected: seq<string>)
    returns (result: map<string, Record>)
    requires e.Reconcile? && e.chosen == set op | op in selected
    ensures result == map op | op in records :: Recover(op, records[op], e, reason)
  {
    result := records;
    for i := 0 to |selected|
      invariant result.Keys == records.Keys
      invariant forall op | op in records :: result[op] == if op in selected[..i] then Recover(op, records[op], e, reason) else records[op]
    {
      var op := selected[i];
      assert op in e.chosen;
      assert selected[..i + 1] == selected[..i] + [op];
      if op in result && Recoverable(op, result[op], e, reason) {
        result := result[op := result[op].(progress := Recovered(result[op].progress, reason, e.now))];
      }
    }
    forall op | op in records
      ensures result[op] == Recover(op, records[op], e, reason)
    {
    }
  }
}
