/**
 The SSH lease: one pinned connection, at most one primitive at a time, settled
 with the pool exactly once. A primitive whose cleanup is still pending returns
 to its caller but keeps the lease active until its workers have joined.
 */
module Lease {
  // ------------------------------------------------------------------- state

  datatype Flags = Flags(active: bool, closing: bool, settled: bool, unhealthy: bool)

  /** The primitive holding the lease: none, running, or returned with its cleanup pending. */
  datatype Primitive = Idle | Running | Draining

  /** The flags, the running primitive, and the settlements handed to the pool (true is a discard). */
  datatype State = State(flags: Flags, primitive: Primitive, settlements: seq<bool>)

  const FRESH := State(Flags(false, false, false, false), Idle, [])

  datatype Event =
    | Begin(current: bool, canceled: bool)
    | End(unhealthy: bool, pending: bool)
    | Drained
    | CloseLease(discard: bool)

  function Settle(s: State): State {
    if !s.flags.closing || s.flags.active || s.flags.settled then s
    else s.(flags := s.flags.(settled := true), settlements := s.settlements + [s.flags.unhealthy])
  }

  /** Admission: refused when closing or unusable, and a stale generation spoils the lease. */
  function Started(s: State, current: bool, canceled: bool): State {
    var f := s.flags;
    if f.closing || f.settled || f.unhealthy then s
    else if !current then s.(flags := f.(unhealthy := true))
    else if f.active || canceled then s
    else s.(flags := f.(active := true), primitive := Running)
  }

  function Ended(s: State, unhealthy: bool): State {
    Settle(s.(flags := s.flags.(active := false, unhealthy := s.flags.unhealthy || unhealthy), primitive := Idle))
  }

  function Finished(s: State, discard: bool): State {
    if s.flags.settled then s
    else Settle(s.(flags := s.flags.(closing := true, unhealthy := s.flags.unhealthy || discard)))
  }

  /** The owner of a primitive ends it once; a drained primitive ends as unhealthy. */
  function Step(s: State, e: Event): State {
    match e
    case Begin(current, canceled) => Started(s, current, canceled)
    case End(unhealthy, pending) =>
      if !s.primitive.Running? then s
      else if pending then s.(primitive := Draining)
      else Ended(s, unhealthy)
    case Drained => if s.primitive.Draining? then Ended(s, true) else s
    case CloseLease(discard) => Finished(s, discard)
  }

  // -------------------------------------------------------------------- runs

  ghost predicate Run(states: seq<State>, events: seq<Event>) {
    && |states| == |events| + 1 && states[0] == FRESH
    && forall i | 0 <= i < |events| :: states[i + 1] == Step(states[i], events[i])
  }

  /** The step reports a fault: a stale generation, an unhealthy end, a drained cleanup or a discard. */
  predicate Spoils(s: State, e: Event) {
    !s.flags.settled &&
    match e
    case Begin(current, _) => !s.flags.closing && !s.flags.unhealthy && !current
    case End(unhealthy, pending) => s.primitive.Running? && !pending && unhealthy
    case Drained => s.primitive.Draining?
    case CloseLease(discard) => discard
  }

  ghost predicate Spoiled(states: seq<State>, events: seq<Event>, i: nat)
    requires |states| == |events| + 1 && i < |states|
  {
    exists k | 0 <= k < i :: Spoils(states[k], events[k])
  }

  ghost predicate Inv(s: State) {
    && s.flags.active == !s.primitive.Idle?
    && (s.flags.settled ==> s.flags.closing && !s.flags.active && s.settlements == [s.flags.unhealthy])
    && (!s.flags.settled ==> s.settlements == [])
    && (s.flags.closing && !s.flags.active ==> s.flags.settled)
  }

  lemma StepKeepsInv(s: State, e: Event)
    requires Inv(s)
    ensures Inv(Step(s, e))
    ensures s.flags.settled ==> Step(s, e) == s
    ensures Step(s, e).flags.unhealthy == (s.flags.unhealthy || Spoils(s, e))
    ensures s.flags.active && !Step(s, e).flags.active ==> e.Drained? || (e.End? && !e.pending)
  {
  }

  /** Settled at most once, only when nothing runs; closing with nothing running means settled. */
  lemma {:induction false} RunKeepsInv(states: seq<State>, events: seq<Event>, i: nat)
    requires Run(states, events) && i < |states|
    ensures Inv(states[i])
    ensures states[i].flags.unhealthy == Spoiled(states, events, i)
  {
    if i > 0 {
      RunKeepsInv(states, events, i - 1);
      StepKeepsInv(states[i - 1], events[i - 1]);
    }
  }

  /** The pool sees at most one settlement, and it is a discard exactly when something spoiled the lease before it. */
  lemma {:induction false} SettledOnce(states: seq<State>, events: seq<Event>, i: nat, j: nat)
    requires Run(states, events) && i < j < |states|
    requires !states[i].flags.settled && states[i + 1].flags.settled
    ensures states[j] == states[i + 1]
    ensures states[j].settlements == [Spoiled(states, events, i + 1)]
    ensures states[j].primitive.Idle?
  {
    RunKeepsInv(states, events, i + 1);
    if i + 1 < j {
      SettledOnce(states, events, i, j - 1);
      StepKeepsInv(states[j - 1], events[j - 1]);
    }
  }

  // ------------------------------------------------------------------- class

  class SshLease {
    var active: bool
    var closing: bool
    var settled: bool
    var unhealthy: bool
    ghost var primitive: Primitive
    ghost var settlements: seq<bool>

    constructor ()
      ensures Valid() && Value() == FRESH
    {
      active, closing, settled, unhealthy := false, false, false, false;
      primitive, settlements := Idle, [];
    }

    ghost function Value(): State
      reads this
    {
      State(Flags(active, closing, settled, unhealthy), primitive, settlements)
    }

    /** In particular the pool never saw more than one settlement, and none while a primitive runs. */
    ghost predicate Valid()
      reads this
    {
      Inv(Value()) && |settlements| <= 1 && (settlements != [] ==> !active && primitive.Idle?)
    }

    /** Settle exactly when closing, idle and unsettled. */
    method SettleLocked()
      modifies this
      ensures Value() == Settle(old(Value()))
    {
      if !closing || active || settled {
        return;
      }
      settled := true;
      settlements := settlements + [unhealthy];
    }

    /** One primitive at a time, on an open, healthy lease of the current generation. */
    method BeginPrimitive(current: bool, canceled: bool) returns (ok: bool)
      requires Valid()
      modifies this
      ensures Valid() && Value() == Step(old(Value()), Begin(current, canceled))
      ensures ok <==> !old(closing) && !old(unhealthy) && current && !old(active) && !canceled
      ensures ok ==> old(primitive).Idle? && primitive.Running? && active && settlements == []
      ensures !ok ==> active == old(active) && primitive == old(primitive)
      ensures unhealthy == (old(unhealthy) || (!old(closing) && !current))
      ensures settlements == old(settlements) && closing == old(closing) && settled == old(settled)
    {
      StepKeepsInv(Value(), Begin(current, canceled));
      if closing || settled || unhealthy {
        return false;
      }
      if !current {
        unhealthy := true;
        return false;
      }
      if active || canceled {
        return false;
      }
      active := true;
      primitive := Running;
      return true;
    }

    /** A pending cleanup keeps the lease active; otherwise a closing lease is settled now, by its health. */
    method EndPrimitive(spoiled: bool, pending: bool)
      requires Valid() && primitive.Running?
      modifies this
      ensures Valid() && Value() == Step(old(Value()), End(spoiled, pending))
      ensures pending ==> active && primitive.Draining? && settlements == [] && unhealthy == old(unhealthy)
      ensures !pending ==> !active && primitive.Idle? && unhealthy == (old(unhealthy) || spoiled)
      ensures !pending ==> settlements == (if closing then [unhealthy] else [])
      ensures closing == old(closing)
    {
      StepKeepsInv(Value(), End(spoiled, pending));
      if pending {
        primitive := Draining;
        return;
      }
      primitive := Idle;
      active := false;
      unhealthy := unhealthy || spoiled;
      SettleLocked();
    }

    /** The deferred end: a closing lease is discarded. */
    method CleanupJoined()
      requires Valid() && primitive.Draining?
      modifies this
      ensures Valid() && Value() == Step(old(Value()), Drained)
      ensures !active && primitive.Idle? && unhealthy && closing == old(closing)
      ensures settlements == if closing then [true] else []
    {
      StepKeepsInv(Value(), Drained);
      primitive := Idle;
      active := false;
      unhealthy := true;
      SettleLocked();
    }

    /** Settled at once when idle, later when a primitive still runs, and never a second time. */
    method Finish(discard: bool)
      requires Valid()
      modifies this
      ensures Valid() && Value() == Step(old(Value()), CloseLease(discard))
      ensures closing && settled == !active && settlements == if active then [] else [unhealthy]
      ensures old(settled) ==> Value() == old(Value())
      ensures !old(settled) ==> unhealthy == (old(unhealthy) || discard) && active == old(active)
    {
      StepKeepsInv(Value(), CloseLease(discard));
      if settled {
        return;
      }
      closing := true;
      unhealthy := unhealthy || discard;
      SettleLocked();
    }
  }
}
