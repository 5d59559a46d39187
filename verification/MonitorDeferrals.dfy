/**
 The deferrals that the scheduler reports: over any burst of passes their total is
 at most the number of slots that came due, however often the loop woke up.
 */
module MonitorDeferrals {
  import opened Arithmetic
  import opened MonitorNode
  import opened MonitorScheduler

  function DueOf(nodes: map<nat, Node>, id: nat): int { if id in nodes then nodes[id].due else 0 }

  /** How far the due times moved, summed over the nodes. */
  function Shift(a: map<nat, Node>, b: map<nat, Node>, ids: seq<nat>): int {
    if ids == [] then 0 else DueOf(b, ids[0]) - DueOf(a, ids[0]) + Shift(a, b, ids[1..])
  }

  lemma {:induction false} ShiftAdds(a: map<nat, Node>, b: map<nat, Node>, c: map<nat, Node>, ids: seq<nat>)
    ensures Shift(a, c, ids) == Shift(a, b, ids) + Shift(b, c, ids)
  {
    if ids != [] {
      ShiftAdds(a, b, c, ids[1..]);
    }
  }

  lemma {:induction false} ShiftSame(a: map<nat, Node>, a': map<nat, Node>, b: map<nat, Node>, ids: seq<nat>)
    requires forall id | id in ids :: DueOf(a, id) == DueOf(a', id)
    ensures Shift(a, b, ids) == Shift(a', b, ids)
  {
    if ids != [] {
      ShiftSame(a, a', b, ids[1..]);
    }
  }

  lemma {:induction false} ShiftConcat(a: map<nat, Node>, b: map<nat, Node>, x: seq<nat>, y: seq<nat>)
    ensures Shift(a, b, x + y) == Shift(a, b, x) + Shift(a, b, y)
  {
    if x == [] {
      assert x + y == y;
    } else {
      assert (x + y)[1..] == x[1..] + y;
      ShiftConcat(a, b, x[1..], y);
    }
  }

  lemma ShiftRotation(a: map<nat, Node>, b: map<nat, Node>, order: seq<nat>, cursor: nat)
    requires cursor <= |order|
    ensures Shift(a, b, Rotation(order, cursor)) == Shift(a, b, order)
  {
    ShiftConcat(a, b, order[cursor..], order[..cursor]);
    ShiftConcat(a, b, order[..cursor], order[cursor..]);
    assert order[..cursor] + order[cursor..] == order;
  }

  function Times(n: int, d: int): int { n * d }

  lemma Distribute(a: int, b: int, d: int)
    ensures Times(a + b, d) == Times(a, d) + Times(b, d)
  {
  }

  lemma ShiftJoins(a: map<nat, Node>, b: map<nat, Node>, c: map<nat, Node>, ids: seq<nat>, m: int, n: int, interval: int)
    requires Shift(a, b, ids) == Times(m, interval) && Shift(b, c, ids) == Times(n, interval)
    ensures Shift(a, c, ids) == Times(m + n, interval)
  {
    ShiftAdds(a, b, c, ids);
    Distribute(m, n, interval);
  }

  /** Every reported miss moves one due time by one interval, and nothing else moves any. */
  lemma VisitShifts(p: PassState, id: nat, capacity: nat, now: int, interval: int)
    requires id in p.nodes
    ensures var q := VisitOne(p, id, capacity, now, interval);
      && id in q.nodes && (forall k | k != id :: DueOf(q.nodes, k) == DueOf(p.nodes, k))
      && (q.tick.deferred == p.tick.deferred || q.tick.deferred == p.tick.deferred + 1)
      && DueOf(q.nodes, id) == DueOf(p.nodes, id) + if q.tick.deferred == p.tick.deferred then 0 else interval
  {
  }

  lemma {:induction false} PassShifts(p: PassState, ids: seq<nat>, capacity: nat, now: int, interval: int)
    requires Distinct(ids) && forall id | id in ids :: id in p.nodes
    ensures var q := Pass(p, ids, capacity, now, interval);
      Shift(p.nodes, q.nodes, ids) == Times(q.tick.deferred - p.tick.deferred, interval)
    decreases |ids|
  {
    if ids != [] {
      var p1, q := VisitOne(p, ids[0], capacity, now, interval), Pass(p, ids, capacity, now, interval);
      VisitShifts(p, ids[0], capacity, now, interval);
      assert ids[0] !in ids[1..];
      PassShifts(p1, ids[1..], capacity, now, interval);
      PassOther(p1, ids[1..], capacity, now, interval, ids[0]);
      ShiftSame(p.nodes, p1.nodes, q.nodes, ids[1..]);
      Distribute(q.tick.deferred - p1.tick.deferred, p1.tick.deferred - p.tick.deferred, interval);
    }
  }

  lemma PlanShifts(s: Sched, now: int, interval: int)
    requires OrderOf(s.order, s.nodes) && s.cursor <= |s.order|
    ensures Shift(s.nodes, PlanPass(s, now, interval).nodes, s.order) == Times(PlanPass(s, now, interval).tick.deferred, interval)
  {
    var ids := Rotation(s.order, s.cursor);
    RotationVisitsAll(s.order, s.cursor);
    RotationShifts(s, now, interval, ids);
    ShiftRotation(s.nodes, PlanPass(s, now, interval).nodes, s.order, s.cursor);
  }

  lemma RotationShifts(s: Sched, now: int, interval: int, ids: seq<nat>)
    requires Distinct(ids) && forall id | id in ids :: id in s.nodes
    ensures var q := Pass(PlanStart(s), ids, Capacity(s.nodes), now, interval);
      Shift(s.nodes, q.nodes, ids) == Times(q.tick.deferred, interval)
  {
    PassShifts(PlanStart(s), ids, Capacity(s.nodes), now, interval);
  }

  // ------------------------------------------------------------------ bursts

  /** The deferrals that a burst of passes reports, all nodes together. */
  function Deferrals(s: Sched, times: seq<int>, interval: int): nat {
    if times == [] then 0
    else
      var t := Plans(s, times[..|times| - 1], interval);
      Deferrals(s, times[..|times| - 1], interval)
      + if t.cursor <= |t.order| then PlanPass(t, times[|times| - 1], interval).tick.deferred else 0
  }

  ghost predicate Clocked(s: Sched, times: seq<int>) {
    && (forall i | 0 <= i < |times| :: s.clock <= times[i] && 0 < times[i])
    && (forall i, j | 0 <= i < j < |times| :: times[i] <= times[j])
  }

  lemma PlansKeepInv(s: Sched, times: seq<int>, interval: int)
    requires interval > 0 && Inv(s, interval) && Clocked(s, times)
    ensures var t := Plans(s, times, interval);
      Inv(t, interval) && t.order == s.order && (times != [] ==> t.clock == times[|times| - 1]) && (times == [] ==> t == s)
  {
    if times != [] {
      var init := times[..|times| - 1];
      PlansKeepInv(s, init, interval);
      PlanKeepsInv(Plans(s, init, interval), times[|times| - 1], interval);
    }
  }

  lemma PlansSnoc(s: Sched, times: seq<int>, k: nat, interval: int)
    requires k < |times| && Plans(s, times[..k], interval).cursor <= |Plans(s, times[..k], interval).order|
    ensures var q := PlanPass(Plans(s, times[..k], interval), times[k], interval);
      && Plans(s, times[..k + 1], interval).nodes == q.nodes
      && Deferrals(s, times[..k + 1], interval) == Deferrals(s, times[..k], interval) + q.tick.deferred
  {
    assert times[..k + 1][..k] == times[..k];
  }

  /** The due times moved by exactly the deferrals reported so far. */
  ghost predicate Tallied(s: Sched, times: seq<int>, k: nat, interval: int)
    requires k <= |times|
  {
    Shift(s.nodes, Plans(s, times[..k], interval).nodes, s.order) == Times(Deferrals(s, times[..k], interval), interval)
  }

  ghost predicate Moves(s: Sched, t: Sched, now: int, interval: int) {
    && t.order == s.order && t.cursor <= |t.order|
    && Shift(t.nodes, PlanPass(t, now, interval).nodes, s.order) == Times(PlanPass(t, now, interval).tick.deferred, interval)
  }

  lemma PlanTallies(s: Sched, times: seq<int>, k: nat, interval: int)
    requires interval > 0 && Inv(s, interval) && Clocked(s, times) && k < |times|
    ensures Moves(s, Plans(s, times[..k], interval), times[k], interval)
  {
    PlansKeepInv(s, times[..k], interval);
    PlanShifts(Plans(s, times[..k], interval), times[k], interval);
  }

  lemma TallyNext(s: Sched, times: seq<int>, k: nat, interval: int)
    requires k < |times| && Moves(s, Plans(s, times[..k], interval), times[k], interval) && Tallied(s, times, k, interval)
    ensures Tallied(s, times, k + 1, interval)
  {
    var t := Plans(s, times[..k], interval);
    var q := PlanPass(t, times[k], interval);
    ShiftJoins(s.nodes, t.nodes, q.nodes, s.order, Deferrals(s, times[..k], interval), q.tick.deferred, interval);
    PlansSnoc(s, times, k, interval);
  }

  lemma TallyNone(s: Sched, times: seq<int>, interval: int)
    ensures Tallied(s, times, 0, interval)
  {
    ShiftNothing(s.nodes, s.order);
  }

  lemma TallyStep(s: Sched, times: seq<int>, k: nat, interval: int)
    requires interval > 0 && Inv(s, interval) && Clocked(s, times) && k < |times| && Tallied(s, times, k, interval)
    ensures Tallied(s, times, k + 1, interval)
  {
    PlanTallies(s, times, k, interval);
    TallyNext(s, times, k, interval);
  }

  lemma TallyAll(s: Sched, times: seq<int>, interval: int)
    requires interval > 0 && Inv(s, interval) && Clocked(s, times)
    ensures Tallied(s, times, |times|, interval)
  {
    var k := 0;
    TallyNone(s, times, interval);
    while k < |times|
      invariant k <= |times| && Tallied(s, times, k, interval)
    {
      TallyStep(s, times, k, interval);
      k := k + 1;
    }
  }

  lemma PlansShift(s: Sched, times: seq<int>, interval: int)
    requires interval > 0 && Inv(s, interval) && Clocked(s, times)
    ensures Shift(s.nodes, Plans(s, times, interval).nodes, s.order) == Times(Deferrals(s, times, interval), interval)
  {
    TallyAll(s, times, interval);
    assert times[..|times|] == times;
  }

  lemma {:induction false} ShiftNothing(a: map<nat, Node>, ids: seq<nat>)
    ensures Shift(a, a, ids) == 0
  {
    if ids != [] {
      ShiftNothing(a, ids[1..]);
    }
  }

  /** The slots of a node that came due by `now`. */
  function Slots(due: int, now: int, interval: int): nat
    requires interval > 0
  {
    if due > now then 0 else Quotient(now - due, interval); (now - due) / interval + 1
  }

  function AllSlots(nodes: map<nat, Node>, ids: seq<nat>, now: int, interval: int): nat
    requires interval > 0
  {
    if ids == [] then 0 else Slots(DueOf(nodes, ids[0]), now, interval) + AllSlots(nodes, ids[1..], now, interval)
  }

  lemma SlotArithmetic(due: int, moved: int, count: nat, now: int, interval: int)
    requires interval > 0 && moved == due + count * interval
    requires count > 0 ==> due + (count - 1) * interval <= now && count <= (now - due) / interval + 1
    ensures moved - due <= Times(Slots(due, now, interval), interval)
  {
    if count > 0 {
      MultiplyMonotone(0, count, interval);
      if due > now {
        MultiplyMonotone(1, count, interval);
        Distribute(count - 1, 1, interval);
      } else {
        MultiplyMonotone(count, Slots(due, now, interval), interval);
      }
    }
  }

  lemma BurstSlots(n: Node, visits: seq<(int, bool)>, interval: int)
    requires interval > 0 && visits != [] && Chronological(visits)
    ensures Burst(n, visits, interval).0.due - n.due <= Times(Slots(n.due, visits[|visits| - 1].0, interval), interval)
  {
    MissesAreSlots(n, visits, interval);
    var (m, count) := Burst(n, visits, interval);
    SlotArithmetic(n.due, m.due, count, visits[|visits| - 1].0, interval);
  }

  /** A node's due time moves at most once for every slot that came due. */
  lemma NodeShift(s: Sched, times: seq<int>, interval: int, id: nat)
    requires interval > 0 && Inv(s, interval) && Clocked(s, times) && times != [] && id in s.nodes
    ensures WithinSlots(s.nodes, Plans(s, times, interval).nodes, id, times[|times| - 1], interval)
  {
    var visits := PlansAreBursts(s, times, interval, id);
    BurstSlots(s.nodes[id], visits, interval);
    assert visits[|visits| - 1].0 == times[|times| - 1];
  }

  /** How far a node's due time may move. */
  ghost predicate WithinSlots(a: map<nat, Node>, b: map<nat, Node>, id: nat, now: int, interval: int)
    requires interval > 0
  {
    DueOf(b, id) - DueOf(a, id) <= Times(Slots(DueOf(a, id), now, interval), interval)
  }

  lemma {:induction false} AllShift(a: map<nat, Node>, b: map<nat, Node>, ids: seq<nat>, now: int, interval: int)
    requires interval > 0 && forall id | id in ids :: WithinSlots(a, b, id, now, interval)
    ensures Shift(a, b, ids) <= Times(AllSlots(a, ids, now, interval), interval)
  {
    if ids != [] {
      AllShift(a, b, ids[1..], now, interval);
      assert WithinSlots(a, b, ids[0], now, interval);
      Distribute(Slots(DueOf(a, ids[0]), now, interval), AllSlots(a, ids[1..], now, interval), interval);
    }
  }

  /** However many passes a burst has, it reports at most one deferral for every slot that came due. */
  lemma DeferralsAreSlots(s: Sched, times: seq<int>, interval: int)
    requires interval > 0 && Inv(s, interval) && Clocked(s, times) && times != []
    ensures Deferrals(s, times, interval) <= AllSlots(s.nodes, s.order, times[|times| - 1], interval)
  {
    var now, after := times[|times| - 1], Plans(s, times, interval).nodes;
    PlansShift(s, times, interval);
    forall id | id in s.order
      ensures WithinSlots(s.nodes, after, id, now, interval)
    {
      NodeShift(s, times, interval, id);
    }
    AllShift(s.nodes, after, s.order, now, interval);
    Cancel(Deferrals(s, times, interval), AllSlots(s.nodes, s.order, now, interval), interval);
  }

  lemma Cancel(a: nat, b: nat, d: int)
    requires d > 0 && Times(a, d) <= Times(b, d)
    ensures a <= b
  {
    if a > b {
      MultiplyMonotone(b + 1, a, d);
    }
  }
}
