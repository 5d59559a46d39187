/**
 The monitor scheduler's view of one node: when it is due, what a pass and a
 completion do to it, and how long a failing node backs off.
 */
module MonitorNode {
  import opened Arithmetic
  import opened Durations

  const MAX_IN_FLIGHT: nat := 16
  const BACKOFF_CAP: int := 300 * SECOND
  const WARN_AFTER: nat := 3

  datatype Outcome = Success | Failure | Skipped | Cancelled

  datatype Node = Node(failures: nat, due: int, inFlight: bool, queued: bool, queuedAt: int,
                       defers: nat, failureWarned: bool, deferWarned: bool)

  function NewNode(now: int): Node { Node(0, now, false, false, 0, 0, false, false) }

  // ---------------------------------------------------------------- one node

  predicate Due(n: Node, now: int) { n.queued || n.due <= now }

  predicate Misses(n: Node, now: int) { n.due <= now }

  /** Count one missed slot and move on to the following one. */
  function NoteDefer(n: Node, now: int, interval: int): Node {
    if !Misses(n, now) then n
    else n.(defers := n.defers + 1, due := n.due + interval,
            deferWarned := n.deferWarned || n.defers + 1 >= WARN_AFTER)
  }

  predicate Admits(n: Node, now: int, full: bool) { !n.inFlight && Due(n, now) && !full }

  predicate Defers(n: Node, now: int, full: bool) { n.inFlight || (Due(n, now) && full) }

  /** What one pass does to a node, depending on whether capacity is exhausted. */
  function Visit(n: Node, now: int, full: bool, interval: int): Node {
    if n.inFlight then NoteDefer(n, now, interval)
    else if !Due(n, now) then n
    else if full then
      NoteDefer(if n.queued then n else n.(queued := true, queuedAt := now), now, interval)
    else n.(inFlight := true, queued := false, defers := 0, deferWarned := false)
  }

  /** `b` is a whole number of intervals from `a`. */
  ghost predicate SamePhase(a: int, b: int, interval: int) {
    exists k: int :: b == a + k * interval
  }

  /** The first of the slots p, p + interval, ... that is after now. */
  function FirstSlot(p: int, now: int, interval: int): (next: int)
    requires interval > 0
    ensures next > now && (p > now ==> next == p) && (p <= now ==> next <= now + interval)
    decreases if p <= now then now - p + 1 else 0
  {
    if p > now then p else FirstSlot(p + interval, now, interval)
  }

  /** The next slot of a node after a round that was not a failure. The zero time has no phase yet. */
  function NextAligned(previous: int, now: int, interval: int): int
    requires interval > 0
  {
    FirstSlot(if previous == 0 then interval else previous, now, interval)
  }

  /** Skipping whole intervals that are not past now does not change the slot found. */
  lemma {:induction false} SkipSlots(p: int, steps: nat, now: int, interval: int)
    requires interval > 0
    requires steps > 0 ==> p + (steps - 1) * interval <= now
    ensures FirstSlot(p, now, interval) == FirstSlot(p + steps * interval, now, interval)
    ensures SamePhase(p, p + steps * interval, interval)
  {
    if steps > 0 {
      assert (steps - 1) * interval == (steps - 2) * interval + interval;
      SkipSlots(p, steps - 1, now, interval);
      assert p + (steps - 1) * interval + interval == p + steps * interval;
    }
  }

  /** The slot found has the node's phase: no catch-up bursts and no drift. */
  lemma {:induction false} AlignedKeepsPhase(p: int, now: int, interval: int)
    requires interval > 0
    ensures SamePhase(p, FirstSlot(p, now, interval), interval)
    decreases if p <= now then now - p + 1 else 0
  {
    if p > now {
      assert p == p + 0 * interval;
    } else {
      AlignedKeepsPhase(p + interval, now, interval);
      var k: int :| FirstSlot(p, now, interval) == p + interval + k * interval;
      assert FirstSlot(p, now, interval) == p + (k + 1) * interval;
    }
  }

  // ----------------------------------------------------------------- backoff

  function Pow2(k: nat): (p: int)
    ensures p >= 1
  {
    if k == 0 then 1 else 2 * Pow2(k - 1)
  }

  function Cap(interval: int): int { Max(interval, BACKOFF_CAP) }

  /** The delay before jitter: doubling from the interval, up to the cap. */
  function BackoffBase(failures: nat, interval: int): int {
    if failures <= 1 then Min(interval, Cap(interval)) else Min(interval * Pow2(failures - 1), Cap(interval))
  }

  /** The jittered delay for a uniform draw, kept within the interval and the cap. */
  function Backoff(failures: nat, interval: int, draw: real): (delay: int)
    ensures interval <= delay <= Cap(interval)
  {
    Jittered(BackoffBase(failures, interval), interval, Cap(interval), draw)
  }

  function Jittered(base: int, low: int, high: int, draw: real): int { Clamp(base as real * (1.0 + Jitter(draw)), low, high) }

  /** A tenth up or down. */
  function Jitter(draw: real): real { (draw * 2.0 - 1.0) * 0.1 }

  function Clamp(delay: real, low: int, high: int): int { Min(Max(delay.Floor, low), high) }

  /** The saturating loop computes the closed form exactly, for every failure count. */
  method BackoffBaseLoop(failures: nat, interval: int) returns (base: int)
    requires interval > 0
    ensures base == BackoffBase(failures, interval)
  {
    var cap := interval;
    if cap < BACKOFF_CAP {
      cap := BACKOFF_CAP;
    }
    base := interval;
    var i := 1;
    while i < failures
      invariant 1 <= i <= Max(failures, 1)
      invariant base == Doubled(i - 1, interval) <= cap == Cap(interval)
    {
      if base >= cap / 2 {
        SaturatedStays(i - 1, failures - 1, interval);
        DoubledIs(failures - 1, interval);
        base := cap;
        break;
      }
      base := base * 2;
      i := i + 1;
    }
    if i == failures {
      DoubledIs(failures - 1, interval);
    }
    if base > cap {
      base := cap;
    }
  }

  /** The delay as it is computed: the saturating loop, the jitter and the two clamps. */
  method BackoffDelay(failures: nat, interval: int, draw: real) returns (delay: int)
    requires interval > 0
    ensures delay == Backoff(failures, interval, draw)
  {
    var base := BackoffBaseLoop(failures, interval);
    delay := (base as real * (1.0 + Jitter(draw))).Floor;
    if delay < interval {
      delay := interval;
    }
    if delay > Cap(interval) {
      delay := Cap(interval);
    }
  }

  /** Within a tenth of the base, and one tick of rounding. */
  ghost predicate Near(base: int, delay: int) { base as real * 0.9 - 1.0 < delay as real <= base as real * 1.1 }

  ghost predicate WithinTenth(base: int, delay: real) { base as real * 0.9 <= delay <= base as real * 1.1 }

  lemma Scaled(base: int, factor: real)
    requires 0 <= base && 0.9 <= factor <= 1.1
    ensures WithinTenth(base, base as real * factor)
  {
  }

  lemma ClampedNear(base: int, low: int, high: int, delay: real)
    requires 0 < low <= base <= high && WithinTenth(base, delay)
    ensures Near(base, Clamp(delay, low, high))
    ensures delay == base as real ==> Clamp(delay, low, high) == base
  {
    assert delay - 1.0 < delay.Floor as real <= delay;
    assert base as real * 0.9 <= base as real <= base as real * 1.1;
  }

  lemma JitteredNear(base: int, low: int, high: int, draw: real)
    requires 0 < low <= base <= high && 0.0 <= draw <= 1.0
    ensures Near(base, Jittered(base, low, high, draw)) && (draw == 0.5 ==> Jittered(base, low, high, draw) == base)
  {
    var factor := 1.0 + Jitter(draw);
    Scaled(base, factor);
    ClampedNear(base, low, high, base as real * factor);
  }

  lemma PowerGrows(interval: int, k: nat)
    requires interval > 0
    ensures interval <= interval * Pow2(k)
  {
  }

  lemma BaseIs(failures: nat, interval: int)
    requires interval > 0 && failures > 0
    ensures BackoffBase(failures, interval) == Min(interval * Pow2(failures - 1), Max(interval, 300 * SECOND))
    ensures interval <= BackoffBase(failures, interval) <= Cap(interval)
  {
    PowerGrows(interval, failures - 1);
  }

  lemma NearItsBase(failures: nat, interval: int, draw: real)
    requires 0 < interval <= BackoffBase(failures, interval) <= Cap(interval) && 0.0 <= draw <= 1.0
    ensures Near(BackoffBase(failures, interval), Backoff(failures, interval, draw))
    ensures draw == 0.5 ==> Backoff(failures, interval, draw) == BackoffBase(failures, interval)
  {
    JitteredNear(BackoffBase(failures, interval), interval, Cap(interval), draw);
  }

  /** A node that failed `failures` times in a row waits min(interval * 2^(failures - 1), cap), give or take a tenth. */
  lemma BackoffNear(failures: nat, interval: int, draw: real)
    requires interval > 0 && failures > 0 && 0.0 <= draw <= 1.0
    ensures var delay, base := Backoff(failures, interval, draw), Min(interval * Pow2(failures - 1), Max(interval, 300 * SECOND));
      && interval <= delay <= Max(interval, 300 * SECOND)
      && Near(base, delay) && (draw == 0.5 ==> delay == base)
  {
    BaseIs(failures, interval);
    NearItsBase(failures, interval, draw);
  }

  function Doubled(k: nat, interval: int): (d: int)
    ensures interval > 0 ==> d >= interval
  {
    if k == 0 then interval else 2 * Doubled(k - 1, interval)
  }

  lemma {:induction false} DoubledIs(k: nat, interval: int)
    ensures Doubled(k, interval) == interval * Pow2(k)
  {
    if k > 0 {
      DoubledIs(k - 1, interval);
    }
  }

  /** Once half the cap is reached, every further doubling is cut off at the cap. */
  lemma {:induction false} SaturatedStays(i: nat, k: nat, interval: int)
    requires interval > 0 && i < k && Doubled(i, interval) >= Cap(interval) / 2
    ensures Doubled(k, interval) >= Cap(interval)
  {
    if k > i + 1 {
      SaturatedStays(i, k - 1, interval);
    }
  }

  // -------------------------------------------------------------- completion

  datatype Completion = Completion(failures: nat, warnDegraded: bool, recovered: bool)

  function CompleteNode(n: Node, outcome: Outcome, now: int, interval: int, draw: real): Node
    requires interval > 0
  {
    match outcome
    case Success =>
      n.(inFlight := false, failures := 0, failureWarned := false, queued := false,
         due := NextAligned(n.due, now, interval))
    case Failure =>
      n.(inFlight := false, failures := n.failures + 1, queued := false,
         failureWarned := n.failureWarned || n.failures + 1 >= WARN_AFTER,
         due := now + Backoff(n.failures + 1, interval, draw))
    case _ =>
      n.(inFlight := false, due := if n.queued then n.due else NextAligned(n.due, now, interval))
  }

  // ----------------------------------------------------------- node invariant

  /** What every node satisfies at every time the scheduler has seen. */
  ghost predicate NodeOk(n: Node, clock: int, interval: int) {
    && !(n.queued && n.inFlight)
    && 0 < n.due <= clock + Cap(interval)
    && (n.failureWarned <==> n.failures >= WARN_AFTER)
    && (n.deferWarned <==> n.defers >= WARN_AFTER)
  }

  lemma VisitKeepsNode(n: Node, clock: int, now: int, full: bool, interval: int)
    requires interval > 0 && clock <= now && NodeOk(n, clock, interval)
    ensures NodeOk(Visit(n, now, full, interval), now, interval)
  {
  }

  lemma CompleteKeepsNode(n: Node, clock: int, now: int, outcome: Outcome, interval: int, draw: real)
    requires interval > 0 && clock <= now && 0 < now && NodeOk(n, clock, interval) && n.inFlight
    ensures NodeOk(CompleteNode(n, outcome, now, interval, draw), now, interval)
  {
  }

  /**
   A completion that is not a failure keeps the node's phase: an overdue node
   gets the first slot after now, and any other node keeps its slot.
   */
  lemma CompleteKeepsPhase(n: Node, now: int, outcome: Outcome, interval: int, draw: real)
    requires interval > 0 && n.due > 0 && !n.queued && !outcome.Failure?
    ensures var due := CompleteNode(n, outcome, now, interval, draw).due;
      && SamePhase(n.due, due, interval) && due > now
      && (n.due > now ==> due == n.due) && (n.due <= now ==> due <= now + interval)
    ensures var m := CompleteNode(n, outcome, now, interval, draw);
      && !m.inFlight && !m.queued && m.failures == (if outcome.Success? then 0 else n.failures)
      && m.defers == n.defers
  {
    AlignedKeepsPhase(n.due, now, interval);
  }

  /** A failure counts, and the next slot is the backoff of the new count from now. */
  lemma FailureBacksOff(n: Node, now: int, interval: int, draw: real)
    requires interval > 0 && 0.0 <= draw <= 1.0
    ensures var m := CompleteNode(n, Failure, now, interval, draw);
      var base := Min(interval * Pow2(n.failures), Max(interval, 300 * SECOND));
      && m.failures == n.failures + 1 && !m.inFlight && !m.queued
      && now + interval <= m.due <= now + Max(interval, 300 * SECOND)
      && Near(base, m.due - now)
  {
    BackoffNear(n.failures + 1, interval, draw);
  }

  // ------------------------------------------------------- bursts of passes

  /** One node over a burst of passes, with the number of slots it missed. */
  function Burst(n: Node, visits: seq<(int, bool)>, interval: int): (Node, nat) {
    if visits == [] then (n, 0)
    else
      var (m, count) := Burst(n, visits[..|visits| - 1], interval);
      var (now, full) := visits[|visits| - 1];
      (Visit(m, now, full, interval), if Defers(m, now, full) && Misses(m, now) then count + 1 else count)
  }

  ghost predicate Chronological(visits: seq<(int, bool)>) {
    forall i, j | 0 <= i < j < |visits| :: visits[i].0 <= visits[j].0
  }

  /**
   Wake-ups cannot inflate the misses: however many passes a burst has, each slot
   of the node is missed at most once.
   */
  lemma {:induction false} MissesAreSlots(n: Node, visits: seq<(int, bool)>, interval: int)
    requires interval > 0 && visits != [] && Chronological(visits)
    ensures var (m, count) := Burst(n, visits, interval);
      var now := visits[|visits| - 1].0;
      && m.due == n.due + count * interval
      && (count > 0 ==> n.due + (count - 1) * interval <= now)
      && (count > 0 ==> count <= (now - n.due) / interval + 1)
  {
    var last := |visits| - 1;
    var before := visits[..last];
    var (m, count) := Burst(n, before, interval);
    var (now, full) := visits[last];
    if before != [] {
      MissesAreSlots(n, before, interval);
    }
    var count' := Burst(n, visits, interval).1;
    assert count' == count + 1 ==> n.due + count' * interval == n.due + count * interval + interval;
    if count' > 0 {
      assert (count' - 1) * interval <= now - n.due;
      QuotientBound(count' - 1, now - n.due, interval);
    }
  }
}
