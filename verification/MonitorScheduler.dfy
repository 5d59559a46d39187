/**
 The monitor scheduler over all nodes: a pass visits every node once, admits due
 nodes while workers are free and queues the rest. Workers are counted until
 they report completion, even when their node was deleted while they ran.
 */
module MonitorScheduler {
  import opened Arithmetic
  import opened Durations
  import opened Options
  import opened MonitorNode

  function Capacity(nodes: map<nat, Node>): nat {
    if |nodes| > MAX_IN_FLIGHT then MAX_IN_FLIGHT else |nodes|
  }

  // ------------------------------------------------------------------- order

  ghost predicate StrictlySorted(s: seq<nat>) {
    forall i, j | 0 <= i < j < |s| :: s[i] < s[j]
  }

  /** The visiting order holds exactly the node IDs, each once, ascending. */
  ghost predicate OrderOf(order: seq<nat>, nodes: map<nat, Node>) {
    StrictlySorted(order) && (forall id :: id in order <==> id in nodes)
  }

  ghost predicate Distinct(s: seq<nat>) {
    forall i, j | 0 <= i < j < |s| :: s[i] != s[j]
  }

  /** The nodes in the order one pass visits them. */
  function Rotation(order: seq<nat>, cursor: nat): seq<nat>
    requires cursor <= |order|
  {
    order[cursor..] + order[..cursor]
  }

  // -------------------------------------------------------------------- pass

  datatype Tick = Tick(admitted: seq<nat>, queued: seq<nat>, skipped: seq<nat>,
                       warnDeferred: seq<nat>, recoveredDefer: seq<nat>, deferred: nat)

  const NO_TICK := Tick([], [], [], [], [], 0)

  datatype PassState = PassState(nodes: map<nat, Node>, inFlight: nat, tick: Tick)

  predicate Warns(n: Node, now: int, full: bool) {
    Defers(n, now, full) && Misses(n, now) && n.defers + 1 >= WARN_AFTER && !n.deferWarned
  }

  function VisitTick(t: Tick, id: nat, n: Node, now: int, full: bool): Tick {
    var miss := Defers(n, now, full) && Misses(n, now);
    t.(admitted := if Admits(n, now, full) then t.admitted + [id] else t.admitted,
       queued := if !n.inFlight && Due(n, now) && full then t.queued + [id] else t.queued,
       skipped := if n.inFlight then t.skipped + [id] else t.skipped,
       warnDeferred := if Warns(n, now, full) then t.warnDeferred + [id] else t.warnDeferred,
       recoveredDefer := if Admits(n, now, full) && n.deferWarned then t.recoveredDefer + [id] else t.recoveredDefer,
       deferred := if miss then t.deferred + 1 else t.deferred)
  }

  function VisitOne(p: PassState, id: nat, capacity: nat, now: int, interval: int): PassState {
    if id !in p.nodes then p
    else
      var n, full := p.nodes[id], p.inFlight >= capacity;
      PassState(p.nodes[id := Visit(n, now, full, interval)],
                if Admits(n, now, full) then p.inFlight + 1 else p.inFlight,
                VisitTick(p.tick, id, n, now, full))
  }

  function Pass(p: PassState, ids: seq<nat>, capacity: nat, now: int, interval: int): PassState
    decreases |ids|
  {
    if ids == [] then p else Pass(VisitOne(p, ids[0], capacity, now, interval), ids[1..], capacity, now, interval)
  }

  /** Visiting other nodes does not touch a node. */
  lemma {:induction false} PassOther(p: PassState, ids: seq<nat>, capacity: nat, now: int, interval: int, id: nat)
    requires id !in ids
    ensures var q := Pass(p, ids, capacity, now, interval);
      && (id in q.nodes <==> id in p.nodes)
      && (id in p.nodes ==> q.nodes[id] == p.nodes[id])
      && (id in q.tick.admitted <==> id in p.tick.admitted)
      && (id in q.tick.warnDeferred <==> id in p.tick.warnDeferred)
      && (id in q.tick.queued <==> id in p.tick.queued) && (id in q.tick.skipped <==> id in p.tick.skipped)
      && (id in q.tick.recoveredDefer <==> id in p.tick.recoveredDefer)
      && p.inFlight <= q.inFlight
    decreases |ids|
  {
    if ids != [] {
      PassOther(VisitOne(p, ids[0], capacity, now, interval), ids[1..], capacity, now, interval, id);
    }
  }

  /** How a pass treated a node: the capacity it met and what it reported. */
  ghost predicate VisitedAs(p: PassState, q: PassState, id: nat, full: bool, capacity: nat, now: int, interval: int) {
    && id in p.nodes && id in q.nodes
    && q.nodes[id] == Visit(p.nodes[id], now, full, interval)
    && (full ==> q.inFlight >= capacity)
    && (id in q.tick.admitted <==> id in p.tick.admitted || Admits(p.nodes[id], now, full))
    && (id in q.tick.warnDeferred <==> id in p.tick.warnDeferred || Warns(p.nodes[id], now, full))
    && (id in q.tick.queued <==> id in p.tick.queued || (!p.nodes[id].inFlight && Due(p.nodes[id], now) && full))
    && (id in q.tick.skipped <==> id in p.tick.skipped || p.nodes[id].inFlight)
    && (id in q.tick.recoveredDefer <==> id in p.tick.recoveredDefer || (Admits(p.nodes[id], now, full) && p.nodes[id].deferWarned))
  }

  /** A pass visits each of its nodes exactly once. */
  lemma {:induction false} PassEach(p: PassState, ids: seq<nat>, capacity: nat, now: int, interval: int, id: nat)
    returns (full: bool)
    requires Distinct(ids) && id in ids && id in p.nodes
    ensures VisitedAs(p, Pass(p, ids, capacity, now, interval), id, full, capacity, now, interval)
    decreases |ids|
  {
    var p1 := VisitOne(p, ids[0], capacity, now, interval);
    if ids[0] == id {
      full := p.inFlight >= capacity;
      assert id !in ids[1..];
      PassOther(p1, ids[1..], capacity, now, interval, id);
    } else {
      assert id in ids[1..];
      full := PassEach(p1, ids[1..], capacity, now, interval, id);
    }
  }

  /** A pass admits exactly as many workers as it reports, and never beyond capacity. */
  lemma {:induction false} PassCounts(p: PassState, ids: seq<nat>, capacity: nat, now: int, interval: int)
    ensures var q := Pass(p, ids, capacity, now, interval);
      && p.tick.admitted <= q.tick.admitted
      && q.inFlight - p.inFlight == |q.tick.admitted| - |p.tick.admitted|
      && q.inFlight <= Max(p.inFlight, capacity)
      && q.nodes.Keys == p.nodes.Keys
    decreases |ids|
  {
    if ids != [] {
      PassCounts(VisitOne(p, ids[0], capacity, now, interval), ids[1..], capacity, now, interval);
    }
  }

  // ------------------------------------------------------------------- state

  /** The scheduler with the history its promises are about: live workers and the latest time seen. */
  datatype Sched = Sched(nodes: map<nat, Node>, order: seq<nat>, cursor: nat, outstanding: nat,
                         workers: multiset<nat>, clock: int)

  const INITIAL := Sched(map[], [], 0, 0, multiset{}, 0)

  ghost predicate Inv(s: Sched, interval: int) {
    && OrderOf(s.order, s.nodes)
    && (if s.order == [] then s.cursor == 0 else s.cursor < |s.order|)
    && s.outstanding == |s.workers| <= MAX_IN_FLIGHT
    && s.clock >= 0
    && (forall id | id in s.nodes ::
          NodeOk(s.nodes[id], s.clock, interval) && (s.nodes[id].inFlight ==> id in s.workers))
  }

  // ------------------------------------------------------------------- steps

  datatype Event =
    | Sync(live: seq<nat>, now: int)
    | Plan(now: int)
    | Complete(id: nat, outcome: Outcome, draw: real, now: int)

  function SyncNodes(nodes: map<nat, Node>, live: seq<nat>, now: int): map<nat, Node> {
    map id | id in live :: if id in nodes then nodes[id] else NewNode(now)
  }

  ghost predicate SyncStep(s: Sched, live: seq<nat>, now: int, s': Sched) {
    && s'.nodes == SyncNodes(s.nodes, live, now)
    && OrderOf(s'.order, s'.nodes)
    && s'.cursor == (if s.cursor >= |s'.order| then 0 else s.cursor)
    && s'.outstanding == s.outstanding && s'.workers == s.workers && s'.clock == now
  }

  function PlanPass(s: Sched, now: int, interval: int): PassState
    requires s.cursor <= |s.order|
  {
    Pass(PassState(s.nodes, s.outstanding, NO_TICK), Rotation(s.order, s.cursor), Capacity(s.nodes), now, interval)
  }

  function PlanStep(s: Sched, now: int, interval: int): Sched
    requires s.cursor <= |s.order|
  {
    var q := PlanPass(s, now, interval);
    Sched(q.nodes, s.order, s.cursor, q.inFlight, s.workers + multiset(q.tick.admitted), now)
  }

  function CompleteStep(s: Sched, id: nat, outcome: Outcome, draw: real, now: int, interval: int): Sched
    requires interval > 0
  {
    var s1 := s.(outstanding := if s.outstanding > 0 then s.outstanding - 1 else 0,
                 workers := s.workers - multiset{id}, clock := now);
    if id !in s.nodes || !s.nodes[id].inFlight then s1
    else s1.(nodes := s.nodes[id := CompleteNode(s.nodes[id], outcome, now, interval, draw)])
  }

  /** Time goes forward, and only a live worker reports completion. */
  ghost predicate Next(s: Sched, e: Event, s': Sched, interval: int)
    requires interval > 0
  {
    && s.clock <= e.now && 0 < e.now
    && match e
       case Sync(live, now) => SyncStep(s, live, now, s')
       case Plan(now) => s.cursor <= |s.order| && s' == PlanStep(s, now, interval)
       case Complete(id, outcome, draw, now) =>
         id in s.workers && s' == CompleteStep(s, id, outcome, draw, now, interval)
  }

  lemma SyncKeepsInv(s: Sched, live: seq<nat>, now: int, s': Sched, interval: int)
    requires interval > 0 && Inv(s, interval) && s.clock <= now && 0 < now && SyncStep(s, live, now, s')
    ensures Inv(s', interval)
  {
  }

  /** After a sync exactly the listed nodes are there: known ones as they were, new ones due at once and without a history. */
  lemma SyncMeans(s: Sched, live: seq<nat>, now: int, s': Sched)
    requires SyncStep(s, live, now, s')
    ensures forall id :: id in s'.nodes <==> id in live
    ensures forall id | id in live && id in s.nodes :: s'.nodes[id] == s.nodes[id]
    ensures forall id | id in live && id !in s.nodes ::
      var n := s'.nodes[id];
      n.due == now && !n.inFlight && !n.queued && n.failures == 0 && n.defers == 0 && !n.failureWarned && !n.deferWarned
  {
  }

  lemma CompleteKeepsInv(s: Sched, id: nat, outcome: Outcome, draw: real, now: int, interval: int)
    requires interval > 0 && Inv(s, interval) && s.clock <= now && 0 < now && id in s.workers
    ensures Inv(CompleteStep(s, id, outcome, draw, now, interval), interval)
  {
    var s' := CompleteStep(s, id, outcome, draw, now, interval);
    if id in s.nodes && s.nodes[id].inFlight {
      CompleteKeepsNode(s.nodes[id], s.clock, now, outcome, interval, draw);
    }
    assert s'.nodes.Keys == s.nodes.Keys;
    assert s.workers == s'.workers + multiset{id};
  }

  lemma RotationVisitsAll(order: seq<nat>, cursor: nat)
    requires StrictlySorted(order) && cursor <= |order|
    ensures Distinct(Rotation(order, cursor))
    ensures forall id :: id in Rotation(order, cursor) <==> id in order
  {
  }

  function PlanStart(s: Sched): PassState { PassState(s.nodes, s.outstanding, NO_TICK) }

  /** The pass over all nodes, seen from one of them. */
  lemma PlanVisits(s: Sched, now: int, interval: int, id: nat) returns (full: bool)
    requires OrderOf(s.order, s.nodes) && s.cursor <= |s.order| && id in s.nodes
    ensures VisitedAs(PlanStart(s), PlanPass(s, now, interval), id, full, Capacity(s.nodes), now, interval)
  {
    RotationVisitsAll(s.order, s.cursor);
    full := PassEach(PlanStart(s), Rotation(s.order, s.cursor), Capacity(s.nodes), now, interval, id);
  }

  lemma PlanKeepsNode(s: Sched, now: int, interval: int, id: nat)
    requires interval > 0 && Inv(s, interval) && s.clock <= now && id in s.nodes
    ensures s.cursor <= |s.order|
    ensures var q := PlanPass(s, now, interval);
      && id in q.nodes && NodeOk(q.nodes[id], now, interval)
      && (q.nodes[id].inFlight ==> s.nodes[id].inFlight || id in q.tick.admitted)
  {
    var full := PlanVisits(s, now, interval, id);
    VisitKeepsNode(s.nodes[id], s.clock, now, full, interval);
  }

  lemma PlanKeepsInv(s: Sched, now: int, interval: int)
    requires interval > 0 && Inv(s, interval) && s.clock <= now && 0 < now
    ensures s.cursor <= |s.order| && Inv(PlanStep(s, now, interval), interval)
  {
    var q := PlanPass(s, now, interval);
    PassCounts(PlanStart(s), Rotation(s.order, s.cursor), Capacity(s.nodes), now, interval);
    assert |multiset(q.tick.admitted)| == |q.tick.admitted|;
    forall id | id in q.nodes
      ensures NodeOk(q.nodes[id], now, interval)
      ensures q.nodes[id].inFlight ==> id in s.workers + multiset(q.tick.admitted)
    {
      PlanKeepsNode(s, now, interval, id);
    }
  }

  // -------------------------------------------------------------------- runs

  ghost predicate Run(states: seq<Sched>, events: seq<Event>, interval: int)
    requires interval > 0
  {
    && |states| == |events| + 1 && states[0] == INITIAL
    && forall i | 0 <= i < |events| :: Next(states[i], events[i], states[i + 1], interval)
  }

  /** Capacity, order, horizon and escalation hold in every state of every run. */
  lemma {:induction false} RunKeepsInv(states: seq<Sched>, events: seq<Event>, interval: int, i: nat)
    requires interval > 0 && Run(states, events, interval) && i < |states|
    ensures Inv(states[i], interval)
  {
    if i > 0 {
      RunKeepsInv(states, events, interval, i - 1);
      var s, e, s' := states[i - 1], events[i - 1], states[i];
      assert Next(s, e, s', interval);
      match e
      case Sync(live, now) => SyncKeepsInv(s, live, now, s', interval);
      case Plan(now) => PlanKeepsInv(s, now, interval);
      case Complete(id, outcome, draw, now) => CompleteKeepsInv(s, id, outcome, draw, now, interval);
    }
  }

  // ------------------------------------------------------- work conservation

  /** A due or queued node exists while a worker is free. */
  ghost predicate HasAdmissible(s: Sched, now: int) {
    s.outstanding < Min(|s.nodes|, 16) && exists id :: id in s.nodes && Ready(s.nodes[id], now)
  }

  predicate Ready(n: Node, now: int) { !n.inFlight && (n.queued || n.due <= now) }

  /** A pass leaves nothing it could have admitted, so the caller never wakes up to a busy loop. */
  lemma PlanLeavesNothing(s: Sched, now: int, interval: int)
    requires interval > 0 && Inv(s, interval)
    ensures s.cursor <= |s.order| && !HasAdmissible(PlanStep(s, now, interval), now)
  {
    var q, cap := PlanPass(s, now, interval), Capacity(s.nodes);
    PassCounts(PlanStart(s), Rotation(s.order, s.cursor), cap, now, interval);
    assert Capacity(q.nodes) == cap by {
      assert |q.nodes| == |q.nodes.Keys| && |s.nodes| == |s.nodes.Keys|;
    }
    forall id | id in q.nodes
      ensures q.nodes[id].inFlight || !Due(q.nodes[id], now) || q.inFlight >= cap
    {
      var full := PlanVisits(s, now, interval, id);
    }
  }

  /** The node missed a slot: counted once, and the following slot is next. */
  predicate Missed(n: Node, m: Node, now: int, interval: int) {
    if n.due <= now then m.due == n.due + interval && m.defers == n.defers + 1 else m.due == n.due && m.defers == n.defers
  }

  /**
   What one pass does to each node. A running node keeps running; a node that is
   neither due nor queued is left alone; any other is admitted, or it is queued
   because every worker is taken. Slots are missed only by running and queued nodes.
   */
  ghost predicate Planned(s: Sched, q: PassState, now: int, interval: int, id: nat)
    requires id in s.nodes
  {
    id in q.nodes &&
    var n, m := s.nodes[id], q.nodes[id];
    if n.inFlight then m.inFlight && Missed(n, m, now, interval) && id in q.tick.skipped
    else if !n.queued && now < n.due then m == n && id !in q.tick.admitted && id !in q.tick.queued
    else if id in q.tick.admitted then m.inFlight && !m.queued && m.due == n.due && m.defers == 0 && id !in q.tick.queued
    else
      && !m.inFlight && m.queued && m.queuedAt == (if n.queued then n.queuedAt else now)
      && Missed(n, m, now, interval) && id in q.tick.queued && q.inFlight >= Min(|s.nodes|, 16)
  }

  lemma PlanOutcome(s: Sched, now: int, interval: int, id: nat)
    requires interval > 0 && Inv(s, interval) && id in s.nodes
    ensures s.cursor <= |s.order| && Planned(s, PlanPass(s, now, interval), now, interval, id)
  {
    var full := PlanVisits(s, now, interval, id);
  }

  /** A deferral streak warns in exactly the pass of its third missed slot, and admission ends it. */
  lemma WarnsAtThirdMiss(s: Sched, now: int, interval: int, id: nat)
    requires interval > 0 && Inv(s, interval) && id in s.nodes
    ensures s.cursor <= |s.order|
    ensures var q := PlanPass(s, now, interval);
      && (id in q.tick.warnDeferred <==> id in q.nodes && s.nodes[id].defers == WARN_AFTER - 1 && q.nodes[id].defers == WARN_AFTER)
      && (id in q.tick.admitted <==> id in q.nodes && q.nodes[id].inFlight && !s.nodes[id].inFlight)
      && (id in q.tick.admitted ==> q.nodes[id].defers == 0)
  {
    var full := PlanVisits(s, now, interval, id);
  }

  // ------------------------------------------------------------------ bursts

  /** Passes at the given times with no completion in between. */
  function Plans(s: Sched, times: seq<int>, interval: int): Sched {
    if times == [] then s
    else
      var t := Plans(s, times[..|times| - 1], interval);
      if t.cursor <= |t.order| then PlanStep(t, times[|times| - 1], interval) else t
  }

  /** A burst of passes treats every node as a burst of visits at the same times. */
  lemma {:induction false} PlansAreBursts(s: Sched, times: seq<int>, interval: int, id: nat)
    returns (visits: seq<(int, bool)>)
    requires interval > 0 && Inv(s, interval) && id in s.nodes
    requires forall i | 0 <= i < |times| :: s.clock <= times[i] && 0 < times[i]
    requires forall i, j | 0 <= i < j < |times| :: times[i] <= times[j]
    ensures |visits| == |times| && forall i | 0 <= i < |times| :: visits[i].0 == times[i]
    ensures var t := Plans(s, times, interval);
      && Inv(t, interval) && (times != [] ==> t.clock == times[|times| - 1]) && (times == [] ==> t == s)
      && id in t.nodes && t.nodes[id] == Burst(s.nodes[id], visits, interval).0
  {
    visits := [];
    if times != [] {
      var n := |times| - 1;
      var init := times[..n];
      visits := PlansAreBursts(s, init, interval, id);
      var t := Plans(s, init, interval);
      var full := PlanVisitsOne(s.nodes[id], t, visits, times[n], interval, id);
      visits := visits + [(times[n], full)];
    }
  }

  /** One more pass is one more visit. */
  lemma PlanVisitsOne(n: Node, t: Sched, visits: seq<(int, bool)>, now: int, interval: int, id: nat) returns (full: bool)
    requires interval > 0 && Inv(t, interval) && id in t.nodes && t.clock <= now && 0 < now
    requires t.nodes[id] == Burst(n, visits, interval).0
    ensures t.cursor <= |t.order|
    ensures var u := PlanStep(t, now, interval);
      && Inv(u, interval) && u.clock == now && id in u.nodes
      && u.nodes[id] == Burst(n, visits + [(now, full)], interval).0
  {
    full := PlanVisits(t, now, interval, id);
    PlanKeepsInv(t, now, interval);
    assert (visits + [(now, full)])[..|visits|] == visits;
  }

  // --------------------------------------------------------------- scheduler

  lemma InsertedSorted(s: seq<nat>, k: nat, x: nat, r: seq<nat>)
    requires StrictlySorted(s) && x !in s && k <= |s| && r == s[..k] + [x] + s[k..]
    requires (forall j | k <= j < |s| :: x < s[j]) && (k > 0 ==> s[k - 1] <= x)
    ensures StrictlySorted(r)
  {
  }

  lemma InsertedMembers(s: seq<nat>, k: nat, x: nat, r: seq<nat>)
    requires k <= |s| && r == s[..k] + [x] + s[k..]
    ensures forall id :: id in r <==> id in s || id == x
  {
  }

  method InsertId(s: seq<nat>, x: nat) returns (r: seq<nat>)
    requires StrictlySorted(s) && x !in s
    ensures StrictlySorted(r) && |r| == |s| + 1 && forall id :: id in r <==> id in s || id == x
  {
    var k := |s|;
    while k > 0 && x < s[k - 1]
      invariant 0 <= k <= |s|
      invariant forall j | k <= j < |s| :: x < s[j]
    {
      k := k - 1;
    }
    r := s[..k] + [x] + s[k..];
    InsertedSorted(s, k, x, r);
    InsertedMembers(s, k, x, r);
  }

  /** Sort distinct IDs ascending. */
  method SortIds(s: seq<nat>) returns (r: seq<nat>)
    requires Distinct(s)
    ensures StrictlySorted(r) && |r| == |s| && forall id :: id in r <==> id in s
  {
    r := [];
    for i := 0 to |s|
      invariant StrictlySorted(r) && |r| == i
      invariant forall id :: id in r <==> id in s[..i]
    {
      assert s[..i + 1] == s[..i] + [s[i]];
      r := InsertId(r, s[i]);
    }
    assert s[..|s|] == s;
  }

  lemma WrapAround(a: nat, n: nat)
    requires a < n
    ensures a % n == a && (a + 1) % n == if a + 1 == n then 0 else a + 1
  {
  }

  /** The branches a pass takes for one node. */
  method VisitNode(n: Node, now: int, full: bool, interval: int) returns (m: Node, admitted: bool)
    ensures m == Visit(n, now, full, interval) && admitted == Admits(n, now, full)
  {
    m, admitted := n, false;
    if n.inFlight {
      m := NoteDefer(n, now, interval);
    } else if Due(n, now) {
      if full {
        if !n.queued {
          m := n.(queued := true, queuedAt := now);
        }
        m := NoteDefer(m, now, interval);
      } else {
        m, admitted := n.(inFlight := true, queued := false, defers := 0, deferWarned := false), true;
      }
    }
  }

  /** The branches a completion takes, with what it reports. */
  method FinishNode(n: Node, outcome: Outcome, now: int, interval: int, draw: real)
    returns (node: Node, result: Completion)
    requires interval > 0 && (n.failureWarned <==> n.failures >= WARN_AFTER)
    ensures node == CompleteNode(n, outcome, now, interval, draw)
    ensures result.failures == node.failures
    ensures result.warnDegraded <==> outcome.Failure? && node.failures == WARN_AFTER
    ensures result.recovered <==> outcome.Success? && n.failures >= WARN_AFTER
  {
    node, result := n.(inFlight := false), Completion(0, false, false);
    match outcome {
      case Success =>
        if node.failureWarned {
          result := result.(recovered := true);
          node := node.(failureWarned := false);
        }
        var due := NextAlignedLoop(node.due, now, interval);
        node := node.(failures := 0, due := due, queued := false);
      case Failure =>
        node := node.(failures := node.failures + 1);
        if node.failures >= WARN_AFTER && !node.failureWarned {
          result := result.(warnDegraded := true);
          node := node.(failureWarned := true);
        }
        var delay := BackoffDelay(node.failures, interval, draw);
        node := node.(due := now + delay, queued := false);
      case _ =>
        if !node.queued {
          var due := NextAlignedLoop(node.due, now, interval);
          node := node.(due := due);
        }
    }
    result := result.(failures := node.failures);
  }

  /** The loop of one pass: every node once, starting and ending at the cursor. */
  method RunPass(start: map<nat, Node>, order: seq<nat>, first: nat, workers: nat, now: int, interval: int)
    returns (nodes: map<nat, Node>, cursor: nat, inFlight: nat, tick: Tick)
    requires first < |order|
    ensures PassState(nodes, inFlight, tick) ==
      Pass(PassState(start, workers, NO_TICK), Rotation(order, first), Capacity(start), now, interval)
    ensures cursor == first
  {
    nodes, cursor, inFlight, tick := start, first, workers, NO_TICK;
    var capacity, checked := Capacity(start), 0;
    ghost var ids := Rotation(order, first);
    while checked < |order|
      invariant 0 <= checked <= |order|
      invariant cursor == if first + checked < |order| then first + checked else first + checked - |order|
      invariant Pass(PassState(nodes, inFlight, tick), ids[checked..], capacity, now, interval)
             == Pass(PassState(start, workers, NO_TICK), ids, capacity, now, interval)
    {
      WrapAround(cursor, |order|);
      var id := order[cursor % |order|];
      cursor := (cursor + 1) % |order|;
      assert ids[checked..][0] == id && ids[checked..][1..] == ids[checked + 1..];
      checked := checked + 1;
      if id in nodes {
        var node, full := nodes[id], inFlight >= capacity;
        var visited, admitted := VisitNode(node, now, full, interval);
        nodes := nodes[id := visited];
        inFlight := if admitted then inFlight + 1 else inFlight;
        tick := VisitTick(tick, id, node, now, full);
      }
    }
    assert ids[checked..] == [];
  }

  class Scheduler {
    const interval: int
    var nodes: map<nat, Node>
    var order: seq<nat>
    var cursor: nat
    var outstanding: nat
    ghost var workers: multiset<nat>
    ghost var clock: int

    constructor (interval: int)
      ensures Valid() && State() == INITIAL
      ensures this.interval == if interval <= 0 then MINUTE else interval
    {
      this.interval := if interval <= 0 then MINUTE else interval;
      nodes, order, cursor, outstanding := map[], [], 0, 0;
      workers, clock := multiset{}, 0;
    }

    ghost function State(): Sched
      reads this
    {
      Sched(nodes, order, cursor, outstanding, workers, clock)
    }

    ghost predicate Valid()
      reads this
    {
      interval > 0 && Inv(State(), interval)
    }

    /** Reconcile with the live node list; new nodes are due at once, removed ones are reported. */
    method SyncLive(live: seq<nat>, now: int) returns (removed: seq<nat>)
      requires Valid() && clock <= now && 0 < now
      modifies this
      ensures Valid() && SyncStep(old(State()), live, now, State())
      ensures forall id :: id in removed <==> id in old(nodes) && id !in live
    {
      ghost var was := nodes;
      for i := 0 to |live|
        invariant unchanged(this`cursor) && unchanged(this`outstanding) && unchanged(this`workers) && unchanged(this`clock)
        invariant forall id :: id in nodes <==> id in was || id in live[..i]
        invariant forall id | id in nodes :: nodes[id] == if id in was then was[id] else NewNode(now)
        invariant Distinct(order) && forall id :: id in order <==> id in nodes
      {
        assert live[..i + 1] == live[..i] + [live[i]];
        if live[i] !in nodes {
          nodes := nodes[live[i] := NewNode(now)];
          order := order + [live[i]];
        }
      }
      assert live[..|live|] == live;
      order := SortIds(order);
      removed := DropDead(live);
      cursor := if cursor >= |order| then 0 else cursor;
      clock := now;
      assert nodes == SyncNodes(was, live, now);
      SyncKeepsInv(old(State()), live, now, State(), interval);
    }

    /** Keep the live nodes, in order, and report the others. */
    method DropDead(live: seq<nat>) returns (removed: seq<nat>)
      requires OrderOf(order, nodes)
      modifies this`order, this`nodes
      ensures OrderOf(order, nodes)
      ensures nodes == map id | id in old(nodes) && id in live :: old(nodes)[id]
      ensures forall id :: id in removed <==> id in old(nodes) && id !in live
    {
      var kept: seq<nat> := [];
      removed := [];
      ghost var was, all := nodes, order;
      for i := 0 to |order|
        invariant order == all && i <= |order|
        invariant StrictlySorted(kept) && (forall id :: id in kept <==> id in all[..i] && id in live)
        invariant forall id :: id in removed <==> id in all[..i] && id !in live
        invariant i < |all| ==> forall j | 0 <= j < |kept| :: kept[j] < all[i]
        invariant nodes == map id | id in was && id !in removed :: was[id]
      {
        assert all[..i + 1] == all[..i] + [all[i]];
        if order[i] in live {
          kept := kept + [order[i]];
        } else {
          removed := removed + [order[i]];
          nodes := nodes - {order[i]};
        }
      }
      assert all[..|all|] == all;
      order := kept;
    }

    /** One pass over all nodes in rotation, marking each in place. */
    method PlanNow(now: int) returns (tick: Tick)
      requires Valid() && clock <= now && 0 < now
      modifies this
      ensures Valid() && State() == PlanStep(old(State()), now, interval)
      ensures tick == PlanPass(old(State()), now, interval).tick
    {
      PlanKeepsInv(State(), now, interval);
      tick := PlanLocked(now);
    }

    method PlanLocked(now: int) returns (tick: Tick)
      requires if order == [] then cursor == 0 else cursor < |order|
      modifies this
      ensures State() == PlanStep(old(State()), now, interval)
      ensures tick == PlanPass(old(State()), now, interval).tick
    {
      ghost var s := State();
      ghost var q := PlanPass(s, now, interval);
      if order == [] {
        tick := NO_TICK;
        assert Rotation(order, cursor) == [] && q == PlanStart(s);
      } else {
        nodes, cursor, outstanding, tick := RunPass(nodes, order, cursor, outstanding, now, interval);
      }
      assert PassState(nodes, outstanding, tick) == q;
      workers, clock := s.workers + multiset(q.tick.admitted), now;
    }

    /** A worker reports: its slot is freed and its node gets its next due time. */
    method CompleteTask(id: nat, outcome: Outcome, draw: real, now: int) returns (result: Completion)
      requires Valid() && clock <= now && 0 < now && id in workers
      modifies this
      ensures Valid() && State() == CompleteStep(old(State()), id, outcome, draw, now, interval)
      ensures outstanding == old(outstanding) - 1 && nodes.Keys == old(nodes).Keys
      ensures forall k | k in nodes && (k != id || !old(nodes)[k].inFlight) :: nodes[k] == old(nodes)[k]
      ensures id in nodes && old(id in nodes && nodes[id].inFlight) ==>
        && !nodes[id].inFlight && result.failures == nodes[id].failures
        && (result.warnDegraded <==> outcome.Failure? && nodes[id].failures == WARN_AFTER)
        && (result.recovered <==> outcome.Success? && old(id in nodes && nodes[id].failures >= WARN_AFTER))
    {
      CompleteKeepsInv(State(), id, outcome, draw, now, interval);
      workers, clock := workers - multiset{id}, now;
      if outstanding > 0 {
        outstanding := outstanding - 1;
      }
      result := Completion(0, false, false);
      if id !in nodes || !nodes[id].inFlight {
        return;
      }
      var node: Node;
      node, result := FinishNode(nodes[id], outcome, now, interval, draw);
      nodes := nodes[id := node];
    }

    /** Whether a pass right now could admit work. */
    method CanAdmit(now: int) returns (r: bool)
      requires Valid()
      ensures r <==> HasAdmissible(State(), now)
    {
      if outstanding >= Capacity(nodes) {
        return false;
      }
      for i := 0 to |order|
        invariant forall j | 0 <= j < i :: !Ready(nodes[order[j]], now)
      {
        assert order[i] in nodes;
        if Ready(nodes[order[i]], now) {
          return true;
        }
      }
      return false;
    }

    /**
     The next wake-up: nothing when work could be admitted now, otherwise the
     earliest later slot of a node that is neither running nor queued.
     */
    method EarliestDue(now: int) returns (wake: Option<int>)
      requires Valid()
      ensures wake.Some? <==>
        && !(outstanding < Min(|nodes|, 16) && exists id :: id in nodes && DueAt(nodes[id]).Some? && nodes[id].due <= now)
        && exists id :: id in nodes && DueAt(nodes[id]).Some? && nodes[id].due > now
      ensures wake.Some? ==> wake.value > now && exists id :: id in nodes && DueAt(nodes[id]) == wake
      ensures wake.Some? ==> forall id | id in nodes && DueAt(nodes[id]).Some? && nodes[id].due > now :: wake.value <= nodes[id].due
    {
      if outstanding < Capacity(nodes) {
        var due := AnyDue(nodes, order, now);
        if due {
          return None;
        }
      }
      wake := LeastLater(nodes, order, now);
    }
  }

  method AnyDue(nodes: map<nat, Node>, order: seq<nat>, now: int) returns (r: bool)
    requires OrderOf(order, nodes)
    ensures r <==> exists id :: id in nodes && DueAt(nodes[id]).Some? && nodes[id].due <= now
  {
    for i := 0 to |order|
      invariant forall j | 0 <= j < i :: DueAt(nodes[order[j]]).None? || nodes[order[j]].due > now
    {
      assert order[i] in nodes;
      if DueAt(nodes[order[i]]).Some? && nodes[order[i]].due <= now {
        return true;
      }
    }
    return false;
  }

  method LeastLater(nodes: map<nat, Node>, order: seq<nat>, now: int) returns (wake: Option<int>)
    requires OrderOf(order, nodes)
    ensures wake.Some? ==> wake.value > now && exists id :: id in nodes && DueAt(nodes[id]) == wake
    ensures forall id | id in nodes && DueAt(nodes[id]).Some? && nodes[id].due > now :: wake.Some? && wake.value <= nodes[id].due
  {
    wake := None;
    for i := 0 to |order|
      invariant wake.Some? ==> wake.value > now && exists id :: id in nodes && DueAt(nodes[id]) == wake
      invariant forall j | 0 <= j < i && DueAt(nodes[order[j]]).Some? && nodes[order[j]].due > now ::
        wake.Some? && wake.value <= nodes[order[j]].due
    {
      assert order[i] in nodes;
      var due := DueAt(nodes[order[i]]);
      if due.Some? && due.value > now && (wake.None? || due.value < wake.value) {
        wake := due;
      }
    }
  }

  /** When a node that is neither running nor queued is due. */
  function DueAt(n: Node): (due: Option<int>)
    ensures due.Some? <==> !n.inFlight && !n.queued
  {
    if n.inFlight || n.queued then None else Some(n.due)
  }

  /** Jump over the missed slots, then step while still not after now. */
  method NextAlignedLoop(previous: int, now: int, interval: int) returns (next: int)
    requires interval > 0
    ensures next == NextAligned(previous, now, interval)
  {
    next := previous;
    if next == 0 || next <= now {
      ghost var p := if previous == 0 then interval else previous;
      if next == 0 {
        next := interval;
      } else {
        var steps := (now - next) / interval + 1;
        Quotient(now - next, interval);
        SkipSlots(previous, steps, now, interval);
        next := next + steps * interval;
      }
      while next <= now
        invariant FirstSlot(next, now, interval) == FirstSlot(p, now, interval)
        decreases now - next
      {
        next := next + interval;
      }
    }
  }
}
