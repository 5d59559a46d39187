/**
 Installation jobs against server removals. A reconciliation pass captures the
 install epoch before it reads the server list; a removal fences its server and
 moves the epoch both when it starts and when it closes.
 */
module InstallFence {
  import opened Durations
  import opened Options

  const MAX_JOBS := 16
  const SLOTS := 4

  // ------------------------------------------------------------------- state

  /** What is remembered about a server's failed attempts under one configuration key. */
  datatype Retry = Retry(key: string, failures: nat, busy: nat, due: int)

  const NO_RETRY := Retry("", 0, 0, 0)

  /** What a job was scheduled with. */
  datatype Attempt = Attempt(key: string, epoch: nat, retry: Retry)

  /** How far a job's work is, which slots it holds and whether the work has returned. */
  datatype Stages = Stages(begun: bool, transfer: bool, activating: bool, activation: bool, left: bool)

  /** An admitted job; `admitted` and `listed` are when it was admitted and when its server list was read. */
  datatype Job = Job(id: nat, canceled: bool, admitted: nat, listed: nat, attempt: Attempt, stages: Stages)

  /** Jobs by server, and the occupied slots of the two resource pools. */
  datatype Pool = Pool(jobs: map<nat, Job>, transfer: nat, activation: nat)

  /** A removal request. Only one that is fenced, prepared or failed holds the fence. */
  datatype Phase = Asked | Refused | Fenced(joins: Option<nat>) | Prepared | Failed | Closed

  datatype Removal = Removal(server: nat, phase: Phase)

  /** Removal requests, and for each fenced server the request that owns its fence. */
  datatype Fences = Fences(requests: map<nat, Removal>, owners: map<nat, nat>)

  /** One reconciliation pass: the epoch it captured, when, and the list it read afterwards. */
  datatype Pass = Pass(epoch: nat, captured: nat, listed: Option<nat>, servers: set<nat>)

  /** The install epoch, the current pass, and when each server's fence was last released. */
  datatype Rounds = Rounds(epoch: nat, pass: Pass, closed: map<nat, nat>)

  /** `tick` orders the steps. */
  datatype State = State(tick: nat, nextJob: nat, pool: Pool, retries: map<nat, Retry>, fences: Fences, rounds: Rounds)

  const INITIAL := State(1, 0, Pool(map[], 0, 0), map[], Fences(map[], map[]),
                         Rounds(0, Pass(0, 0, None, {}), map[]))

  datatype Outcome = Installed | Canceled | Progress | Busy | Broken

  datatype Event =
    | ChangeSettings
    | BeginPass
    | ReadServers(servers: set<nat>)
    | Schedule(server: nat, key: string, lastAttempt: Option<int>, now: int, stopped: bool)
    | EndPass
    | CancelJob(server: nat)
    | BeginInstall(server: nat)
    | LeaveTransfer(server: nat)
    | BeginActivation(server: nat)
    | Finish(server: nat)
    | Complete(server: nat, outcome: Outcome, draw: nat, now: int)
    | AskRemoval(request: nat, server: nat)
    | FenceRemoval(request: nat, ok: bool)
    | Join(request: nat, ok: bool, stored: bool)
    | CloseRemoval(request: nat)

  // ------------------------------------------------------------------- retry

  function RetryBase(failures: int): int {
    if failures <= 1 then MINUTE
    else if failures == 2 then 2 * MINUTE
    else if failures == 3 then 4 * MINUTE
    else if failures == 4 then 8 * MINUTE
    else 10 * MINUTE
  }

  /** The base doubles from one minute to ten and the draw adds at most half of it. */
  function RetryDelay(failures: int, draw: nat): int { RetryBase(failures) + draw % (RetryBase(failures) / 2 + 1) }

  const TRANSFER_RETRY := 30 * SECOND
  const SHORT_RETRIES := 5

  function Delay(r: Retry, outcome: Outcome, draw: nat): int {
    match outcome
    case Progress => TRANSFER_RETRY
    case Busy => if r.busy > SHORT_RETRIES then RetryDelay(r.busy - SHORT_RETRIES, draw) else TRANSFER_RETRY
    case _ => RetryDelay(r.failures, draw)
  }

  function Counted(r: Retry, outcome: Outcome): Retry {
    match outcome
    case Progress => r.(busy := 0)
    case Busy => r.(busy := r.busy + 1)
    case _ => r.(busy := 0, failures := r.failures + 1)
  }

  function NextRetry(a: Attempt, outcome: Outcome, draw: nat, now: int): Retry {
    var r := Counted(if a.retry.key == a.key then a.retry else Retry(a.key, 0, 0, 0), outcome);
    r.(due := now + Delay(r, outcome, draw))
  }

  /** Every retry waits between 30 seconds and 15 minutes, and a failure at least a minute. */
  lemma RetryWaits(a: Attempt, outcome: Outcome, draw: nat, now: int)
    ensures var r := NextRetry(a, outcome, draw, now);
      && r.key == a.key && now + 30 * SECOND <= r.due <= now + 15 * MINUTE
      && (outcome == Broken ==> now + MINUTE <= r.due)
  {
  }

  function Pow2(k: nat): int { if k == 0 then 1 else 2 * Pow2(k - 1) }

  lemma {:induction false} PowerReaches(k: nat)
    ensures Pow2(k) >= 1 && (k >= 4 ==> Pow2(k) >= 16)
  {
    if k > 0 {
      PowerReaches(k - 1);
    }
  }

  lemma BaseDoubles(failures: nat)
    requires failures > 0
    ensures RetryBase(failures) == Min(MINUTE * Pow2(failures - 1), 10 * MINUTE) && RetryBase(failures) >= MINUTE
  {
    if failures > 4 {
      PowerReaches(failures - 1);
    } else {
      assert Pow2(1) == 2 && Pow2(2) == 4 && Pow2(3) == 8;
    }
  }

  /** A repeated failure waits a minute doubled for each one before it, ten at most, and up to half of that more. */
  lemma FailureWait(failures: nat, draw: nat)
    requires failures > 0
    ensures var base := Min(MINUTE * Pow2(failures - 1), 10 * MINUTE);
      base <= RetryDelay(failures, draw) <= base + base / 2 && (draw == 0 ==> RetryDelay(failures, draw) == base)
  {
    BaseDoubles(failures);
  }

  /** What was counted under this key before the attempt. */
  function FailuresBefore(a: Attempt): nat { if a.retry.key == a.key then a.retry.failures else 0 }

  function BusyBefore(a: Attempt): nat { if a.retry.key == a.key then a.retry.busy else 0 }

  /** A retry keeps its key and counts: a failure one more, a busy answer one more busy, progress neither. */
  predicate Counts(a: Attempt, outcome: Outcome, r: Retry) {
    && r.key == a.key
    && r.failures == FailuresBefore(a) + (if outcome.Busy? || outcome.Progress? then 0 else 1)
    && r.busy == if outcome.Busy? then BusyBefore(a) + 1 else 0
  }

  /** Progress and the first busy answers wait 30 seconds; failures and longer busy streaks back off. */
  lemma NextRetryMeans(a: Attempt, outcome: Outcome, draw: nat, now: int)
    ensures var r := NextRetry(a, outcome, draw, now);
      && Counts(a, outcome, r)
      && (outcome.Progress? || (outcome.Busy? && r.busy <= 5) ==> r.due == now + 30 * SECOND)
      && (outcome.Busy? && r.busy > 5 ==> r.due == now + RetryDelay(r.busy - 5, draw))
      && (!outcome.Progress? && !outcome.Busy? ==> r.due == now + RetryDelay(r.failures, draw))
  {
  }

  // -------------------------------------------------------------------- jobs

  function Put(p: Pool, server: nat, job: Job): Pool { p.(jobs := p.jobs[server := job]) }

  function CancelAll(p: Pool): Pool {
    p.(jobs := map server | server in p.jobs :: p.jobs[server].(canceled := true))
  }

  function Cancel(p: Pool, server: nat): Pool {
    if server in p.jobs then Put(p, server, p.jobs[server].(canceled := true)) else p
  }

  function Less(n: nat, held: bool): nat { if held && 0 < n then n - 1 else n }

  /** A job takes a transfer slot, gives it back, takes an activation slot, or gives back what it holds. */
  function Stage(p: Pool, server: nat, e: Event): Pool
    requires server in p.jobs
  {
    var g := p.jobs[server].stages;
    match e
    case BeginInstall(_) =>
      if g.begun || g.left || p.transfer >= SLOTS then p
      else SetStages(p, server, g.(begun := true, transfer := true)).(transfer := p.transfer + 1)
    case LeaveTransfer(_) =>
      if !g.begun || g.activating || g.left then p
      else SetStages(p, server, g.(activating := true, transfer := false)).(transfer := Less(p.transfer, g.transfer))
    case BeginActivation(_) =>
      if !g.activating || g.activation || g.left || p.activation >= SLOTS then p
      else SetStages(p, server, g.(activation := true)).(activation := p.activation + 1)
    case Finish(_) =>
      SetStages(p, server, g.(transfer := false, activation := false, left := true))
        .(transfer := Less(p.transfer, g.transfer), activation := Less(p.activation, g.activation))
    case _ => p
  }

  function SetStages(p: Pool, server: nat, g: Stages): Pool
    requires server in p.jobs
  {
    Put(p, server, p.jobs[server].(stages := g))
  }

  // ---------------------------------------------------------------- removals

  predicate Owning(p: Phase) { p.Fenced? || p.Prepared? || p.Failed? }

  function SetPhase(f: Fences, request: nat, phase: Phase): Fences
    requires request in f.requests
  {
    f.(requests := f.requests[request := f.requests[request].(phase := phase)])
  }

  function Own(f: Fences, request: nat, joins: Option<nat>): Fences
    requires request in f.requests
  {
    SetPhase(f, request, Fenced(joins)).(owners := f.owners[f.requests[request].server := request])
  }

  function Disown(f: Fences, request: nat): Fences
    requires request in f.requests
  {
    SetPhase(f, request, Closed).(owners := f.owners - {f.requests[request].server})
  }

  function JobId(p: Pool, server: nat): Option<nat> { if server in p.jobs then Some(p.jobs[server].id) else None }

  /** The job that the removal waits for has left the job table. */
  predicate Joined(p: Pool, server: nat, joins: Option<nat>) { joins.None? || JobId(p, server) != joins }

  // --------------------------------------------------------------- admission

  function RetryOf(s: State, server: nat): Retry { if server in s.retries then s.retries[server] else NO_RETRY }

  predicate Due(r: Retry, key: string, lastAttempt: Option<int>, now: int) {
    if r.key == key then r.due <= now
    else !(r.key == "" && lastAttempt.Some? && now - lastAttempt.value < MINUTE)
  }

  /** Only a pass that captured the current epoch admits, one job per unfenced server it listed. */
  predicate Admits(s: State, server: nat, key: string, lastAttempt: Option<int>, now: int, stopped: bool) {
    && s.rounds.pass.listed.Some? && server in s.rounds.pass.servers
    && server !in s.pool.jobs && server !in s.fences.owners && s.rounds.pass.epoch == s.rounds.epoch
    && |s.pool.jobs| < MAX_JOBS && !stopped && Due(RetryOf(s, server), key, lastAttempt, now)
  }

  function NewJob(s: State, server: nat, key: string): Job
    requires s.rounds.pass.listed.Some?
  {
    Job(s.nextJob, false, s.tick, s.rounds.pass.listed.value, Attempt(key, s.rounds.epoch, RetryOf(s, server)),
        Stages(false, false, false, false, false))
  }

  function RetriesAfter(s: State, server: nat, outcome: Outcome, draw: nat, now: int): map<nat, Retry>
    requires server in s.pool.jobs
  {
    var a := s.pool.jobs[server].attempt;
    if outcome.Installed? || outcome.Canceled? || a.epoch != s.rounds.epoch || server in s.fences.owners
    then s.retries - {server}
    else s.retries[server := NextRetry(a, outcome, draw, now)]
  }

  // ------------------------------------------------------------------- steps

  function PassStep(s: State, e: Event): State {
    match e
    case ChangeSettings => s.(rounds := s.rounds.(epoch := s.rounds.epoch + 1), pool := CancelAll(s.pool))
    case BeginPass => s.(rounds := s.rounds.(pass := Pass(s.rounds.epoch, s.tick, None, {})))
    case ReadServers(servers) =>
      if s.rounds.pass.listed.Some? then s
      else s.(rounds := s.rounds.(pass := s.rounds.pass.(listed := Some(s.tick), servers := servers)))
    case Schedule(server, key, lastAttempt, now, stopped) =>
      if !Admits(s, server, key, lastAttempt, now, stopped) then s
      else s.(pool := Put(s.pool, server, NewJob(s, server, key)), nextJob := s.nextJob + 1)
    case EndPass =>
      s.(retries := map server | server in s.retries && server in s.rounds.pass.servers :: s.retries[server])
    case _ => s
  }

  function JobStep(s: State, server: nat, e: Event): State
    requires server in s.pool.jobs
  {
    match e
    case CancelJob(_) => s.(pool := Cancel(s.pool, server))
    case Complete(_, outcome, draw, now) =>
      if !s.pool.jobs[server].stages.left then s
      else s.(pool := s.pool.(jobs := s.pool.jobs - {server}), retries := RetriesAfter(s, server, outcome, draw, now))
    case _ => s.(pool := Stage(s.pool, server, e))
  }

  function RemovalStep(s: State, request: nat, e: Event): State
    requires request in s.fences.requests
  {
    var r := s.fences.requests[request];
    match e
    case FenceRemoval(_, ok) =>
      if !r.phase.Asked? || (ok && r.server in s.fences.owners) then s
      else if !ok then s.(fences := SetPhase(s.fences, request, Refused))
      else s.(fences := Own(s.fences, request, JobId(s.pool, r.server)), pool := Cancel(s.pool, r.server),
              rounds := s.rounds.(epoch := s.rounds.epoch + 1))
    case Join(_, ok, stored) =>
      if !r.phase.Fenced? || (ok && !Joined(s.pool, r.server, r.phase.joins)) then s
      else s.(fences := SetPhase(s.fences, request, if ok && stored then Prepared else Failed))
    case CloseRemoval(_) =>
      if !Owning(r.phase) then s
      else s.(fences := Disown(s.fences, request),
              rounds := s.rounds.(epoch := s.rounds.epoch + 1, closed := s.rounds.closed[r.server := s.tick]))
    case _ => s
  }

  function Act(s: State, e: Event): State {
    if e.AskRemoval? then
      if e.request in s.fences.requests then s
      else s.(fences := s.fences.(requests := s.fences.requests[e.request := Removal(e.server, Asked)]))
    else if e.FenceRemoval? || e.Join? || e.CloseRemoval? then
      if e.request in s.fences.requests then RemovalStep(s, e.request, e) else s
    else if e.CancelJob? || e.BeginInstall? || e.LeaveTransfer? || e.BeginActivation? || e.Finish? || e.Complete? then
      if e.server in s.pool.jobs then JobStep(s, e.server, e) else s
    else PassStep(s, e)
  }

  function Step(s: State, e: Event): State { Act(s, e).(tick := s.tick + 1) }

  // --------------------------------------------------------------- invariant

  /** The fence of a server and the request that owns it name each other. */
  ghost predicate Owned(f: Fences) {
    && (forall server | server in f.owners ::
          var r := f.owners[server];
          r in f.requests && f.requests[r].server == server && Owning(f.requests[r].phase))
    && (forall r | r in f.requests && Owning(f.requests[r].phase) ::
          f.requests[r].server in f.owners && f.owners[f.requests[r].server] == r)
  }

  /** A job that a removal found is the one it waits for, is canceled, and is gone once prepared. */
  predicate Excludes(phase: Phase, job: Job) {
    job.canceled && !phase.Prepared? && (phase.Fenced? ==> phase.joins == Some(job.id))
  }

  ghost predicate Excluded(f: Fences, jobs: map<nat, Job>) {
    forall server | server in f.owners && server in jobs && f.owners[server] in f.requests ::
      Excludes(f.requests[f.owners[server]].phase, jobs[server])
  }

  /** A pass whose epoch is still current began after every release so far. */
  ghost predicate FreshPass(r: Rounds, tick: nat) {
    && r.pass.epoch <= r.epoch && r.pass.captured < tick
    && (r.pass.listed.Some? ==> r.pass.captured <= r.pass.listed.value)
    && (forall server | server in r.closed :: r.closed[server] < tick)
    && (r.pass.epoch == r.epoch ==> forall server | server in r.closed :: r.closed[server] < r.pass.captured)
  }

  predicate FreshJob(job: Job, closed: nat) { job.admitted < closed || closed < job.listed }

  ghost predicate FreshJobs(jobs: map<nat, Job>, closed: map<nat, nat>, tick: nat) {
    && (forall server | server in jobs :: jobs[server].admitted < tick)
    && (forall server | server in jobs && server in closed :: FreshJob(jobs[server], closed[server]))
  }

  function Transferring(jobs: map<nat, Job>): set<nat> { set server | server in jobs && jobs[server].stages.transfer }

  function Activating(jobs: map<nat, Job>): set<nat> { set server | server in jobs && jobs[server].stages.activation }

  predicate OneSlot(g: Stages) {
    && !(g.transfer && g.activation)
    && (g.transfer ==> g.begun && !g.activating) && (g.activation ==> g.activating) && (g.activating ==> g.begun)
    && (g.left ==> !g.transfer && !g.activation)
  }

  /** Slot counts are the jobs that hold them; no job holds both kinds. */
  ghost predicate Bounded(p: Pool) {
    && |p.jobs| <= MAX_JOBS
    && p.transfer == |Transferring(p.jobs)| <= SLOTS
    && p.activation == |Activating(p.jobs)| <= SLOTS
    && (forall server | server in p.jobs :: OneSlot(p.jobs[server].stages))
  }

  ghost predicate Inv(s: State) {
    && Owned(s.fences) && Excluded(s.fences, s.pool.jobs)
    && FreshPass(s.rounds, s.tick) && FreshJobs(s.pool.jobs, s.rounds.closed, s.tick) && Bounded(s.pool)
  }

  // ---------------------------------------------------------- what jobs keep

  /** Replacing a job moves the holder sets only at its server. */
  lemma HoldersPut(jobs: map<nat, Job>, server: nat, job: Job)
    ensures Transferring(jobs[server := job])
      == if job.stages.transfer then Transferring(jobs) + {server} else Transferring(jobs) - {server}
    ensures Activating(jobs[server := job])
      == if job.stages.activation then Activating(jobs) + {server} else Activating(jobs) - {server}
    ensures |jobs[server := job]| == if server in jobs then |jobs| else |jobs| + 1
  {
  }

  lemma HoldersDrop(jobs: map<nat, Job>, server: nat)
    requires server in jobs
    ensures Transferring(jobs - {server}) == Transferring(jobs) - {server}
    ensures Activating(jobs - {server}) == Activating(jobs) - {server}
    ensures |jobs - {server}| == |jobs| - 1
  {
  }

  /** A stage change with the matching counts keeps the pool bounded. */
  lemma StagesKeepBounds(p: Pool, server: nat, g: Stages, transfer: nat, activation: nat)
    requires Bounded(p) && server in p.jobs && OneSlot(g)
    requires var was := p.jobs[server].stages;
      && transfer - p.transfer == (if g.transfer then 1 else 0) - (if was.transfer then 1 else 0)
      && activation - p.activation == (if g.activation then 1 else 0) - (if was.activation then 1 else 0)
    requires transfer <= SLOTS && activation <= SLOTS
    ensures Bounded(SetStages(p, server, g).(transfer := transfer, activation := activation))
  {
    HoldersPut(p.jobs, server, p.jobs[server].(stages := g));
    assert p.jobs[server].stages.transfer <==> server in Transferring(p.jobs);
    assert p.jobs[server].stages.activation <==> server in Activating(p.jobs);
  }

  lemma StageKeepsBounds(p: Pool, server: nat, e: Event)
    requires Bounded(p) && server in p.jobs
    ensures Bounded(Stage(p, server, e))
  {
    var q := Stage(p, server, e);
    assert OneSlot(p.jobs[server].stages);
    assert p.jobs[server].stages.transfer ==> server in Transferring(p.jobs);
    assert p.jobs[server].stages.activation ==> server in Activating(p.jobs);
    if q != p {
      StagesKeepBounds(p, server, q.jobs[server].stages, q.transfer, q.activation);
    }
  }

  lemma CancelKeepsBounds(p: Pool, server: nat)
    requires Bounded(p)
    ensures Bounded(Cancel(p, server))
  {
    if server in p.jobs {
      HoldersPut(p.jobs, server, p.jobs[server].(canceled := true));
      assert Transferring(Cancel(p, server).jobs) == Transferring(p.jobs);
      assert Activating(Cancel(p, server).jobs) == Activating(p.jobs);
    }
  }

  lemma CancelAllKeepsBounds(p: Pool)
    requires Bounded(p)
    ensures Bounded(CancelAll(p))
  {
    assert CancelAll(p).jobs.Keys == p.jobs.Keys;
    assert Transferring(CancelAll(p).jobs) == Transferring(p.jobs);
    assert Activating(CancelAll(p).jobs) == Activating(p.jobs);
  }

  lemma PoolKeepsBounds(p: Pool, server: nat, job: Job)
    requires Bounded(p) && server !in p.jobs && |p.jobs| < MAX_JOBS
    requires job.stages == Stages(false, false, false, false, false)
    ensures Bounded(Put(p, server, job))
  {
    HoldersPut(p.jobs, server, job);
    assert Transferring(p.jobs[server := job]) == Transferring(p.jobs);
    assert Activating(p.jobs[server := job]) == Activating(p.jobs);
  }

  lemma DropKeepsBounds(p: Pool, server: nat)
    requires Bounded(p) && server in p.jobs && p.jobs[server].stages.left
    ensures Bounded(p.(jobs := p.jobs - {server}))
  {
    HoldersDrop(p.jobs, server);
    assert OneSlot(p.jobs[server].stages);
    assert Transferring(p.jobs) - {server} == Transferring(p.jobs) && Activating(p.jobs) - {server} == Activating(p.jobs);
  }

  /** Nothing but cancellation and stages of a job ever changes. */
  predicate SameJob(a: Job, b: Job) {
    b.id == a.id && (a.canceled ==> b.canceled) && b.admitted == a.admitted && b.listed == a.listed
  }

  ghost predicate NoNewJobs(jobs: map<nat, Job>, next: map<nat, Job>) {
    forall server | server in next :: server in jobs && SameJob(jobs[server], next[server])
  }

  lemma JobAddsNone(s: State, server: nat, e: Event)
    requires server in s.pool.jobs
    ensures NoNewJobs(s.pool.jobs, JobStep(s, server, e).pool.jobs)
    ensures var t := JobStep(s, server, e); t.fences == s.fences && t.rounds == s.rounds && t.tick == s.tick
  {
  }

  lemma NoNewKeeps(f: Fences, r: Rounds, jobs: map<nat, Job>, next: map<nat, Job>, tick: nat)
    requires Excluded(f, jobs) && FreshJobs(jobs, r.closed, tick) && NoNewJobs(jobs, next)
    ensures Excluded(f, next) && FreshJobs(next, r.closed, tick + 1)
  {
  }

  lemma JobKeepsBounds(s: State, server: nat, e: Event)
    requires Bounded(s.pool) && server in s.pool.jobs
    ensures Bounded(JobStep(s, server, e).pool)
  {
    if e.CancelJob? {
      CancelKeepsBounds(s.pool, server);
    } else if e.Complete? {
      if s.pool.jobs[server].stages.left {
        DropKeepsBounds(s.pool, server);
      }
    } else {
      StageKeepsBounds(s.pool, server, e);
    }
  }

  lemma JobKeepsInv(s: State, server: nat, e: Event)
    requires Inv(s) && server in s.pool.jobs
    ensures Inv(JobStep(s, server, e).(tick := s.tick + 1))
  {
    JobKeepsBounds(s, server, e);
    JobAddsNone(s, server, e);
    NoNewKeeps(s.fences, s.rounds, s.pool.jobs, JobStep(s, server, e).pool.jobs, s.tick);
  }

  // ------------------------------------------------------- what removals keep

  lemma OwnKeeps(f: Fences, p: Pool, request: nat)
    requires Owned(f) && Excluded(f, p.jobs) && request in f.requests && f.requests[request].phase.Asked?
    requires f.requests[request].server !in f.owners
    ensures var g := Own(f, request, JobId(p, f.requests[request].server));
      Owned(g) && Excluded(g, Cancel(p, f.requests[request].server).jobs)
  {
  }

  lemma PhaseKeeps(f: Fences, p: Pool, request: nat, phase: Phase)
    requires Owned(f) && Excluded(f, p.jobs) && request in f.requests && !phase.Fenced?
    requires Owning(phase) == Owning(f.requests[request].phase)
    requires phase.Prepared? ==> f.requests[request].server !in p.jobs
    ensures Owned(SetPhase(f, request, phase)) && Excluded(SetPhase(f, request, phase), p.jobs)
  {
  }

  lemma DisownKeeps(f: Fences, p: Pool, request: nat)
    requires Owned(f) && Excluded(f, p.jobs) && request in f.requests && Owning(f.requests[request].phase)
    ensures Owned(Disown(f, request)) && Excluded(Disown(f, request), p.jobs)
  {
  }

  /** While the fence is held, the joined job is the only one that can be on the server. */
  lemma JoinedIsGone(f: Fences, p: Pool, request: nat)
    requires Owned(f) && Excluded(f, p.jobs) && request in f.requests && f.requests[request].phase.Fenced?
    requires Joined(p, f.requests[request].server, f.requests[request].phase.joins)
    ensures f.requests[request].server !in p.jobs
  {
  }

  lemma CancelKeepsFresh(p: Pool, server: nat, closed: map<nat, nat>, tick: nat)
    requires FreshJobs(p.jobs, closed, tick)
    ensures FreshJobs(Cancel(p, server).jobs, closed, tick + 1)
  {
  }

  lemma OwnKeepsInv(s: State, request: nat)
    requires Inv(s) && request in s.fences.requests && s.fences.requests[request].phase.Asked?
    requires s.fences.requests[request].server !in s.fences.owners
    ensures Inv(RemovalStep(s, request, FenceRemoval(request, true)).(tick := s.tick + 1))
  {
    var server := s.fences.requests[request].server;
    OwnKeeps(s.fences, s.pool, request);
    CancelKeepsBounds(s.pool, server);
    CancelKeepsFresh(s.pool, server, s.rounds.closed, s.tick);
  }

  lemma FenceKeepsInv(s: State, request: nat, ok: bool)
    requires Inv(s) && request in s.fences.requests
    ensures Inv(RemovalStep(s, request, FenceRemoval(request, ok)).(tick := s.tick + 1))
  {
    var r := s.fences.requests[request];
    if r.phase.Asked? {
      if ok && r.server !in s.fences.owners {
        OwnKeepsInv(s, request);
      } else if !ok {
        PhaseKeeps(s.fences, s.pool, request, Refused);
      }
    }
  }

  lemma JoinKeepsInv(s: State, request: nat, ok: bool, stored: bool)
    requires Inv(s) && request in s.fences.requests
    ensures Inv(RemovalStep(s, request, Join(request, ok, stored)).(tick := s.tick + 1))
  {
    var r := s.fences.requests[request];
    if r.phase.Fenced? {
      if ok && Joined(s.pool, r.server, r.phase.joins) {
        JoinedIsGone(s.fences, s.pool, request);
        PhaseKeeps(s.fences, s.pool, request, if stored then Prepared else Failed);
      } else if !ok {
        PhaseKeeps(s.fences, s.pool, request, Failed);
      }
    }
  }

  lemma CloseKeepsInv(s: State, request: nat)
    requires Inv(s) && request in s.fences.requests
    ensures Inv(RemovalStep(s, request, CloseRemoval(request)).(tick := s.tick + 1))
  {
    if Owning(s.fences.requests[request].phase) {
      DisownKeeps(s.fences, s.pool, request);
    }
  }

  lemma AskKeeps(f: Fences, p: Pool, request: nat, server: nat)
    requires Owned(f) && Excluded(f, p.jobs) && request !in f.requests
    ensures var g := f.(requests := f.requests[request := Removal(server, Asked)]); Owned(g) && Excluded(g, p.jobs)
  {
  }

  // --------------------------------------------------------- what passes keep

  lemma AdmitKeepsInv(s: State, e: Event)
    requires Inv(s) && e.Schedule? && Admits(s, e.server, e.key, e.lastAttempt, e.now, e.stopped)
    ensures Inv(PassStep(s, e).(tick := s.tick + 1))
  {
    PoolKeepsBounds(s.pool, e.server, NewJob(s, e.server, e.key));
  }

  lemma PassKeepsInv(s: State, e: Event)
    requires Inv(s)
    ensures Inv(PassStep(s, e).(tick := s.tick + 1))
  {
    if e.ChangeSettings? {
      CancelAllKeepsBounds(s.pool);
      NoNewKeeps(s.fences, s.rounds, s.pool.jobs, CancelAll(s.pool).jobs, s.tick);
    } else if e.Schedule? && Admits(s, e.server, e.key, e.lastAttempt, e.now, e.stopped) {
      AdmitKeepsInv(s, e);
    }
  }

  lemma StepKeepsInv(s: State, e: Event)
    requires Inv(s)
    ensures Inv(Step(s, e))
  {
    if e.AskRemoval? {
      if e.request !in s.fences.requests {
        AskKeeps(s.fences, s.pool, e.request, e.server);
      }
    } else if e.FenceRemoval? || e.Join? || e.CloseRemoval? {
      if e.request in s.fences.requests {
        match e
        case FenceRemoval(request, ok) => FenceKeepsInv(s, request, ok);
        case Join(request, ok, stored) => JoinKeepsInv(s, request, ok, stored);
        case CloseRemoval(request) => CloseKeepsInv(s, request);
      }
    } else if e.CancelJob? || e.BeginInstall? || e.LeaveTransfer? || e.BeginActivation? || e.Finish? || e.Complete? {
      if e.server in s.pool.jobs {
        JobKeepsInv(s, e.server, e);
      }
    } else {
      PassKeepsInv(s, e);
    }
  }

  lemma InitialInv()
    ensures Inv(INITIAL)
  {
    assert Transferring(INITIAL.pool.jobs) == {} && Activating(INITIAL.pool.jobs) == {};
  }

  /** A job that holds a slot is counted in it. */
  lemma SlotHeld(p: Pool, server: nat)
    requires Bounded(p) && server in p.jobs
    ensures p.jobs[server].stages.transfer ==> 0 < p.transfer
    ensures p.jobs[server].stages.activation ==> 0 < p.activation
    ensures OneSlot(p.jobs[server].stages)
  {
    assert p.jobs[server].stages.transfer ==> server in Transferring(p.jobs);
    assert p.jobs[server].stages.activation ==> server in Activating(p.jobs);
  }

  // -------------------------------------------------------------------- runs

  ghost predicate Run(states: seq<State>, events: seq<Event>) {
    && |states| == |events| + 1 && states[0] == INITIAL
    && forall i | 0 <= i < |events| :: states[i + 1] == Step(states[i], events[i])
  }

  lemma RunKeepsInv(states: seq<State>, events: seq<Event>, i: nat)
    requires Run(states, events) && i < |states|
    ensures Inv(states[i])
  {
    var k := 0;
    InitialInv();
    while k < i
      invariant k <= i && Inv(states[k])
    {
      StepKeepsInv(states[k], events[k]);
      k := k + 1;
    }
  }

  /** At most one request owns the removal of a server. */
  lemma OneOwner(states: seq<State>, events: seq<Event>, i: nat, a: nat, b: nat)
    requires Run(states, events) && i < |states|
    requires a in states[i].fences.requests && b in states[i].fences.requests
    requires Owning(states[i].fences.requests[a].phase) && Owning(states[i].fences.requests[b].phase)
    requires states[i].fences.requests[a].server == states[i].fences.requests[b].server
    ensures a == b
  {
    RunKeepsInv(states, events, i);
  }

  /** A step that puts a new job on a server finds its fence free and its place empty. */
  lemma AdmittedUnfenced(states: seq<State>, events: seq<Event>, i: nat, server: nat)
    requires Run(states, events) && i < |events|
    requires server in states[i + 1].pool.jobs
    requires JobId(states[i].pool, server) != JobId(states[i + 1].pool, server)
    ensures events[i].Schedule? && events[i].server == server
    ensures server !in states[i].pool.jobs && server !in states[i + 1].fences.owners
    ensures states[i].rounds.pass.listed.Some? && server in states[i].rounds.pass.servers
  {
    var s, e := states[i], events[i];
    if e.CancelJob? || e.BeginInstall? || e.LeaveTransfer? || e.BeginActivation? || e.Finish? || e.Complete? {
      if e.server in s.pool.jobs {
        JobAddsNone(s, e.server, e);
      }
    }
  }

  lemma PreparedStays(s: State, e: Event, request: nat)
    requires request in s.fences.requests && s.fences.requests[request].phase.Prepared? && e != CloseRemoval(request)
    ensures request in Step(s, e).fences.requests
    ensures Step(s, e).fences.requests[request] == s.fences.requests[request]
  {
  }

  /** Once a removal is prepared, no job exists on its server until the removal is closed. */
  lemma {:induction false} PreparedExcludesJobs(states: seq<State>, events: seq<Event>, i: nat, j: nat, request: nat)
    requires Run(states, events) && i <= j < |states|
    requires request in states[i].fences.requests && states[i].fences.requests[request].phase.Prepared?
    requires forall k | i <= k < j :: events[k] != CloseRemoval(request)
    ensures request in states[j].fences.requests
    ensures states[j].fences.requests[request] == states[i].fences.requests[request]
    ensures states[i].fences.requests[request].server in states[j].fences.owners
    ensures states[i].fences.requests[request].server !in states[j].pool.jobs
  {
    RunKeepsInv(states, events, j);
    if i < j {
      PreparedExcludesJobs(states, events, i, j - 1, request);
      PreparedStays(states[j - 1], events[j - 1], request);
    }
  }

  /** A job admitted after a fence was released comes from a server list read after that release. */
  lemma AdmittedAfterCloseIsFresh(states: seq<State>, events: seq<Event>, i: nat, server: nat)
    requires Run(states, events) && i < |states|
    requires server in states[i].pool.jobs && server in states[i].rounds.closed
    requires states[i].rounds.closed[server] <= states[i].pool.jobs[server].admitted
    ensures states[i].rounds.closed[server] < states[i].pool.jobs[server].listed
  {
    RunKeepsInv(states, events, i);
  }

  /** Job and slot limits in every reachable state. */
  lemma CapacityHolds(states: seq<State>, events: seq<Event>, i: nat)
    requires Run(states, events) && i < |states|
    ensures |states[i].pool.jobs| <= 16
    ensures |Transferring(states[i].pool.jobs)| <= 4 && |Activating(states[i].pool.jobs)| <= 4
    ensures Transferring(states[i].pool.jobs) !! Activating(states[i].pool.jobs)
  {
    RunKeepsInv(states, events, i);
    assert forall server | server in states[i].pool.jobs :: OneSlot(states[i].pool.jobs[server].stages);
  }

  // --------------------------------------------- what one step tells its caller

  /** A pass begins at the current epoch, after every release so far. */
  lemma PassFacts(s: State)
    requires Inv(s)
    ensures var t := Step(s, BeginPass);
      && Inv(t) && t.rounds.pass.epoch == t.rounds.epoch && t.rounds.pass.listed.None?
      && forall server | server in t.rounds.closed :: t.rounds.closed[server] < t.rounds.pass.captured
  {
    StepKeepsInv(s, BeginPass);
  }

  /** The list is read after the epoch was captured; while that is current, after every release. */
  lemma ReadFacts(s: State, servers: set<nat>)
    requires Inv(s)
    ensures var t := Step(s, ReadServers(servers));
      && Inv(t) && t.rounds.pass.listed.Some? && t.rounds.pass.captured <= t.rounds.pass.listed.value
      && (t.rounds.pass.epoch == t.rounds.epoch ==>
            forall server | server in t.rounds.closed :: t.rounds.closed[server] < t.rounds.pass.listed.value)
  {
    StepKeepsInv(s, ReadServers(servers));
  }

  lemma SettingsFacts(s: State)
    requires Inv(s)
    ensures var t := Step(s, ChangeSettings);
      && Inv(t) && t.rounds.pass.epoch < t.rounds.epoch
      && forall server | server in t.pool.jobs :: t.pool.jobs[server].canceled
  {
    StepKeepsInv(s, ChangeSettings);
  }

  /** At most 16 jobs; a new one is alone on an unfenced server and comes from a list read after its last release. */
  lemma ScheduleFacts(s: State, e: Event)
    requires Inv(s) && e.Schedule?
    ensures var t := Step(s, e);
      && Inv(t) && |t.pool.jobs| <= 16
      && (Admits(s, e.server, e.key, e.lastAttempt, e.now, e.stopped) ==>
            && e.server in t.pool.jobs && e.server !in s.pool.jobs && e.server !in t.fences.owners
            && (e.server in t.rounds.closed ==> t.rounds.closed[e.server] < t.pool.jobs[e.server].listed))
      && (!Admits(s, e.server, e.key, e.lastAttempt, e.now, e.stopped) ==> t.pool == s.pool)
  {
    StepKeepsInv(s, e);
  }

  /** The attempt failed in the current epoch and nobody is removing its server. */
  predicate Retried(s: State, server: nat, outcome: Outcome)
    requires server in s.pool.jobs
  {
    && !outcome.Installed? && !outcome.Canceled? && server !in s.fences.owners
    && s.pool.jobs[server].attempt.epoch == s.rounds.epoch
  }

  /** The place is free, and a retry is remembered exactly after a failure in the current epoch on an unfenced server. */
  lemma CompleteFacts(s: State, e: Event)
    requires Inv(s) && e.Complete? && e.server in s.pool.jobs && s.pool.jobs[e.server].stages.left
    ensures var t := Step(s, e);
      && Inv(t) && t.pool.jobs == s.pool.jobs - {e.server}
      && t.retries == RetriesAfter(s, e.server, e.outcome, e.draw, e.now)
  {
    StepKeepsInv(s, e);
  }

  lemma RetryFacts(s: State, server: nat, outcome: Outcome, draw: nat, now: int)
    requires server in s.pool.jobs
    ensures var retries := RetriesAfter(s, server, outcome, draw, now);
      && (server in retries <==> Retried(s, server, outcome))
      && (server in retries ==> Waits(s.pool.jobs[server].attempt, outcome, retries[server], now))
      && OthersKept(s.retries, retries, server)
  {
    NextRetryMeans(s.pool.jobs[server].attempt, outcome, draw, now);
    RetryWaits(s.pool.jobs[server].attempt, outcome, draw, now);
  }

  predicate Waits(a: Attempt, outcome: Outcome, r: Retry, now: int) {
    Counts(a, outcome, r) && now + 30 * SECOND <= r.due <= now + 15 * MINUTE
  }

  predicate OthersKept(before: map<nat, Retry>, after: map<nat, Retry>, server: nat) {
    && (forall k | k in before && k != server :: k in after && after[k] == before[k])
    && (forall k | k in after && k != server :: k in before)
  }

  predicate StageEvent(e: Event) { e.BeginInstall? || e.LeaveTransfer? || e.BeginActivation? || e.Finish? }

  /** A stage change touches only the pool. */
  lemma StageStep(s: State, server: nat, e: Event)
    requires server in s.pool.jobs && StageEvent(e) && e.server == server
    ensures Step(s, e) == s.(pool := Stage(s.pool, server, e), tick := s.tick + 1)
  {
  }

  lemma StageKeepsInv(s: State, server: nat, e: Event)
    requires Inv(s) && server in s.pool.jobs && StageEvent(e) && e.server == server
    ensures Inv(Step(s, e))
  {
    StepKeepsInv(s, e);
  }

  /** After any stage change the slot counts are the holders', at most four each, and the job holds one kind at most. */
  lemma StageBounds(p: Pool, server: nat, e: Event)
    requires Bounded(p) && server in p.jobs
    ensures var q := Stage(p, server, e);
      && server in q.jobs && OneSlot(q.jobs[server].stages)
      && q.transfer == |Transferring(q.jobs)| <= 4 && q.activation == |Activating(q.jobs)| <= 4
  {
    StageKeepsBounds(p, server, e);
  }

  /** The end of a pass forgets exactly the retries of servers that it did not list. */
  lemma EndPassForgets(s: State, server: nat)
    ensures server in Step(s, EndPass).retries <==> server in s.retries && server in s.rounds.pass.servers
    ensures server in Step(s, EndPass).retries ==> Step(s, EndPass).retries[server] == s.retries[server]
  {
  }

  /** The request is the only owner of its server, the current pass is outdated, and a job found there is canceled. */
  lemma FenceFacts(s: State, request: nat, ok: bool)
    requires Inv(s) && request in s.fences.requests && s.fences.requests[request].phase.Asked?
    ensures var t, server := Step(s, FenceRemoval(request, ok)), s.fences.requests[request].server;
      && Inv(t) && request in t.fences.requests && t.fences.requests[request].server == server
      && Owning(t.fences.requests[request].phase) == (ok && server !in s.fences.owners)
      && (Owning(t.fences.requests[request].phase) ==>
            && t.rounds.pass.epoch < t.rounds.epoch && SoleOwner(t.fences, request)
            && (server in t.pool.jobs ==> t.pool.jobs[server].canceled))
  {
    StepKeepsInv(s, FenceRemoval(request, ok));
  }

  /** No other request owns the request's server. */
  ghost predicate SoleOwner(f: Fences, request: nat) {
    request in f.requests && forall r | r in f.requests && Owning(f.requests[r].phase)
      && f.requests[r].server == f.requests[request].server :: r == request
  }

  /** The fence stays; the removal is prepared or failed exactly when the server's job is gone or the wait ends. */
  lemma JoinFacts(s: State, request: nat, ok: bool, stored: bool)
    requires Inv(s) && request in s.fences.requests && s.fences.requests[request].phase.Fenced?
    ensures var t, server := Step(s, Join(request, ok, stored)), s.fences.requests[request].server;
      && Inv(t) && request in t.fences.requests && t.fences.requests[request].server == server
      && server in t.fences.owners && t.fences.owners[server] == request
      && t.fences.requests[request].phase
        == (if !ok then Failed else if server in s.pool.jobs then s.fences.requests[request].phase
            else if stored then Prepared else Failed)
      && t.pool == s.pool
  {
    StepKeepsInv(s, Join(request, ok, stored));
    if Joined(s.pool, s.fences.requests[request].server, s.fences.requests[request].phase.joins) {
      JoinedIsGone(s.fences, s.pool, request);
    }
  }

  /** The request owns nothing any more; if it did, its server is free and the current pass is outdated. */
  lemma CloseFacts(s: State, request: nat)
    requires Inv(s) && request in s.fences.requests
    ensures var t, owned := Step(s, CloseRemoval(request)), Owning(s.fences.requests[request].phase);
      && Inv(t) && request in t.fences.requests && !Owning(t.fences.requests[request].phase)
      && (forall server | server in t.fences.owners :: t.fences.owners[server] != request)
      && (owned ==> s.fences.requests[request].server !in t.fences.owners && t.rounds.pass.epoch < t.rounds.epoch)
      && (!owned ==> t.fences == s.fences && t.rounds == s.rounds)
  {
    StepKeepsInv(s, CloseRemoval(request));
  }
}
