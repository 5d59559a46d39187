/**
 The resident monitor's job table, slots and removal fence. Each call is one step
 of the protocol and keeps its invariant, so every caller may rely on the job and
 slot limits, on sole ownership of a fence, and on a prepared server being idle.
 */
module InstallMonitor {
  import opened Durations
  import opened Options
  import opened InstallFence

  class ResidentMonitor {
    var installJobs: map<nat, Job>
    var installRetries: map<nat, Retry>
    var transferSlots: nat
    var activationSlots: nat
    var requests: map<nat, Removal>
    var removing: map<nat, nat>
    var installEpoch: nat
    var nextJob: nat
    var pass: Pass
    ghost var closed: map<nat, nat>
    var tick: nat

    constructor ()
      ensures Valid() && Value() == INITIAL
    {
      installJobs, installRetries, transferSlots, activationSlots := map[], map[], 0, 0;
      requests, removing, installEpoch, nextJob := map[], map[], 0, 0;
      pass, closed, tick := Pass(0, 0, None, {}), map[], 1;
      InitialInv();
    }

    ghost function Value(): State
      reads this
    {
      State(tick, nextJob, Pool(installJobs, transferSlots, activationSlots), installRetries,
            Fences(requests, removing), Rounds(installEpoch, pass, closed))
    }

    ghost predicate Valid()
      reads this
    {
      Inv(Value())
    }

    /** Capture the epoch before the server list is read: every release so far lies before the pass. */
    method BeginPass()
      requires Valid()
      modifies this
      ensures Valid() && Value() == Step(old(Value()), Event.BeginPass)
      ensures pass.epoch == installEpoch && pass.listed.None?
      ensures forall server | server in closed :: closed[server] < pass.captured
    {
      PassFacts(Value());
      pass := Pass(installEpoch, tick, None, {});
      tick := tick + 1;
    }

    /** Read the list once per pass, never before the epoch was captured. */
    method ReadServers(servers: set<nat>)
      requires Valid()
      modifies this
      ensures Valid() && Value() == Step(old(Value()), Event.ReadServers(servers))
      ensures pass.listed.Some? && pass.captured <= pass.listed.value
      ensures pass.epoch == installEpoch ==> forall server | server in closed :: closed[server] < pass.listed.value
    {
      ReadFacts(Value(), servers);
      ReadLocked(servers);
    }

    method ReadLocked(servers: set<nat>)
      modifies this
      ensures Value() == Step(old(Value()), Event.ReadServers(servers))
    {
      if pass.listed.None? {
        pass := pass.(listed := Some(tick), servers := servers);
      }
      tick := tick + 1;
    }

    /** Replace every job's settings: the pass in progress can admit nothing more, and all jobs are canceled. */
    method ChangeSettings()
      requires Valid()
      modifies this
      ensures Valid() && Value() == Step(old(Value()), Event.ChangeSettings)
      ensures pass.epoch < installEpoch && forall server | server in installJobs :: installJobs[server].canceled
    {
      SettingsFacts(Value());
      ChangeSettingsLocked();
    }

    method ChangeSettingsLocked()
      modifies this
      ensures Value() == Step(old(Value()), Event.ChangeSettings)
    {
      installEpoch := installEpoch + 1;
      var canceled := CancelJobs(installJobs);
      assert canceled == CancelAll(Pool(installJobs, transferSlots, activationSlots)).jobs;
      installJobs := canceled;
      tick := tick + 1;
    }

    /**
     Admit an installation of a listed server, or refuse it. There are never more
     than 16 jobs; an admitted one is alone on an unfenced server and comes from a
     list read after the server's fence was last released.
     */
    method ScheduleInstall(server: nat, key: string, lastAttempt: Option<int>, now: int, stopped: bool) returns (ok: bool)
      requires Valid() && pass.listed.Some? && server in pass.servers
      modifies this
      ensures Valid() && Value() == Step(old(Value()), Schedule(server, key, lastAttempt, now, stopped))
      ensures ok == Admits(old(Value()), server, key, lastAttempt, now, stopped)
      ensures ok <==>
        && server !in old(installJobs) && server !in removing && pass.epoch == installEpoch && |old(installJobs)| < 16 && !stopped
        && Rested(installRetries, server, key, lastAttempt, now)
      ensures |installJobs| <= 16
      ensures ok ==> server in installJobs && server !in old(installJobs) && server !in removing
      ensures ok && server in closed ==> closed[server] < installJobs[server].listed
    {
      ScheduleFacts(Value(), Schedule(server, key, lastAttempt, now, stopped));
      ok := ScheduleLocked(server, key, lastAttempt, now, stopped);
    }

    method ScheduleLocked(server: nat, key: string, lastAttempt: Option<int>, now: int, stopped: bool) returns (ok: bool)
      requires pass.listed.Some? && server in pass.servers
      modifies this
      ensures Value() == Step(old(Value()), Schedule(server, key, lastAttempt, now, stopped))
      ensures ok == Admits(old(Value()), server, key, lastAttempt, now, stopped)
    {
      ok := Admissible(server, key, lastAttempt, now, stopped);
      tick := tick + 1;
      if ok {
        var retry := if server in installRetries then installRetries[server] else NO_RETRY;
        var job := Job(nextJob, false, tick - 1, pass.listed.value, Attempt(key, pass.epoch, retry),
                       Stages(false, false, false, false, false));
        installJobs := installJobs[server := job];
        nextJob := nextJob + 1;
      }
    }

    /** The conditions of admission, in the order they are tested. */
    method Admissible(server: nat, key: string, lastAttempt: Option<int>, now: int, stopped: bool) returns (ok: bool)
      requires pass.listed.Some? && server in pass.servers
      ensures ok == Admits(Value(), server, key, lastAttempt, now, stopped)
    {
      if server in installJobs || server in removing || pass.epoch != installEpoch || |installJobs| >= MAX_JOBS || stopped {
        return false;
      }
      var retry := if server in installRetries then installRetries[server] else NO_RETRY;
      if retry.key == key {
        return retry.due <= now;
      }
      return !(retry.key == "" && lastAttempt.Some? && now - lastAttempt.value < MINUTE);
    }

    /**
     The job's work returned: its place is free, and a retry is remembered exactly
     after a failure in the current epoch on an unfenced server, under its key, with
     its count raised, and due between 30 seconds and 15 minutes from now.
     */
    method CompleteJob(server: nat, outcome: Outcome, draw: nat, now: int)
      requires Valid() && server in installJobs && installJobs[server].stages.left
      modifies this
      ensures Valid() && Value() == Step(old(Value()), Complete(server, outcome, draw, now))
      ensures installJobs == old(installJobs) - {server}
      ensures server in installRetries <==> Retried(old(Value()), server, outcome)
      ensures server in installRetries ==> Waits(old(installJobs[server].attempt), outcome, installRetries[server], now)
      ensures OthersKept(old(installRetries), installRetries, server)
    {
      CompleteFacts(Value(), Complete(server, outcome, draw, now));
      RetryFacts(Value(), server, outcome, draw, now);
      CompleteLocked(server, outcome, draw, now);
    }

    method CompleteLocked(server: nat, outcome: Outcome, draw: nat, now: int)
      requires server in installJobs && installJobs[server].stages.left
      modifies this
      ensures Value() == Step(old(Value()), Complete(server, outcome, draw, now))
    {
      var attempt := installJobs[server].attempt;
      if outcome.Installed? || outcome.Canceled? || attempt.epoch != installEpoch || server in removing {
        installRetries := installRetries - {server};
      } else {
        var retry := AfterFailure(attempt, outcome, draw, now);
        installRetries := installRetries[server := retry];
      }
      installJobs := installJobs - {server};
      tick := tick + 1;
    }

    /** Take a transfer slot if one is free; never more than four are taken. */
    method BeginInstall(server: nat) returns (ok: bool)
      requires Valid() && server in installJobs && !installJobs[server].stages.begun && !installJobs[server].stages.left
      modifies this
      ensures Valid() && Value() == Step(old(Value()), Event.BeginInstall(server))
      ensures transferSlots == |Transferring(installJobs)| <= 4 && ok == (old(transferSlots) < 4)
      ensures server in installJobs && OneSlot(installJobs[server].stages)
      ensures ok ==> installJobs[server].stages.transfer && transferSlots == old(transferSlots) + 1
    {
      StageKeepsInv(Value(), server, Event.BeginInstall(server));
      StageStep(Value(), server, Event.BeginInstall(server));
      StageBounds(Value().pool, server, Event.BeginInstall(server));
      ok := SetStage(server, Event.BeginInstall(server));
    }

    /** Give the transfer slot back before asking for activation. */
    method LeaveTransfer(server: nat)
      requires Valid() && server in installJobs
      requires var g := installJobs[server].stages; g.begun && !g.activating && !g.left
      modifies this
      ensures Valid() && Value() == Step(old(Value()), Event.LeaveTransfer(server))
      ensures transferSlots == |Transferring(installJobs)| <= 4
      ensures server in installJobs && installJobs[server].stages.activating
      ensures !installJobs[server].stages.transfer && !installJobs[server].stages.activation
    {
      StageKeepsInv(Value(), server, Event.LeaveTransfer(server));
      StageStep(Value(), server, Event.LeaveTransfer(server));
      StageBounds(Value().pool, server, Event.LeaveTransfer(server));
      SlotHeld(Value().pool, server);
      var _ := SetStage(server, Event.LeaveTransfer(server));
    }

    /** Take an activation slot if one is free; never more than four are taken, and never beside a transfer slot. */
    method BeginActivation(server: nat) returns (ok: bool)
      requires Valid() && server in installJobs
      requires var g := installJobs[server].stages; g.activating && !g.activation && !g.left
      modifies this
      ensures Valid() && Value() == Step(old(Value()), Event.BeginActivation(server))
      ensures activationSlots == |Activating(installJobs)| <= 4 && ok == (old(activationSlots) < 4)
      ensures server in installJobs && OneSlot(installJobs[server].stages)
      ensures ok ==> installJobs[server].stages.activation && activationSlots == old(activationSlots) + 1
    {
      StageKeepsInv(Value(), server, Event.BeginActivation(server));
      StageStep(Value(), server, Event.BeginActivation(server));
      StageBounds(Value().pool, server, Event.BeginActivation(server));
      ok := SetStage(server, Event.BeginActivation(server));
    }

    /** Give back whatever slots the job holds; the counts stay those of the holders. */
    method Finish(server: nat)
      requires Valid() && server in installJobs
      modifies this
      ensures Valid() && Value() == Step(old(Value()), Event.Finish(server))
      ensures server in installJobs && installJobs[server].stages.left
      ensures !installJobs[server].stages.transfer && !installJobs[server].stages.activation
      ensures transferSlots == |Transferring(installJobs)| <= 4 && activationSlots == |Activating(installJobs)| <= 4
    {
      StageKeepsInv(Value(), server, Event.Finish(server));
      StageStep(Value(), server, Event.Finish(server));
      StageBounds(Value().pool, server, Event.Finish(server));
      SlotHeld(Value().pool, server);
      var _ := SetStage(server, Event.Finish(server));
    }

    /** Store the job's next stage and the slot counts that go with it. */
    method SetStage(server: nat, e: Event) returns (ok: bool)
      requires server in installJobs && StageEvent(e) && e.server == server
      requires e.LeaveTransfer? || e.Finish? ==>
        && (installJobs[server].stages.transfer ==> 0 < transferSlots)
        && (installJobs[server].stages.activation ==> 0 < activationSlots)
      modifies this
      ensures Value() == Step(old(Value()), e)
      ensures ok == (Value().pool != old(Value()).pool)
    {
      var next := NextStage(Pool(installJobs, transferSlots, activationSlots), server, e);
      ok := next != Pool(installJobs, transferSlots, activationSlots);
      installJobs, transferSlots, activationSlots := next.jobs, next.transfer, next.activation;
      tick := tick + 1;
    }

    /** A removal is asked for; it owns nothing yet. */
    method AskRemoval(request: nat, server: nat)
      requires Valid() && request !in requests
      modifies this
      ensures Valid() && Value() == Step(old(Value()), Event.AskRemoval(request, server))
      ensures request in requests && requests[request] == Removal(server, Asked)
      ensures removing == old(removing)
    {
      StepKeepsInv(Value(), Event.AskRemoval(request, server));
      requests := requests[request := Removal(server, Asked)];
      tick := tick + 1;
    }

    /**
     One round of the fencing loop: wait for the present owner, give up, or take
     the fence. An owner is the only one of its server, the pass in progress can
     admit nothing more, and a job found on the server is canceled.
     */
    method FenceRemoval(request: nat, ok: bool) returns (owned: bool)
      requires Valid() && request in requests && requests[request].phase.Asked?
      modifies this
      ensures Valid() && Value() == Step(old(Value()), Event.FenceRemoval(request, ok))
      ensures request in requests && requests[request].server == old(requests[request].server)
      ensures owned == (ok && requests[request].server !in old(removing)) && owned == Owning(requests[request].phase)
      ensures owned ==> SoleOwner(Value().fences, request) && pass.epoch < installEpoch
      ensures owned && requests[request].server in installJobs ==> installJobs[requests[request].server].canceled
    {
      FenceFacts(Value(), request, ok);
      FenceLocked(request, ok);
      owned := Owning(requests[request].phase);
    }

    method FenceLocked(request: nat, ok: bool)
      requires request in requests && requests[request].phase.Asked?
      modifies this
      ensures Value() == Step(old(Value()), Event.FenceRemoval(request, ok))
    {
      var server := requests[request].server;
      tick := tick + 1;
      if ok && server in removing {
        return;
      }
      if !ok {
        requests := requests[request := Removal(server, Refused)];
        return;
      }
      removing := removing[server := request];
      installEpoch := installEpoch + 1;
      if server in installJobs {
        requests := requests[request := Removal(server, Fenced(Some(installJobs[server].id)))];
        installJobs := installJobs[server := installJobs[server].(canceled := true)];
      } else {
        requests := requests[request := Removal(server, Fenced(None))];
      }
    }

    /**
     Wait for the fenced job, then load the node: an error is retained, the fence
     stays. Once prepared, the server has no job and its fence is still held.
     */
    method Join(request: nat, ok: bool, stored: bool)
      requires Valid() && request in requests && requests[request].phase.Fenced?
      modifies this
      ensures Valid() && Value() == Step(old(Value()), Event.Join(request, ok, stored))
      ensures request in requests && requests[request].server == old(requests[request].server)
      ensures requests[request].server in removing && removing[requests[request].server] == request
      ensures requests[request].phase ==
        (if !ok then Failed else if requests[request].server in installJobs then old(requests[request].phase)
         else if stored then Prepared else Failed)
      ensures installJobs == old(installJobs)
    {
      JoinFacts(Value(), request, ok, stored);
      JoinLocked(request, ok, stored);
    }

    method JoinLocked(request: nat, ok: bool, stored: bool)
      requires request in requests && requests[request].phase.Fenced?
      modifies this
      ensures Value() == Step(old(Value()), Event.Join(request, ok, stored))
    {
      var r := requests[request];
      tick := tick + 1;
      if !ok {
        requests := requests[request := r.(phase := Failed)];
        return;
      }
      if r.phase.joins.Some? && r.server in installJobs && installJobs[r.server].id == r.phase.joins.value {
        return;
      }
      requests := requests[request := r.(phase := if stored then Prepared else Failed)];
    }

    /**
     Release the fence once; closing again, or without owning it, changes nothing.
     After a release the pass in progress can admit nothing more.
     */
    method Close(request: nat)
      requires Valid() && request in requests
      modifies this
      ensures Valid() && Value() == Step(old(Value()), CloseRemoval(request))
      ensures request in requests && !Owning(requests[request].phase)
      ensures forall server | server in removing :: removing[server] != request
      ensures old(Owning(requests[request].phase)) ==>
        old(requests[request].server) !in removing && pass.epoch < installEpoch
      ensures !old(Owning(requests[request].phase)) ==> removing == old(removing) && installEpoch == old(installEpoch)
    {
      CloseFacts(Value(), request);
      CloseLocked(request);
    }

    method CloseLocked(request: nat)
      requires request in requests
      modifies this
      ensures Value() == Step(old(Value()), CloseRemoval(request))
    {
      var r := requests[request];
      if Owning(r.phase) {
        removing := removing - {r.server};
        installEpoch := installEpoch + 1;
        closed := closed[r.server := tick];
        requests := requests[request := r.(phase := Closed)];
      }
      tick := tick + 1;
    }
  }

  /**
   The retry under this key is due. Without any retry the last recorded attempt
   is a minute ago; a retry under another key is no reason to wait.
   */
  predicate Rested(retries: map<nat, Retry>, server: nat, key: string, lastAttempt: Option<int>, now: int) {
    if server in retries && retries[server].key != ""
    then retries[server].key == key ==> retries[server].due <= now
    else if key == "" then (if server in retries then retries[server].due else 0) <= now
    else lastAttempt.None? || MINUTE <= now - lastAttempt.value
  }

  /** The branches of the stage methods: take a slot when one is free, or give back what is held. */
  method NextStage(p: Pool, server: nat, e: Event) returns (q: Pool)
    requires server in p.jobs && StageEvent(e)
    requires e.LeaveTransfer? || e.Finish? ==>
      && (p.jobs[server].stages.transfer ==> 0 < p.transfer) && (p.jobs[server].stages.activation ==> 0 < p.activation)
    ensures q == Stage(p, server, e)
  {
    var g, transfer, activation := p.jobs[server].stages, p.transfer, p.activation;
    if e.BeginInstall? {
      if g.begun || g.left || transfer >= SLOTS {
        return p;
      }
      transfer, g := transfer + 1, g.(begun := true, transfer := true);
    } else if e.LeaveTransfer? {
      if !g.begun || g.activating || g.left {
        return p;
      }
      if g.transfer {
        transfer := transfer - 1;
      }
      g := g.(activating := true, transfer := false);
    } else if e.BeginActivation? {
      if !g.activating || g.activation || g.left || activation >= SLOTS {
        return p;
      }
      activation, g := activation + 1, g.(activation := true);
    } else {
      if g.transfer {
        transfer := transfer - 1;
      }
      if g.activation {
        activation := activation - 1;
      }
      g := g.(transfer := false, activation := false, left := true);
    }
    q := Pool(p.jobs[server := p.jobs[server].(stages := g)], transfer, activation);
  }

  /** Count a failed attempt under its key and draw the next due time. */
  method AfterFailure(attempt: Attempt, outcome: Outcome, draw: nat, now: int) returns (retry: Retry)
    ensures retry == NextRetry(attempt, outcome, draw, now)
  {
    retry := attempt.retry;
    if retry.key != attempt.key {
      retry := Retry(attempt.key, 0, 0, 0);
    }
    var delay := TRANSFER_RETRY;
    if outcome.Progress? {
      retry := retry.(busy := 0);
    } else if outcome.Busy? {
      retry := retry.(busy := retry.busy + 1);
      if retry.busy > SHORT_RETRIES {
        delay := RetryDelay(retry.busy - SHORT_RETRIES, draw);
      }
    } else {
      retry := retry.(busy := 0, failures := retry.failures + 1);
      delay := RetryDelay(retry.failures, draw);
    }
    retry := retry.(due := now + delay);
  }

  /** Cancel every job in turn. */
  method CancelJobs(jobs: map<nat, Job>) returns (canceled: map<nat, Job>)
    ensures canceled.Keys == jobs.Keys
    ensures forall server | server in jobs :: canceled[server] == jobs[server].(canceled := true)
  {
    canceled := jobs;
    var rest := jobs.Keys;
    while rest != {}
      invariant rest <= jobs.Keys == canceled.Keys
      invariant forall server | server in rest :: canceled[server] == jobs[server]
      invariant forall server | server in jobs.Keys - rest :: canceled[server] == jobs[server].(canceled := true)
      decreases |rest|
    {
      var server :| server in rest;
      canceled := canceled[server := canceled[server].(canceled := true)];
      rest := rest - {server};
    }
  }
}
