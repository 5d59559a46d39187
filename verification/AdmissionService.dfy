/**
 The running parts of admission: the user repository, the gate, the terminal
 registry and the service that changes passwords. Together they perform exactly
 the steps of the admission state machine.
 */
module AdmissionService {
  import opened Options
  import opened Admission
  import opened Commits

  /** The change got as far as COMMIT. */
  predicate Reached(rows: map<nat, Row>, user: nat, verified: bool) {
    user in rows && !rows[user].unresolved && verified
  }

  /** The row of a change that reached COMMIT. */
  function RowAfter(row: Row, fate: Fate): Row {
    match fate
    case TookEffect => row.(version := row.version + 1)
    case TookNoEffect => row
    case InFlight => row.(unresolved := true)
  }

  /** What a change does, given the row, the current-password check and the answer to COMMIT. */
  function ChangeOutcome(rows: map<nat, Row>, user: nat, verified: bool, commit: CommitReply): Change {
    if user !in rows || rows[user].unresolved || !verified then KnownFailure
    else if commit.CommitOk? then Acknowledged
    else if DefinitelyRolledBack(commit) then RolledBack
    else Unknown
  }

  /** A change whose fate is already decided when its answer is lost is resolved at once. */
  function ChangeStep(w: World, user: nat, ok: bool, change: Change, fate: Fate, now: int): World {
    var w' := Step(w, Event.ChangePassword(user, ok, change, now));
    if change.Unknown? && !fate.InFlight? then Step(w', Resolve(user, fate.TookEffect?)) else w'
  }

  class UserRepo {
    var rows: map<nat, Row>

    constructor (rows: map<nat, Row>)
      ensures this.rows == rows
    {
      this.rows := rows;
    }

    /** An ordinary read sees the committed row, also while a change is committing. */
    method TokenVersion(id: nat, ok: bool) returns (v: Option<nat>)
      ensures v.Some? <==> ok && id in rows
      ensures v.Some? ==> v.value == rows[id].version
    {
      v := if ok && id in rows then Some(rows[id].version) else None;
    }

    /** A locking read waits for an earlier change, so within its budget it fails while one is unresolved. */
    method LockedTokenVersion(id: nat, ok: bool) returns (v: Option<nat>)
      ensures v.Some? <==> ok && id in rows && !rows[id].unresolved
      ensures v.Some? ==> v.value == rows[id].version
    {
      v := if ok && id in rows && !rows[id].unresolved then Some(rows[id].version) else None;
    }

    /**
     Lock, verify and increment in one transaction, classifying how its COMMIT
     ended. The row follows what became of the transaction, the report follows the
     answer, and no change that took or may still take effect is reported as failed.
     */
    method ChangePassword(id: nat, verified: bool, commit: CommitReply, fate: Fate) returns (change: Change)
      requires Possible(commit, fate)
      modifies this
      ensures change == ChangeOutcome(old(rows), id, verified, commit)
      ensures rows == if old(Reached(rows, id, verified)) then old(rows)[id := RowAfter(old(rows)[id], fate)] else old(rows)
      ensures change.KnownFailure? <==> !old(Reached(rows, id, verified))
      ensures change.KnownFailure? || change.RolledBack? ==> rows == old(rows)
      ensures change.Acknowledged? ==> rows == old(rows)[id := Row(old(rows)[id].version + 1, false)]
      ensures change.Unknown? <==> old(Reached(rows, id, verified)) && Uncertain(commit)
    {
      if id !in rows || rows[id].unresolved || !verified {
        return KnownFailure;
      }
      rows := rows[id := RowAfter(rows[id], fate)];
      if commit.CommitOk? {
        return Acknowledged;
      }
      if DefinitelyRolledBack(commit) {
        return RolledBack;
      }
      return Unknown;
    }
  }

  class Gate {
    const repo: UserRepo
    var users: map<nat, Fence>

    constructor (repo: UserRepo)
      ensures this.repo == repo && users == map[]
    {
      this.repo, users := repo, map[];
    }

    /** Acquire the user's lock and read the version from the source the fence demands. */
    method WithUser(user: nat, ok: bool) returns (v: Option<nat>)
      modifies this
      ensures v == Enter(repo.rows, old(users), user, ok)
      ensures users == if v.Some? then old(users)[user := Fence(true, false)] else old(users)
    {
      var state := FenceOf(users, user);
      if !state.initialized || state.pending {
        v := repo.LockedTokenVersion(user, ok);
      } else {
        v := repo.TokenVersion(user, ok);
      }
      if v.Some? {
        users := users[user := Fence(true, false)];
      }
    }
  }

  /** The deadlines are two and three seconds from the first cleanup, and never move. */
  predicate Frozen(a: Session, b: Session, now: int) {
    && b.user == a.user && b.version == a.version
    && b.cleanup == (if a.cleanup.Some? then a.cleanup else Some((now + 2_000_000_000, now + 3_000_000_000)))
  }

  class Registry {
    var sessions: map<nat, Session>
    var next: nat

    constructor ()
      ensures sessions == map[] && next == 0
    {
      sessions, next := map[], 0;
    }

    /** IDs were handed out in order, none beyond the last one. */
    ghost predicate Numbered()
      reads this
    {
      forall id | id in sessions :: id <= next
    }

    /** A new session under an ID that no earlier session had. */
    method Register(user: nat, version: nat) returns (id: nat)
      requires Numbered()
      modifies this
      ensures Numbered() && id !in old(sessions) && id == next == old(next) + 1
      ensures sessions == old(sessions)[id := Session(user, version, Preparing, None)]
    {
      next := next + 1;
      id := next;
      sessions := sessions[id := Session(user, version, Preparing, None)];
    }

    /** Preparing becomes ready; a revoked or unknown session is refused. */
    method Admit(id: nat) returns (ok: bool)
      modifies this
      ensures ok <==> id in old(sessions) && old(sessions)[id].phase.Preparing?
      ensures sessions == if ok then old(sessions)[id := old(sessions)[id].(phase := Ready)] else old(sessions)
      ensures next == old(next)
    {
      if id !in sessions || !sessions[id].phase.Preparing? {
        return false;
      }
      sessions := sessions[id := sessions[id].(phase := Ready)];
      return true;
    }

    method InputPermit(id: nat) returns (ok: bool)
      ensures ok <==> id in sessions && sessions[id].phase.Ready?
    {
      ok := id in sessions && sessions[id].phase.Ready?;
    }

    method BeginCleanup(id: nat, now: int)
      modifies this
      ensures sessions == if id in old(sessions) then old(sessions)[id := Freeze(old(sessions)[id], now)] else old(sessions)
      ensures next == old(next)
      ensures id in sessions ==> Frozen(old(sessions)[id], sessions[id], now)
    {
      if id in sessions {
        sessions := sessions[id := Freeze(sessions[id], now)];
      }
    }

    /** Mark every session of the user, freezing one cleanup budget for the batch. */
    method MarkRevoked(user: nat, now: int) returns (revoked: set<nat>)
      modifies this
      ensures sessions == RevokeUser(old(sessions), user, now) && next == old(next)
      ensures revoked == SessionsOf(old(sessions), user)
      ensures sessions.Keys == old(sessions).Keys
      ensures forall id | id in sessions ::
        if old(sessions)[id].user == user
        then sessions[id].phase.Revoked? && Frozen(old(sessions)[id], sessions[id], now)
        else sessions[id] == old(sessions)[id]
    {
      ghost var was := sessions;
      var todo := sessions.Keys;
      revoked := {};
      while todo != {}
        invariant next == old(next) && todo <= was.Keys && sessions.Keys == was.Keys
        invariant forall id | id in todo :: sessions[id] == was[id]
        invariant forall id | id in was && id !in todo :: sessions[id] == RevokeUser(was, user, now)[id]
        invariant revoked == SessionsOf(was, user) - todo
        decreases todo
      {
        var id :| id in todo;
        if sessions[id].user == user {
          revoked := revoked + {id};
          var s := sessions[id].(phase := Revoked);
          if s.cleanup.None? {
            s := s.(cleanup := Some((now + CLEANUP_GRACE, now + CLEANUP_BUDGET)));
          }
          sessions := sessions[id := s];
        }
        todo := todo - {id};
      }
    }

    method Done(id: nat)
      modifies this
      ensures sessions == old(sessions) - {id} && next == old(next)
    {
      sessions := sessions - {id};
    }
  }

  /** The password service and the terminal service, sharing the gate and the registry. */
  class Service {
    const repo: UserRepo
    const gate: Gate
    const registry: Registry
    ghost var condemned: set<nat>
    ghost const boot: nat

    constructor (repo: UserRepo, ghost boot: nat)
      ensures Valid() && this.repo == repo && fresh(gate) && fresh(registry)
      ensures InitialWorld(State()) && State().rows == repo.rows && this.boot == boot
    {
      var g := new Gate(repo);
      var r := new Registry();
      this.repo, gate, registry, condemned, this.boot := repo, g, r, {}, boot;
    }

    ghost function State(): World
      reads this, repo, gate, registry
    {
      World(repo.rows, gate.users, registry.sessions, registry.next, condemned, boot)
    }

    ghost predicate Valid()
      reads this, repo, gate, registry
    {
      gate.repo == repo && Inv(State())
    }

    /**
     Change the password inside the gate; fence and revoke before leaving it. When
     the change took or may have taken effect, every session of the user is
     condemned; an uncertain change leaves the user fenced.
     */
    method ChangePassword(user: nat, ok: bool, verified: bool, commit: CommitReply, fate: Fate, now: int)
      returns (revoked: set<nat>)
      requires Valid() && Possible(commit, fate)
      modifies this, repo, gate, registry
      ensures Valid()
      ensures State() == ChangeStep(old(State()), user, ok, ChangeOutcome(old(repo.rows), user, verified, commit), fate, now)
      ensures condemned == old(condemned) + revoked
      ensures revoked == {} || revoked == SessionsOf(old(registry.sessions), user)
      ensures repo.rows != old(repo.rows) ==> revoked == SessionsOf(old(registry.sessions), user)
      ensures forall id | id in registry.sessions && id in revoked :: registry.sessions[id].phase.Revoked?
      ensures user in repo.rows && repo.rows[user].unresolved ==> NeedsLock(FenceOf(gate.users, user))
      ensures repo.rows != old(repo.rows) && !commit.CommitOk? ==> FenceOf(gate.users, user).pending
      ensures !verified ==> repo.rows == old(repo.rows) && revoked == {}
    {
      ghost var change := ChangeOutcome(repo.rows, user, verified, commit);
      StepKeepsInv(State(), Event.ChangePassword(user, ok, change, now));
      StepKeepsInv(Step(State(), Event.ChangePassword(user, ok, change, now)), Resolve(user, fate.TookEffect?));
      revoked := ChangeLocked(user, ok, verified, commit, fate, now);
    }

    method ChangeLocked(user: nat, ok: bool, verified: bool, commit: CommitReply, fate: Fate, now: int)
      returns (revoked: set<nat>)
      requires gate.repo == repo && Possible(commit, fate)
      modifies this, repo, gate, registry
      ensures State() == ChangeStep(old(State()), user, ok, ChangeOutcome(old(repo.rows), user, verified, commit), fate, now)
      ensures condemned == old(condemned) + revoked
      ensures revoked == {} || revoked == SessionsOf(old(registry.sessions), user)
      ensures repo.rows != old(repo.rows) ==> revoked == SessionsOf(old(registry.sessions), user)
      ensures repo.rows != old(repo.rows) && !commit.CommitOk? ==> FenceOf(gate.users, user).pending
      ensures !verified ==> repo.rows == old(repo.rows) && revoked == {}
    {
      revoked := {};
      var v := gate.WithUser(user, ok);
      if v.None? {
        return;
      }
      var change := repo.ChangePassword(user, verified, commit, fate);
      if change.Acknowledged? || change.Unknown? {
        revoked := registry.MarkRevoked(user, now);
        condemned := condemned + revoked;
      }
      if change.Unknown? {
        gate.users := gate.users[user := gate.users[user].(pending := true)];
      }
    }

    /** A terminal connects: its token must carry the current version, and its ID is new. */
    method RegisterTerminal(user: nat, token: nat, ok: bool) returns (id: Option<nat>)
      requires Valid()
      modifies this, gate, registry
      ensures Valid() && State() == Step(old(State()), Event.RegisterTerminal(user, token, ok))
      ensures id.Some? <==> ok && user in repo.rows && repo.rows[user] == Row(token, false)
      ensures id.Some? ==>
        && id.value in registry.sessions && id.value !in old(registry.sessions) && id.value !in condemned
        && user in repo.rows && repo.rows[user] == Row(token, false)
    {
      StepKeepsInv(State(), Event.RegisterTerminal(user, token, ok));
      GateAnswersIff(State(), user, ok);
      id := None;
      var v := gate.WithUser(user, ok);
      if v.Some? && v.value == token {
        var i := registry.Register(user, v.value);
        id := Some(i);
      }
    }

    /** The terminal becomes ready, or learns that it was revoked: a ready one carries the current, final version. */
    method AdmitTerminal(id: nat, ok: bool) returns (granted: bool)
      requires Valid()
      modifies this, gate, registry
      ensures Valid() && State() == Step(old(State()), Event.AdmitTerminal(id, ok))
      ensures granted <==> ok && id in old(registry.sessions) && old(registry.sessions)[id].phase.Preparing?
      ensures granted ==> id !in condemned && GrantedRow(State(), id) && registry.sessions[id].phase.Ready?
    {
      StepKeepsInv(State(), Event.AdmitTerminal(id, ok));
      GrantedIff(State(), id, ok);
      if Grants(State(), Event.AdmitTerminal(id, ok), id) {
        GrantIsCurrent(State(), Event.AdmitTerminal(id, ok), id);
      }
      granted := AdmitLocked(id, ok);
    }

    method AdmitLocked(id: nat, ok: bool) returns (granted: bool)
      requires gate.repo == repo
      modifies this, gate, registry
      ensures State() == Step(old(State()), Event.AdmitTerminal(id, ok))
      ensures granted <==> Grants(old(State()), Event.AdmitTerminal(id, ok), id)
      ensures unchanged(`condemned)
    {
      if id !in registry.sessions {
        return false;
      }
      var s := registry.sessions[id];
      var v := gate.WithUser(s.user, ok);
      if v.None? || v.value != s.version {
        return false;
      }
      granted := registry.Admit(id);
    }

    /** Permission for one input operation, only for a ready session of the current, final version. */
    method PermitInput(id: nat, ok: bool) returns (granted: bool)
      requires Valid()
      modifies this, gate
      ensures Valid() && State() == Step(old(State()), Event.PermitInput(id, ok))
      ensures granted <==> ok && id in registry.sessions && registry.sessions[id].phase.Ready?
      ensures granted ==> id !in condemned && GrantedRow(State(), id)
    {
      StepKeepsInv(State(), Event.PermitInput(id, ok));
      GrantedIff(State(), id, ok);
      if Grants(State(), Event.PermitInput(id, ok), id) {
        GrantIsCurrent(State(), Event.PermitInput(id, ok), id);
      }
      granted := PermitLocked(id, ok);
    }

    method PermitLocked(id: nat, ok: bool) returns (granted: bool)
      requires gate.repo == repo
      modifies this, gate
      ensures State() == Step(old(State()), Event.PermitInput(id, ok))
      ensures granted <==> Grants(old(State()), Event.PermitInput(id, ok), id)
      ensures unchanged(`condemned)
    {
      if id !in registry.sessions {
        return false;
      }
      var s := registry.sessions[id];
      var v := gate.WithUser(s.user, ok);
      if v.None? || v.value != s.version {
        return false;
      }
      granted := registry.InputPermit(id);
    }

    /** One reconciliation attempt: it lifts the fence only if nothing is unresolved. */
    method Recover(user: nat, ok: bool) returns (done: bool)
      requires Valid()
      modifies this, gate
      ensures Valid() && State() == Step(old(State()), Probe(user, ok))
      ensures done <==> ok && user in repo.rows && !repo.rows[user].unresolved
      ensures done ==> FenceOf(gate.users, user) == Fence(true, false)
      ensures !done ==> gate.users == old(gate.users)
    {
      StepKeepsInv(State(), Probe(user, ok));
      GateAnswersIff(State(), user, ok);
      var v := gate.WithUser(user, ok);
      done := v.Some?;
    }
  }
}
