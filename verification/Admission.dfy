/**
 Per-user admission: every admission reads the user's session version inside one
 critical section, a password change whose COMMIT acknowledgement was lost fences
 the user until the transaction is known to be over, and registered terminals are
 revoked together with the change.
 */
module Admission {
  import opened Options

  // ------------------------------------------------------------------- state

  /** A user row: the committed version, and whether a change to it is still committing. */
  datatype Row = Row(version: nat, unresolved: bool)

  /** The gate's memory of one user, lost on restart. */
  datatype Fence = Fence(initialized: bool, pending: bool)

  datatype Phase = Preparing | Ready | Revoked

  /** A registered terminal. The cleanup deadlines are set once. */
  datatype Session = Session(user: nat, version: nat, phase: Phase, cleanup: Option<(int, int)>)

  /**
   The database, the gate and the registry, with the IDs of the sessions that
   were registered when a committed or uncertain password change ran. `boot`
   numbers the processes: session IDs start over in each of them.
   */
  datatype World = World(rows: map<nat, Row>, fences: map<nat, Fence>,
                         sessions: map<nat, Session>, next: nat, condemned: set<nat>, boot: nat)

  function FenceOf(fences: map<nat, Fence>, user: nat): Fence {
    if user in fences then fences[user] else Fence(false, false)
  }

  predicate NeedsLock(f: Fence) { !f.initialized || f.pending }

  /**
   Enter the user's critical section: the first read after startup and every
   read while fenced waits for the row lock, so it cannot succeed while a change
   is unresolved. `ok` is false when the budget runs out or the read fails.
   */
  function Enter(rows: map<nat, Row>, fences: map<nat, Fence>, user: nat, ok: bool): Option<nat> {
    if !ok || user !in rows || (NeedsLock(FenceOf(fences, user)) && rows[user].unresolved) then None
    else Some(rows[user].version)
  }

  function Entered(w: World, user: nat): World {
    w.(fences := w.fences[user := Fence(true, false)])
  }

  // ------------------------------------------------------------------ events

  const CLEANUP_GRACE: int := 2_000_000_000
  const CLEANUP_BUDGET: int := 3_000_000_000

  /** How a password transaction ends: before COMMIT, acknowledged, refused by the database, or unknown. */
  datatype Change = KnownFailure | Acknowledged | RolledBack | Unknown

  datatype Event =
    | Probe(user: nat, ok: bool)
    | RegisterTerminal(user: nat, token: nat, ok: bool)
    | AdmitTerminal(id: nat, ok: bool)
    | PermitInput(id: nat, ok: bool)
    | ChangePassword(user: nat, ok: bool, change: Change, now: int)
    | Resolve(user: nat, committed: bool)
    | BeginCleanup(id: nat, now: int)
    | TerminalDone(id: nat)
    | Restart(interrupted: set<nat>)

  function Freeze(s: Session, now: int): Session {
    if s.cleanup.Some? then s else s.(cleanup := Some((now + CLEANUP_GRACE, now + CLEANUP_BUDGET)))
  }

  function RevokeUser(sessions: map<nat, Session>, user: nat, now: int): map<nat, Session> {
    map id | id in sessions ::
      if sessions[id].user == user then Freeze(sessions[id].(phase := Revoked), now) else sessions[id]
  }

  function SessionsOf(sessions: map<nat, Session>, user: nat): set<nat> {
    set id | id in sessions && sessions[id].user == user
  }

  function Registered(w: World, user: nat, version: nat): World {
    w.(next := w.next + 1, sessions := w.sessions[w.next + 1 := Session(user, version, Preparing, None)])
  }

  /** The session's own admission check, given the version its gate returned. */
  predicate MayAdmit(w: World, id: nat, version: nat) {
    id in w.sessions && version == w.sessions[id].version && w.sessions[id].phase.Preparing?
  }

  predicate MayType(w: World, id: nat, version: nat) {
    id in w.sessions && version == w.sessions[id].version && w.sessions[id].phase.Ready?
  }

  /** The effect of a change that ran inside the critical section. */
  function Changed(w: World, user: nat, change: Change, now: int): World
    requires user in w.rows
  {
    match change
    case KnownFailure => w
    case RolledBack => w
    case Acknowledged =>
      w.(rows := w.rows[user := w.rows[user].(version := w.rows[user].version + 1)],
         sessions := RevokeUser(w.sessions, user, now), condemned := w.condemned + SessionsOf(w.sessions, user))
    case Unknown =>
      w.(rows := w.rows[user := w.rows[user].(unresolved := true)],
         fences := w.fences[user := Fence(true, true)],
         sessions := RevokeUser(w.sessions, user, now), condemned := w.condemned + SessionsOf(w.sessions, user))
  }

  function Step(w: World, e: Event): World {
    match e
    case Probe(user, ok) =>
      if Enter(w.rows, w.fences, user, ok).Some? then Entered(w, user) else w
    case RegisterTerminal(user, token, ok) =>
      var v := Enter(w.rows, w.fences, user, ok);
      if v.None? then w
      else if v.value != token then Entered(w, user)
      else Registered(Entered(w, user), user, v.value)
    case AdmitTerminal(id, ok) =>
      if id !in w.sessions then w
      else
        var user := w.sessions[id].user;
        var v := Enter(w.rows, w.fences, user, ok);
        if v.None? then w
        else if !MayAdmit(w, id, v.value) then Entered(w, user)
        else Entered(w, user).(sessions := w.sessions[id := w.sessions[id].(phase := Ready)])
    case PermitInput(id, ok) =>
      if id !in w.sessions then w
      else
        var user := w.sessions[id].user;
        if Enter(w.rows, w.fences, user, ok).Some? then Entered(w, user) else w
    case ChangePassword(user, ok, change, now) =>
      if Enter(w.rows, w.fences, user, ok).None? then w
      else Changed(Entered(w, user), user, change, now)
    case Resolve(user, committed) =>
      if user !in w.rows || !w.rows[user].unresolved then w
      else w.(rows := w.rows[user := Row(w.rows[user].version + (if committed then 1 else 0), false)])
    case BeginCleanup(id, now) =>
      if id !in w.sessions then w else w.(sessions := w.sessions[id := Freeze(w.sessions[id], now)])
    case TerminalDone(id) =>
      w.(sessions := w.sessions - {id})
    case Restart(interrupted) =>
      World(map u | u in w.rows :: if u in interrupted then w.rows[u].(unresolved := true) else w.rows[u],
            map[], map[], 0, {}, w.boot + 1)
  }

  /** The version an event's admission callback receives, if it runs. */
  function CallbackVersion(w: World, e: Event): Option<nat> {
    match e
    case Probe(user, ok) => Enter(w.rows, w.fences, user, ok)
    case RegisterTerminal(user, _, ok) => Enter(w.rows, w.fences, user, ok)
    case ChangePassword(user, ok, _, _) => Enter(w.rows, w.fences, user, ok)
    case AdmitTerminal(id, ok) => if id in w.sessions then Enter(w.rows, w.fences, w.sessions[id].user, ok) else None
    case PermitInput(id, ok) => if id in w.sessions then Enter(w.rows, w.fences, w.sessions[id].user, ok) else None
    case _ => None
  }

  function Subject(w: World, e: Event): nat {
    match e
    case Probe(user, _) => user
    case RegisterTerminal(user, _, _) => user
    case ChangePassword(user, _, _, _) => user
    case AdmitTerminal(id, _) => if id in w.sessions then w.sessions[id].user else 0
    case PermitInput(id, _) => if id in w.sessions then w.sessions[id].user else 0
    case _ => 0
  }

  /** Whether the event grants a terminal: readiness or one input. */
  predicate Grants(w: World, e: Event, id: nat) {
    match e
    case AdmitTerminal(i, ok) =>
      i == id && CallbackVersion(w, e).Some? && MayAdmit(w, i, CallbackVersion(w, e).value)
    case PermitInput(i, ok) =>
      i == id && CallbackVersion(w, e).Some? && MayType(w, i, CallbackVersion(w, e).value)
    case _ => false
  }

  // --------------------------------------------------------------- invariant

  /** An unresolved change keeps its user behind the locking read. */
  ghost predicate Fenced(w: World) {
    forall u | u in w.rows && w.rows[u].unresolved :: NeedsLock(FenceOf(w.fences, u))
  }

  /** A session that is not revoked belongs to the current version and nothing is pending on it. */
  ghost predicate Current(w: World) {
    forall id | id in w.sessions && !w.sessions[id].phase.Revoked? ::
      var s := w.sessions[id];
      s.user in w.rows && !w.rows[s.user].unresolved && s.version == w.rows[s.user].version
  }

  /** A condemned session is revoked or gone, and its ID is never given out again. */
  ghost predicate Condemned(w: World) {
    && (forall id | id in w.sessions :: id <= w.next)
    && (forall id | id in w.condemned :: id <= w.next && (id in w.sessions ==> w.sessions[id].phase.Revoked?))
  }

  ghost predicate Inv(w: World) { Fenced(w) && Current(w) && Condemned(w) }

  ghost predicate InitialWorld(w: World) {
    w.fences == map[] && w.sessions == map[] && w.next == 0 && w.condemned == {}
  }

  lemma ChangeKeepsInv(w: World, user: nat, change: Change, now: int)
    requires Inv(w) && user in w.rows && !w.rows[user].unresolved
    ensures Inv(Changed(w, user, change, now))
  {
    var w' := Changed(w, user, change, now);
    if change.Acknowledged? || change.Unknown? {
      forall id | id in w'.sessions && w'.sessions[id].user == user ensures w'.sessions[id].phase.Revoked? {
      }
    }
  }

  lemma EnteredKeepsInv(w: World, user: nat, ok: bool)
    requires Inv(w) && Enter(w.rows, w.fences, user, ok).Some?
    ensures Inv(Entered(w, user)) && !w.rows[user].unresolved
  {
  }

  lemma StepKeepsInv(w: World, e: Event)
    requires Inv(w)
    ensures Inv(Step(w, e))
  {
    if CallbackVersion(w, e).Some? {
      EnteredKeepsInv(w, Subject(w, e), true);
    }
    match e
    case ChangePassword(user, ok, change, now) =>
      if Enter(w.rows, w.fences, user, ok).Some? {
        ChangeKeepsInv(Entered(w, user), user, change, now);
      }
    case _ =>
  }

  /** The gate answers exactly when nothing on the user is unresolved, whichever source it reads. */
  lemma GateAnswersIff(w: World, user: nat, ok: bool)
    requires Inv(w)
    ensures Enter(w.rows, w.fences, user, ok)
      == if ok && user in w.rows && !w.rows[user].unresolved then Some(w.rows[user].version) else None
  {
  }

  /** A session is granted exactly when its gate is in time and it was not revoked: its version is then the current one. */
  lemma GrantedIff(w: World, id: nat, ok: bool)
    requires Inv(w)
    ensures Grants(w, AdmitTerminal(id, ok), id) <==> ok && id in w.sessions && w.sessions[id].phase.Preparing?
    ensures Grants(w, PermitInput(id, ok), id) <==> ok && id in w.sessions && w.sessions[id].phase.Ready?
  {
    if id in w.sessions {
      GateAnswersIff(w, w.sessions[id].user, ok);
    }
  }

  // -------------------------------------------------------------------- runs

  ghost predicate Run(states: seq<World>, events: seq<Event>) {
    && |states| == |events| + 1 && InitialWorld(states[0])
    && forall i | 0 <= i < |events| :: states[i + 1] == Step(states[i], events[i])
  }

  lemma {:induction false} RunKeepsInv(states: seq<World>, events: seq<Event>, i: nat)
    requires Run(states, events) && i < |states|
    ensures Inv(states[i])
  {
    if i > 0 {
      RunKeepsInv(states, events, i - 1);
      StepKeepsInv(states[i - 1], events[i - 1]);
    }
  }

  /**
   Uncertain-commit fencing: in every run, an admission callback that receives a
   version runs while no earlier change to that user is unresolved, so the
   version it sees is final.
   */
  lemma NoAdmissionWhileUnresolved(states: seq<World>, events: seq<Event>, i: nat)
    requires Run(states, events) && i < |events| && CallbackVersion(states[i], events[i]).Some?
    ensures var u := Subject(states[i], events[i]);
      && u in states[i].rows && !states[i].rows[u].unresolved
      && CallbackVersion(states[i], events[i]).value == states[i].rows[u].version
  {
    RunKeepsInv(states, events, i);
  }

  /** Whether the event grants the session of that process. */
  predicate GrantsSession(w: World, e: Event, boot: nat, id: nat) { w.boot == boot && Grants(w, e, id) }

  /** Processes are numbered upwards, and within one of them session IDs are. */
  lemma {:induction false} BootGrows(states: seq<World>, events: seq<Event>, i: nat, j: nat)
    requires Run(states, events) && i <= j < |states|
    ensures states[i].boot <= states[j].boot
    ensures states[i].boot == states[j].boot ==> states[i].next <= states[j].next
  {
    if i < j {
      BootGrows(states, events, i, j - 1);
      assert states[j] == Step(states[j - 1], events[j - 1]);
    }
  }

  /** Between two moments of one process there was no restart, and session IDs only went up. */
  lemma SameBoot(states: seq<World>, events: seq<Event>, i: nat, j: nat)
    requires Run(states, events) && i < j < |states| && states[i].boot == states[j].boot
    ensures states[j - 1].boot == states[i].boot && states[i].next <= states[j - 1].next
    ensures states[j] == Step(states[j - 1], events[j - 1]) && !events[j - 1].Restart?
  {
    BootGrows(states, events, i, j - 1);
    BootGrows(states, events, j - 1, j);
  }

  /** Being condemned lasts as long as the process. */
  lemma {:induction false} CondemnedStays(states: seq<World>, events: seq<Event>, i: nat, j: nat, id: nat)
    requires Run(states, events) && i <= j < |states| && states[i].boot == states[j].boot
    requires id in states[i].condemned
    ensures id in states[j].condemned
  {
    if i < j {
      SameBoot(states, events, i, j);
      CondemnedStays(states, events, i, j - 1, id);
      CondemnedStep(states[j - 1], events[j - 1], id);
    }
  }

  lemma CondemnedStep(w: World, e: Event, id: nat)
    requires id in w.condemned && Step(w, e).boot == w.boot
    ensures id in Step(w, e).condemned
  {
  }

  /**
   Every terminal registered when a committed or uncertain change runs is refused
   readiness and input forever after, restarts included.
   */
  lemma RevokedForever(states: seq<World>, events: seq<Event>, i: nat, j: nat, id: nat)
    requires Run(states, events) && i < j < |events|
    requires events[i].ChangePassword? && (events[i].change.Acknowledged? || events[i].change.Unknown?)
    requires CallbackVersion(states[i], events[i]).Some?
    requires id in states[i].sessions && states[i].sessions[id].user == events[i].user
    ensures !GrantsSession(states[j], events[j], states[i].boot, id)
  {
    assert states[i + 1].boot == states[i].boot && id in states[i + 1].condemned;
    if states[j].boot == states[i].boot {
      CondemnedStays(states, events, i + 1, j, id);
      RunKeepsInv(states, events, j);
    }
  }

  /** A terminal that is granted anything carries the user's current, final version. */
  lemma GrantsAreCurrent(states: seq<World>, events: seq<Event>, i: nat, id: nat)
    requires Run(states, events) && i < |events| && Grants(states[i], events[i], id)
    ensures GrantedRow(states[i], id)
  {
    RunKeepsInv(states, events, i);
  }

  predicate GrantedRow(w: World, id: nat) {
    id in w.sessions && w.sessions[id].user in w.rows
    && w.rows[w.sessions[id].user] == Row(w.sessions[id].version, false)
  }

  lemma GrantIsCurrent(w: World, e: Event, id: nat)
    requires Inv(w) && Grants(w, e, id)
    ensures GrantedRow(w, id) && id !in w.condemned
  {
  }

  /** One step keeps a session's owner and version, and a cleanup deadline once set. */
  lemma StepKeepsSession(w: World, e: Event, id: nat)
    requires id in w.sessions && id <= w.next && id in Step(w, e).sessions
    ensures SameSession(w.sessions[id], Step(w, e).sessions[id])
  {
  }

  predicate SameSession(a: Session, b: Session) {
    b.user == a.user && b.version == a.version && (a.phase.Revoked? ==> b.phase.Revoked?)
    && (a.cleanup.Some? ==> b.cleanup == a.cleanup)
  }

  /** Cleanup deadlines are frozen for the session's whole life: nothing later grants another window. */
  lemma {:induction false} DeadlinesFrozen(states: seq<World>, events: seq<Event>, i: nat, j: nat, id: nat)
    requires Run(states, events) && i <= j < |states| && states[i].boot == states[j].boot
    requires id in states[i].sessions && id in states[j].sessions
    ensures SameSession(states[i].sessions[id], states[j].sessions[id])
  {
    if i < j {
      SameBoot(states, events, i, j);
      IdsNumbered(states, events, i, id);
      SessionWasThere(states[j - 1], events[j - 1], id);
      DeadlinesFrozen(states, events, i, j - 1, id);
      StepKeepsSession(states[j - 1], events[j - 1], id);
    }
  }

  lemma IdsNumbered(states: seq<World>, events: seq<Event>, i: nat, id: nat)
    requires Run(states, events) && i < |states| && id in states[i].sessions
    ensures id <= states[i].next
  {
    RunKeepsInv(states, events, i);
  }

  lemma SessionWasThere(w: World, e: Event, id: nat)
    requires id in Step(w, e).sessions && id <= w.next && !e.Restart?
    ensures id in w.sessions
  {
  }
}
