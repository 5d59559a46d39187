/**
 API keys: rotations, permission edits and deletions bump a revision inside the
 key's gate, while validation looks the key up first and re-checks it at its
 admission. A key that validation returns is the policy in force at that moment.
 */
module ApiKeys {
  import opened Options
  import A = Admission
  import opened Commits

  // ------------------------------------------------------------------- state

  datatype Policy = Policy(hash: string, scopes: seq<string>, servers: seq<nat>)

  datatype Key = Key(policy: Policy, revision: nat)

  /** What a lookup found before its admission: the presented hash, and the key as it was then. */
  datatype Found = Found(hash: string, id: nat, key: Key)

  /**
   Committed keys, the outcome each unresolved transaction would have (nothing
   for a deletion), the gate's fences and lookups waiting for admission.
   `history` holds, for every ID ever assigned, its policies from revision one on.
   */
  datatype State = State(keys: map<nat, Key>, unresolved: map<nat, Option<Key>>, fences: map<nat, A.Fence>,
                         lookups: map<nat, Found>, history: map<nat, seq<Policy>>)

  const MAX_REVISION: nat := 0x7fff_ffff_ffff_ffff

  /** Enter the key's critical section. A missing key reads as revision zero. */
  function EnterKey(s: State, id: nat, ok: bool): Option<nat> {
    if !ok || (A.NeedsLock(A.FenceOf(s.fences, id)) && id in s.unresolved) then None
    else Some(if id in s.keys then s.keys[id].revision else 0)
  }

  function Inside(s: State, id: nat): State { s.(fences := s.fences[id := A.Fence(true, false)]) }

  // ------------------------------------------------------------------- edits

  /** A mutation: replace the credential, edit the permissions, or delete the key. */
  datatype Edit =
    | Rotation(expected: nat, hash: string)
    | Permissions(expected: nat, scopes: Option<seq<string>>, servers: Option<seq<nat>>)
    | Deletion

  predicate SameSet<T(==)>(a: seq<T>, b: seq<T>) { (forall x | x in a :: x in b) && (forall x | x in b :: x in a) }

  function Edited(p: Policy, e: Edit): Policy {
    match e
    case Rotation(_, hash) => p.(hash := hash)
    case Permissions(_, scopes, servers) =>
      p.(scopes := if scopes.Some? then scopes.value else p.scopes,
         servers := if servers.Some? then servers.value else p.servers)
    case Deletion => p
  }

  /** The row the edit's transaction writes, or nothing when it refuses or changes nothing. */
  function Target(k: Key, e: Edit): Option<Option<Key>> {
    match e
    case Deletion => Some(None)
    case Rotation(expected, _) =>
      if k.revision != expected || k.revision == MAX_REVISION then None
      else Some(Some(Key(Edited(k.policy, e), k.revision + 1)))
    case Permissions(expected, _, _) =>
      var p := Edited(k.policy, e);
      if k.revision != expected || k.revision == MAX_REVISION then None
      else if SameSet(k.policy.scopes, p.scopes) && SameSet(k.policy.servers, p.servers) then None
      else Some(Some(Key(p, k.revision + 1)))
  }

  function PastOf(history: map<nat, seq<Policy>>, id: nat): seq<Policy> {
    if id in history then history[id] else []
  }

  function Commit(s: State, id: nat, target: Option<Key>): State {
    match target
    case None => s.(keys := s.keys - {id})
    case Some(k) => s.(keys := s.keys[id := k], history := s.history[id := PastOf(s.history, id) + [k.policy]])
  }

  // ------------------------------------------------------------------ events

  datatype Event =
    | Create(id: nat, policy: Policy)
    | Mutate(id: nat, edit: Edit, ok: bool, change: A.Change)
    | Resolve(id: nat, committed: bool)
    | Lookup(ticket: nat, hash: string, id: nat)
    | Admit(ticket: nat, ok: bool)
    | Recover(id: nat, ok: bool)
    | Restart(interrupted: map<nat, Option<Key>>)

  /** The transaction writing `target` ends, for its caller, as `change`. */
  function Written(s: State, id: nat, target: Option<Key>, change: A.Change): State {
    match change
    case Acknowledged => Commit(s, id, target)
    case Unknown => s.(unresolved := s.unresolved[id := target], fences := s.fences[id := A.Fence(true, true)])
    case _ => s
  }

  function Mutated(s: State, id: nat, edit: Edit, change: A.Change): State {
    if id !in s.keys || id in s.unresolved || Target(s.keys[id], edit).None? then s
    else Written(s, id, Target(s.keys[id], edit).value, change)
  }

  function Step(s: State, e: Event): State {
    match e
    case Create(id, policy) =>
      if id in s.history then s else Commit(s, id, Some(Key(policy, 1)))
    case Mutate(id, edit, ok, change) =>
      if EnterKey(s, id, ok).None? then s else Mutated(Inside(s, id), id, edit, change)
    case Resolve(id, committed) =>
      if id !in s.unresolved then s
      else
        var done := s.(unresolved := s.unresolved - {id});
        if committed then Commit(done, id, s.unresolved[id]) else done
    case Lookup(ticket, hash, id) =>
      if id in s.keys && s.keys[id].policy.hash == hash
      then s.(lookups := s.lookups[ticket := Found(hash, id, s.keys[id])]) else s
    case Admit(ticket, ok) =>
      if ticket !in s.lookups then s
      else
        var id := s.lookups[ticket].id;
        var done := s.(lookups := s.lookups - {ticket});
        if EnterKey(s, id, ok).Some? then Inside(done, id) else done
    case Recover(id, ok) =>
      if EnterKey(s, id, ok).Some? then Inside(s, id) else s
    case Restart(interrupted) =>
      s.(fences := map[], lookups := map[],
         unresolved := s.unresolved + map id | id in interrupted && id in s.keys && id !in s.unresolved
                                               && NextRow(s.keys[id], interrupted[id]) :: interrupted[id])
  }

  /** A transaction on a key deletes it or writes the following revision. */
  predicate NextRow(k: Key, target: Option<Key>) {
    target.None? || target.value.revision == k.revision + 1 <= MAX_REVISION
  }

  /** The key a validation returns when the ticket is admitted in this state. */
  function Validated(s: State, ticket: nat, ok: bool): Option<Key> {
    if ticket !in s.lookups then None
    else
      var f := s.lookups[ticket];
      var revision := EnterKey(s, f.id, ok);
      if revision.None? || revision.value == 0 then None
      else
        var key := if revision.value == f.key.revision then Some(f.key)
                   else if f.id in s.keys then Some(s.keys[f.id]) else None;
        if key.Some? && key.value.policy.hash == f.hash then key else None
  }

  // --------------------------------------------------------------- invariant

  /** The policy an ID had at a revision, if it ever reached it. */
  predicate Was(history: map<nat, seq<Policy>>, id: nat, k: Key) {
    && id in history && 1 <= k.revision <= |history[id]| && history[id][k.revision - 1] == k.policy
  }

  /** A committed key is the last entry of its history, and its revision fits 63 bits. */
  ghost predicate Recorded(s: State) {
    forall id | id in s.keys ::
      Was(s.history, id, s.keys[id]) && s.keys[id].revision == |s.history[id]| <= MAX_REVISION
  }

  ghost predicate Guarded(s: State) {
    forall id | id in s.unresolved ::
      id in s.keys && NextRow(s.keys[id], s.unresolved[id]) && A.NeedsLock(A.FenceOf(s.fences, id))
  }

  /** A lookup holds a policy that was committed under its revision. */
  ghost predicate Traced(s: State) {
    forall t | t in s.lookups ::
      var f := s.lookups[t];
      f.key.policy.hash == f.hash && Was(s.history, f.id, f.key)
  }

  ghost predicate Inv(s: State) { Recorded(s) && Guarded(s) && Traced(s) }

  /** Nothing committed earlier is rewritten. */
  ghost predicate Extends(s: State, t: State) {
    forall id | id in s.history :: id in t.history && s.history[id] <= t.history[id]
  }

  const EMPTY := State(map[], map[], map[], map[], map[])

  /** Writing the next revision extends the history and never rewrites it. */
  lemma CommitKeeps(s: State, id: nat, target: Option<Key>)
    requires Recorded(s) && Traced(s) && id in s.keys && NextRow(s.keys[id], target)
    ensures Recorded(Commit(s, id, target)) && Traced(Commit(s, id, target))
    ensures Extends(s, Commit(s, id, target))
  {
  }

  lemma TargetIsNext(k: Key, e: Edit)
    requires k.revision <= MAX_REVISION
    ensures Target(k, e).Some? ==> NextRow(k, Target(k, e).value)
  {
  }

  lemma WrittenKeepsInv(s: State, id: nat, target: Option<Key>, change: A.Change)
    requires Inv(s) && id in s.keys && id !in s.unresolved && NextRow(s.keys[id], target)
    ensures Inv(Written(s, id, target, change)) && Extends(s, Written(s, id, target, change))
  {
    if change.Acknowledged? {
      CommitKeeps(s, id, target);
    } else if change.Unknown? {
      UnknownKeeps(s, id, target);
    }
  }

  lemma UnknownKeeps(s: State, id: nat, target: Option<Key>)
    requires Inv(s) && id in s.keys && NextRow(s.keys[id], target)
    ensures Inv(s.(unresolved := s.unresolved[id := target], fences := s.fences[id := A.Fence(true, true)]))
  {
  }

  lemma MutatedKeepsInv(s: State, id: nat, edit: Edit, change: A.Change)
    requires Inv(s)
    ensures Inv(Mutated(s, id, edit, change)) && Extends(s, Mutated(s, id, edit, change))
  {
    if id in s.keys && id !in s.unresolved && Target(s.keys[id], edit).Some? {
      TargetIsNext(s.keys[id], edit);
      WrittenKeepsInv(s, id, Target(s.keys[id], edit).value, change);
    }
  }

  lemma ResolveKeepsInv(s: State, id: nat, committed: bool)
    requires Inv(s)
    ensures Inv(Step(s, Resolve(id, committed))) && Extends(s, Step(s, Resolve(id, committed)))
  {
    if id in s.unresolved {
      CommitKeeps(s.(unresolved := s.unresolved - {id}), id, s.unresolved[id]);
    }
  }

  lemma InsideKeepsInv(s: State, id: nat, ok: bool)
    requires Inv(s) && EnterKey(s, id, ok).Some?
    ensures Inv(Inside(s, id)) && id !in s.unresolved
  {
  }

  lemma CreateKeepsInv(s: State, id: nat, policy: Policy)
    requires Inv(s)
    ensures Inv(Step(s, Create(id, policy))) && Extends(s, Step(s, Create(id, policy)))
  {
    if id !in s.history {
      NewKeyKeeps(s, id, Key(policy, 1));
    }
  }

  /** An ID without history is on no key, no lookup and no unresolved transaction. */
  lemma NewKeyKeeps(s: State, id: nat, k: Key)
    requires Inv(s) && id !in s.history && k.revision == 1
    ensures Recorded(Commit(s, id, Some(k))) && Guarded(Commit(s, id, Some(k))) && Traced(Commit(s, id, Some(k)))
  {
    NewKeyRecorded(s, id, k);
    NewKeyTraced(s, id, k);
    assert id !in s.unresolved;
  }

  lemma NewKeyRecorded(s: State, id: nat, k: Key)
    requires Recorded(s) && id !in s.history && k.revision == 1
    ensures Recorded(Commit(s, id, Some(k)))
  {
    assert Commit(s, id, Some(k)).history[id] == [k.policy];
  }

  lemma NewKeyTraced(s: State, id: nat, k: Key)
    requires Traced(s) && id !in s.history
    ensures Traced(Commit(s, id, Some(k)))
  {
  }

  lemma RestartKeepsInv(s: State, interrupted: map<nat, Option<Key>>)
    requires Inv(s)
    ensures Inv(Step(s, Restart(interrupted))) && Extends(s, Step(s, Restart(interrupted)))
  {
  }

  lemma AdmitKeepsInv(s: State, ticket: nat, ok: bool)
    requires Inv(s)
    ensures Inv(Step(s, Admit(ticket, ok))) && Extends(s, Step(s, Admit(ticket, ok)))
  {
  }

  lemma StepKeepsInv(s: State, e: Event)
    requires Inv(s)
    ensures Inv(Step(s, e)) && Extends(s, Step(s, e))
  {
    match e
    case Create(id, policy) => CreateKeepsInv(s, id, policy);
    case Mutate(id, edit, ok, change) =>
      if EnterKey(s, id, ok).Some? {
        InsideKeepsInv(s, id, ok);
        MutatedKeepsInv(Inside(s, id), id, edit, change);
      }
    case Resolve(id, committed) => ResolveKeepsInv(s, id, committed);
    case Lookup(_, _, _) =>
    case Admit(ticket, ok) => AdmitKeepsInv(s, ticket, ok);
    case Recover(_, _) =>
    case Restart(interrupted) => RestartKeepsInv(s, interrupted);
  }

  // -------------------------------------------------------------------- runs

  ghost predicate Run(states: seq<State>, events: seq<Event>) {
    && |states| == |events| + 1 && states[0] == EMPTY
    && forall i | 0 <= i < |events| :: states[i + 1] == Step(states[i], events[i])
  }

  lemma {:induction false} RunKeepsInv(states: seq<State>, events: seq<Event>, i: nat)
    requires Run(states, events) && i < |states|
    ensures Inv(states[i])
  {
    if i > 0 {
      RunKeepsInv(states, events, i - 1);
      StepKeepsInv(states[i - 1], events[i - 1]);
    }
  }

  lemma {:induction false} HistoryGrows(states: seq<State>, events: seq<Event>, i: nat, j: nat, id: nat)
    requires Run(states, events) && i <= j < |states| && id in states[i].history
    ensures id in states[j].history && states[i].history[id] <= states[j].history[id]
  {
    if i < j {
      HistoryGrows(states, events, i, j - 1, id);
      RunKeepsInv(states, events, j - 1);
      StepKeepsInv(states[j - 1], events[j - 1]);
    }
  }

  /** A revision determines the hash, the scopes and the servers, across the whole run. */
  lemma RevisionDeterminesPolicy(states: seq<State>, events: seq<Event>, i: nat, j: nat, id: nat)
    requires Run(states, events) && i <= j < |states|
    requires id in states[i].keys && id in states[j].keys
    requires states[i].keys[id].revision == states[j].keys[id].revision
    ensures states[i].keys[id] == states[j].keys[id]
  {
    RunKeepsInv(states, events, i);
    RunKeepsInv(states, events, j);
    HistoryGrows(states, events, i, j, id);
  }

  /**
   Linearizability of validation: whatever happened between the lookup and the
   admission, the key returned is the one committed at the admission, nothing on
   it is unresolved, and its hash is the presented one.
   */
  lemma ValidatedKeyIsCurrent(states: seq<State>, events: seq<Event>, i: nat, ticket: nat, ok: bool)
    requires Run(states, events) && i < |states|
    requires Validated(states[i], ticket, ok).Some?
    ensures var s, f := states[i], states[i].lookups[ticket];
      && f.id in s.keys && f.id !in s.unresolved
      && Validated(s, ticket, ok).value == s.keys[f.id] && s.keys[f.id].policy.hash == f.hash
  {
    RunKeepsInv(states, events, i);
    ValidatedIsStored(states[i], ticket, ok);
  }

  /** Conversely, a lookup of the current key is always admitted when its gate answers. */
  lemma CurrentKeyIsValidated(s: State, ticket: nat, ok: bool)
    requires Inv(s) && ticket in s.lookups
    requires s.lookups[ticket].id in s.keys && s.keys[s.lookups[ticket].id].policy.hash == s.lookups[ticket].hash
    ensures EnterKey(s, s.lookups[ticket].id, ok).Some? ==>
      Validated(s, ticket, ok) == Some(s.keys[s.lookups[ticket].id])
  {
  }

  /** The gate answers exactly when nothing on the key is unresolved, whichever source it reads. */
  lemma GateAnswersIff(s: State, id: nat, ok: bool)
    requires Inv(s)
    ensures EnterKey(s, id, ok)
      == if !ok || id in s.unresolved then None else Some(if id in s.keys then s.keys[id].revision else 0)
  {
  }

  /** A validation returns a key exactly when the key found still has the presented hash and is settled. */
  lemma ValidatedIff(s: State, ticket: nat, ok: bool)
    requires Inv(s) && ticket in s.lookups
    ensures var f := s.lookups[ticket];
      Validated(s, ticket, ok).Some? <==> ok && f.id in s.keys && f.id !in s.unresolved && s.keys[f.id].policy.hash == f.hash
  {
    GateAnswersIff(s, s.lookups[ticket].id, ok);
    if Validated(s, ticket, ok).Some? {
      ValidatedIsStored(s, ticket, ok);
    }
  }

  /** What an admission tells its caller in any consistent state. */
  lemma ValidatedIsStored(s: State, ticket: nat, ok: bool)
    requires Inv(s) && Validated(s, ticket, ok).Some?
    ensures var f := s.lookups[ticket];
      f.id in s.keys && f.id !in s.unresolved && Validated(s, ticket, ok).value == s.keys[f.id]
      && s.keys[f.id].policy.hash == f.hash
  {
  }

  // --------------------------------------------------- what an edit amounts to

  function Elements<T(==)>(s: seq<T>): set<T> { set x | x in s }

  lemma SameSetIff<T>(a: seq<T>, b: seq<T>)
    ensures SameSet(a, b) <==> Elements(a) == Elements(b)
  {
    assert forall x :: x in Elements(a) <==> x in a;
    assert forall x :: x in Elements(b) <==> x in b;
  }

  /** The edit is meant for this revision, another one fits, and it would change something. */
  predicate Applies(k: Key, e: Edit) {
    match e
    case Deletion => true
    case Rotation(expected, _) => expected == k.revision && k.revision != MAX_REVISION
    case Permissions(expected, scopes, servers) =>
      && expected == k.revision && k.revision != MAX_REVISION
      && ((scopes.Some? && Elements(k.policy.scopes) != Elements(scopes.value))
          || (servers.Some? && Elements(k.policy.servers) != Elements(servers.value)))
  }

  /** A rotation replaces the hash and nothing else, an edit the given lists and nothing else, both as the next revision. */
  predicate Writes(k: Key, row: Option<Key>, e: Edit) {
    match e
    case Deletion => row.None?
    case Rotation(_, hash) => row == Some(Key(Policy(hash, k.policy.scopes, k.policy.servers), k.revision + 1))
    case Permissions(_, scopes, servers) =>
      && row.Some? && row.value.revision == k.revision + 1 && row.value.policy.hash == k.policy.hash
      && row.value.policy.scopes == (if scopes.None? then k.policy.scopes else scopes.value)
      && row.value.policy.servers == (if servers.None? then k.policy.servers else servers.value)
  }

  lemma TargetMeans(k: Key, e: Edit)
    ensures Target(k, e).Some? <==> Applies(k, e)
    ensures Target(k, e).Some? ==> Writes(k, Target(k, e).value, e)
  {
    SameSetIff(k.policy.scopes, Edited(k.policy, e).scopes);
    SameSetIff(k.policy.servers, Edited(k.policy, e).servers);
  }

  function RowOf(keys: map<nat, Key>, id: nat): Option<Key> { if id in keys then Some(keys[id]) else None }

  /** The edit's transaction gets as far as COMMIT. */
  ghost predicate Reached(s: State, id: nat, edit: Edit, ok: bool) {
    EnterKey(s, id, ok).Some? && id in s.keys && id !in s.unresolved && Applies(s.keys[id], edit)
  }

  /** What its caller learns. */
  ghost function Report(s: State, id: nat, edit: Edit, ok: bool, commit: CommitReply): A.Change {
    if !Reached(s, id, edit, ok) then A.KnownFailure
    else if commit.CommitOk? then A.Acknowledged
    else if DefinitelyRolledBack(commit) then A.RolledBack
    else A.Unknown
  }

  /** A mutation whose fate is already decided when its answer is lost is resolved at once. */
  ghost function MutateStep(s: State, id: nat, edit: Edit, ok: bool, commit: CommitReply, fate: Fate): State {
    var change := Report(s, id, edit, ok, commit);
    var t := Step(s, Mutate(id, edit, ok, change));
    if change.Unknown? && !fate.InFlight? then Step(t, Resolve(id, fate.TookEffect?)) else t
  }

  /** The database once the transaction that writes `target` has met its fate. */
  function Wrote(s: State, id: nat, target: Option<Key>, fate: Fate): State {
    match fate
    case TookEffect => Commit(s, id, target)
    case TookNoEffect => s
    case InFlight => s.(unresolved := s.unresolved[id := target])
  }

  function Suspected(s: State, id: nat): State { s.(fences := s.fences[id := A.Fence(true, true)]) }

  /** A mutation is its transaction, with the fence raised exactly when the answer leaves its fate open. */
  lemma MutateIs(s: State, id: nat, edit: Edit, ok: bool, commit: CommitReply, fate: Fate)
    requires Possible(commit, fate) && Reached(s, id, edit, ok)
    ensures Target(s.keys[id], edit).Some?
    ensures var w := Wrote(Inside(s, id), id, Target(s.keys[id], edit).value, fate);
      MutateStep(s, id, edit, ok, commit, fate) == if Uncertain(commit) then Suspected(w, id) else w
  {
    TargetMeans(s.keys[id], edit);
    RolledBackIff(commit);
    var target := Target(s.keys[id], edit).value;
    if Uncertain(commit) {
      var t := Step(s, Mutate(id, edit, ok, A.Unknown));
      assert t == Suspected(Inside(s, id), id).(unresolved := s.unresolved[id := target]);
      assert t.unresolved - {id} == s.unresolved;
    }
  }

  lemma RefusedIs(s: State, id: nat, edit: Edit, ok: bool, commit: CommitReply, fate: Fate)
    requires !Reached(s, id, edit, ok)
    ensures MutateStep(s, id, edit, ok, commit, fate) == if EnterKey(s, id, ok).Some? then Inside(s, id) else s
  {
    if id in s.keys {
      TargetMeans(s.keys[id], edit);
    }
  }

  lemma MutateKeepsInv(s: State, id: nat, edit: Edit, ok: bool, commit: CommitReply, fate: Fate)
    requires Inv(s)
    ensures Inv(MutateStep(s, id, edit, ok, commit, fate)) && Extends(s, MutateStep(s, id, edit, ok, commit, fate))
  {
    var e := Mutate(id, edit, ok, Report(s, id, edit, ok, commit));
    StepKeepsInv(s, e);
    StepKeepsInv(Step(s, e), Resolve(id, fate.TookEffect?));
  }

  /** The rows follow what became of the transaction: the edit's row, the old one, or both still possible. */
  ghost predicate Follows(s: State, t: State, id: nat, edit: Edit, fate: Fate)
    requires id in s.keys
  {
    match fate
    case TookEffect => Writes(s.keys[id], RowOf(t.keys, id), edit) && t.unresolved == s.unresolved
    case TookNoEffect => t.keys == s.keys && t.unresolved == s.unresolved
    case InFlight => t.keys == s.keys && id in t.unresolved && Writes(s.keys[id], t.unresolved[id], edit)
  }

  lemma MutateEffect(s: State, id: nat, edit: Edit, ok: bool, commit: CommitReply, fate: Fate)
    requires Possible(commit, fate)
    ensures var t, change := MutateStep(s, id, edit, ok, commit, fate), Report(s, id, edit, ok, commit);
      && (forall k | k != id :: RowOf(t.keys, k) == RowOf(s.keys, k) && (k in t.unresolved <==> k in s.unresolved))
      && (if Reached(s, id, edit, ok) then Follows(s, t, id, edit, fate) else t.keys == s.keys && t.unresolved == s.unresolved)
      && (change.Unknown? ==> A.FenceOf(t.fences, id).pending)
      && (change.Unknown? <==> Reached(s, id, edit, ok) && Uncertain(commit))
  {
    RolledBackIff(commit);
    if Reached(s, id, edit, ok) {
      TargetMeans(s.keys[id], edit);
      MutateIs(s, id, edit, ok, commit, fate);
    } else {
      RefusedIs(s, id, edit, ok, commit, fate);
    }
  }

  // ----------------------------------------------------------------- service

  class KeyService {
    var keys: map<nat, Key>
    var unresolved: map<nat, Option<Key>>
    var fences: map<nat, A.Fence>
    ghost var lookups: map<nat, Found>
    ghost var history: map<nat, seq<Policy>>

    constructor ()
      ensures Valid() && Value() == EMPTY
    {
      keys, unresolved, fences := map[], map[], map[];
      lookups, history := map[], map[];
    }

    ghost function Value(): State
      reads this
    {
      State(keys, unresolved, fences, lookups, history)
    }

    ghost predicate Valid()
      reads this
    {
      Inv(Value())
    }

    /** The gate's version read: ordinary, or locking after startup and while fenced. */
    method Enter(id: nat, ok: bool) returns (revision: Option<nat>)
      modifies this`fences
      ensures revision == EnterKey(old(Value()), id, ok)
      ensures Value() == if revision.Some? then Inside(old(Value()), id) else old(Value())
    {
      var state := if id in fences then fences[id] else A.Fence(false, false);
      if !ok || ((!state.initialized || state.pending) && id in unresolved) {
        return None;
      }
      fences := fences[id := A.Fence(true, false)];
      return Some(if id in keys then keys[id].revision else 0);
    }

    /**
     Rotate, edit or delete a key inside its gate. The rows follow what became of
     the transaction, the report follows the answer to COMMIT, and no edit that took
     or may still take effect is reported as failed. No other key changes and no
     policy that was ever committed is rewritten.
     */
    method Mutate(id: nat, edit: Edit, ok: bool, commit: CommitReply, fate: Fate) returns (change: A.Change)
      requires Valid() && Possible(commit, fate)
      modifies this
      ensures Valid() && Value() == MutateStep(old(Value()), id, edit, ok, commit, fate)
      ensures Extends(old(Value()), Value())
      ensures forall k | k != id :: RowOf(keys, k) == RowOf(old(keys), k) && (k in unresolved <==> k in old(unresolved))
      ensures old(Reached(Value(), id, edit, ok)) ==> Follows(old(Value()), Value(), id, edit, fate)
      ensures !old(Reached(Value(), id, edit, ok)) ==> change.KnownFailure?
      ensures change.KnownFailure? || change.RolledBack? ==> keys == old(keys) && unresolved == old(unresolved)
      ensures change.Acknowledged? ==> id in old(keys) && Writes(old(keys)[id], RowOf(keys, id), edit)
      ensures change.Unknown? <==> old(Reached(Value(), id, edit, ok)) && Uncertain(commit)
      ensures change.Unknown? ==> A.FenceOf(fences, id).pending
    {
      MutateKeepsInv(Value(), id, edit, ok, commit, fate);
      MutateEffect(Value(), id, edit, ok, commit, fate);
      change := MutateLocked(id, edit, ok, commit, fate);
    }

    method MutateLocked(id: nat, edit: Edit, ok: bool, commit: CommitReply, fate: Fate) returns (change: A.Change)
      requires Possible(commit, fate)
      modifies this
      ensures Value() == MutateStep(old(Value()), id, edit, ok, commit, fate)
      ensures change == old(Report(Value(), id, edit, ok, commit))
    {
      if Reached(Value(), id, edit, ok) {
        MutateIs(Value(), id, edit, ok, commit, fate);
      } else {
        RefusedIs(Value(), id, edit, ok, commit, fate);
      }
      RolledBackIff(commit);
      var revision := Enter(id, ok);
      if revision.None? || id !in keys || id in unresolved {
        return A.KnownFailure;
      }
      TargetMeans(keys[id], edit);
      var target := Target(keys[id], edit);
      if target.None? {
        return A.KnownFailure;
      }
      Write(id, target.value, fate);
      if commit.CommitOk? {
        return A.Acknowledged;
      }
      if DefinitelyRolledBack(commit) {
        return A.RolledBack;
      }
      fences := fences[id := A.Fence(true, true)];
      return A.Unknown;
    }

    /** What becomes of the transaction that writes the row. */
    method Write(id: nat, target: Option<Key>, fate: Fate)
      modifies this
      ensures Value() == Wrote(old(Value()), id, target, fate)
    {
      if fate.InFlight? {
        unresolved := unresolved[id := target];
      } else if fate.TookEffect? {
        if target.None? {
          keys := keys - {id};
        } else {
          keys := keys[id := target.value];
          history := history[id := PastOf(history, id) + [target.value.policy]];
        }
      }
    }

    /** Look the presented hash up, outside any gate: a key that has it, or nothing when none does. */
    method FindByHash(ticket: nat, hash: string) returns (found: Option<Found>)
      requires Valid()
      modifies this`lookups
      ensures Valid()
      ensures found.None? ==> Value() == old(Value()) && forall id | id in keys :: keys[id].policy.hash != hash
      ensures found.Some? ==>
        && found.value.id in keys && found.value == Found(hash, found.value.id, keys[found.value.id])
        && keys[found.value.id].policy.hash == hash
        && Value() == Step(old(Value()), Lookup(ticket, hash, found.value.id))
        && ticket in lookups && lookups[ticket] == found.value
    {
      var id := SearchHash(keys, hash);
      if id.None? {
        return None;
      }
      StepKeepsInv(Value(), Lookup(ticket, hash, id.value));
      found := Some(Found(hash, id.value, keys[id.value]));
      lookups := lookups[ticket := found.value];
    }

    /**
     Finish a validation: admit the key found earlier, reloading it if its revision
     moved. A returned key is the stored one at this moment, nothing on it is
     unresolved, and it has the presented hash.
     */
    method Validate(ticket: nat, found: Found, ok: bool) returns (key: Option<Key>)
      requires Valid() && ticket in lookups && lookups[ticket] == found
      modifies this
      ensures Valid() && Value() == Step(old(Value()), Admit(ticket, ok))
      ensures key == Validated(old(Value()), ticket, ok)
      ensures keys == old(keys) && unresolved == old(unresolved)
      ensures key.Some? <==> ok && found.id in keys && found.id !in unresolved && keys[found.id].policy.hash == found.hash
      ensures key.Some? ==> key.value == keys[found.id]
    {
      StepKeepsInv(Value(), Admit(ticket, ok));
      ValidatedIff(Value(), ticket, ok);
      if Validated(Value(), ticket, ok).Some? {
        ValidatedIsStored(Value(), ticket, ok);
      }
      key := ValidateLocked(ticket, found, ok);
    }

    method ValidateLocked(ticket: nat, found: Found, ok: bool) returns (key: Option<Key>)
      requires ticket in lookups && lookups[ticket] == found
      modifies this
      ensures Value() == Step(old(Value()), Admit(ticket, ok)) && key == Validated(old(Value()), ticket, ok)
      ensures keys == old(keys) && unresolved == old(unresolved)
    {
      var revision := Enter(found.id, ok);
      lookups := lookups - {ticket};
      if revision.None? || revision.value == 0 {
        return None;
      }
      key := Some(found.key);
      if revision.value != found.key.revision {
        if found.id !in keys {
          return None;
        }
        key := Some(keys[found.id]);
      }
      if key.value.policy.hash != found.hash {
        return None;
      }
    }
  }

  /** The row the unique hash index would find. */
  method SearchHash(keys: map<nat, Key>, hash: string) returns (id: Option<nat>)
    ensures id.Some? ==> id.value in keys && keys[id.value].policy.hash == hash
    ensures id.None? ==> forall k | k in keys :: keys[k].policy.hash != hash
  {
    var rest := keys.Keys;
    while rest != {}
      invariant rest <= keys.Keys
      invariant forall k | k in keys.Keys - rest :: keys[k].policy.hash != hash
      decreases |rest|
    {
      var k :| k in rest;
      if keys[k].policy.hash == hash {
        return Some(k);
      }
      rest := rest - {k};
    }
    return None;
  }
}
