/**
 How a transaction's COMMIT is answered and what that says about its effect. Only an
 explicit rejection by the database proves that nothing happened; a broken
 connection proves nothing.
 */
module Commits {

  /** The answer to COMMIT: acknowledged, an explicit database error, or a broken connection. */
  datatype CommitReply = CommitOk | TxRollback | SqlError(code: string) | Transport

  /** What became of the transaction by the time the answer is in. */
  datatype Fate = TookEffect | TookNoEffect | InFlight

  /** Which fates the database leaves open by its answer. */
  ghost predicate Possible(c: CommitReply, fate: Fate) {
    match c
    case CommitOk => fate.TookEffect?
    case TxRollback => fate.TookNoEffect?
    case SqlError(code) => code == "40001" || code == "40P01" || code == "25P02" ==> fate.TookNoEffect?
    case Transport => true
  }

  /** The answer rules out neither that the transaction took effect nor that it did not. */
  ghost predicate Uncertain(c: CommitReply) { Possible(c, TookEffect) && Possible(c, TookNoEffect) }

  /** How the caller classifies the answer of a failed COMMIT. */
  predicate DefinitelyRolledBack(c: CommitReply) {
    c.TxRollback? || (c.SqlError? && c.code in {"40001", "40P01", "25P02"})
  }

  /** A failure is called a rollback exactly when no answer to it could hide an effect. */
  lemma RolledBackIff(c: CommitReply)
    ensures DefinitelyRolledBack(c) <==> forall fate :: Possible(c, fate) ==> fate.TookNoEffect?
    ensures Uncertain(c) <==> !c.CommitOk? && !DefinitelyRolledBack(c)
  {
    if !DefinitelyRolledBack(c) {
      assert Possible(c, TookEffect);
    }
  }
}
