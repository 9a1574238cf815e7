/** The session the service and the repository share: the database handle
    with at most one open transaction. Begin takes a snapshot of the tables,
    commit keeps the current tables, rollback restores the snapshot. */
module Session {
  import opened Wrappers
  import opened Schema

  datatype TxState = Idle | Active | Committed | RolledBack

  /** What the session did, in order. */
  datatype Event = Began | Commit | Rollback

  /** A log of whole transactions, in which each Began is closed by exactly
      one Commit or Rollback; `open` says the last Began is not closed yet. */
  predicate Balanced(log: seq<Event>, open: bool)
    decreases |log|
  {
    if log == [] then !open
    else
      var init := log[..|log| - 1];
      match log[|log| - 1]
      case Began => open && Balanced(init, false)
      case Commit => !open && Balanced(init, true)
      case Rollback => !open && Balanced(init, true)
  }

  /** In a balanced log every Commit and every Rollback directly follows the
      Began it closes: there is never a rollback after a commit, a second
      rollback, or a commit or rollback outside a transaction. */
  lemma {:induction false} ClosedDirectlyAfterBegan(log: seq<Event>, open: bool)
    requires Balanced(log, open)
    ensures forall i :: 0 <= i < |log| && log[i] != Began ==> 0 < i && log[i - 1] == Began
    ensures forall i :: 0 <= i < |log| && log[i] == Began && i + 1 < |log| ==> log[i + 1] != Began
    ensures open <==> |log| > 0 && log[|log| - 1] == Began
  {
    if log != [] {
      var init := log[..|log| - 1];
      ClosedDirectlyAfterBegan(init, log[|log| - 1] != Began);
      assert forall i :: 0 <= i < |init| ==> init[i] == log[i];
    }
  }

  class Session {
    var tables: Tables
    var state: TxState
    var snapshot: Tables
    ghost var events: seq<Event>

    ghost predicate Valid()
      reads this
    {
      Balanced(events, state == Active)
    }

    constructor(initial: Tables)
      ensures Valid()
      ensures tables == initial && state == Idle && events == []
    {
      tables := initial;
      state := Idle;
      snapshot := initial;
      events := [];
    }

    function IsTransactionInProgress(): (b: bool)
      reads this
      ensures b <==> state == Active
    {
      state == Active
    }

    /** `beginTransaction()`; `fails` is the connection refusing it. */
    method BeginTransaction(fails: bool) returns (r: Result<(), Error>)
      requires Valid() && state != Active
      modifies this
      ensures Valid()
      ensures tables == old(tables)
      ensures fails ==> r == Failure(BeginFailed) && state == old(state) && snapshot == old(snapshot) && events == old(events)
      ensures !fails ==> r.Success? && state == Active && snapshot == tables && events == old(events) + [Began]
    {
      if fails {
        r := Failure(BeginFailed);
        return;
      }
      snapshot := tables;
      state := Active;
      events := events + [Began];
      r := Success(());
    }

    /** `commitTransaction()`; when the commit fails the transaction stays
      open, so the caller's guard rolls it back. */
    method CommitTransaction(fails: bool) returns (r: Result<(), Error>)
      requires Valid() && state == Active
      modifies this
      ensures Valid()
      ensures tables == old(tables)
      ensures fails ==> r == Failure(CommitFailed) && state == Active && snapshot == old(snapshot) && events == old(events)
      ensures !fails ==> r.Success? && state == Committed && events == old(events) + [Commit]
    {
      if fails {
        r := Failure(CommitFailed);
        return;
      }
      state := Committed;
      events := events + [Commit];
      r := Success(());
    }

    /** `rollbackTransaction()`: the tables return to the snapshot taken at
      begin. */
    method RollbackTransaction()
      requires Valid() && state == Active
      modifies this
      ensures Valid()
      ensures tables == old(snapshot) && state == RolledBack && events == old(events) + [Rollback]
    {
      tables := snapshot;
      state := RolledBack;
      events := events + [Rollback];
    }
  }
}
