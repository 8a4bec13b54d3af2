/**
 * The connection's transaction protocol: when a transaction is opened, how it
 * is ended, and what the application is told about it.
 *
 * `Connection` is the driver's code over shared mutable state. Each of its
 * methods is proved equal to a function on `World` values, and
 * `TransactionRuns` reasons about runs of those functions.
 */
module Connection {
  import opened Coordinator
  import Flags = TransactionFlags

  /** The three registers of `TransactionFlags.TransactionState` and the session. */
  datatype World = World(autocommit: bool, aborted: bool, epoch: nat, session: Session)

  const FRESH_WORLD := World(true, false, 0, FRESH_SESSION)

  /** `RolledBack` is SQLSTATE 25S03; `Failed` is every other error. */
  datatype Outcome = Success | RolledBack | Failed

  function WithError(w: World): World {
    w.(aborted := w.aborted || !w.autocommit)
  }

  function EnsuredTransaction(w: World, wire: Wire): (World, bool) {
    if w.autocommit || w.session.held then (w, true)
    else
      var (session, ok) := Exchange(w.session, Begin, wire);
      (w.(session := session, aborted := if ok then false else w.aborted), ok)
  }

  /** A submitted statement whose failure is noted against the open transaction. */
  function Submitted(w: World, work: Work, wire: Wire): (World, bool) {
    var (session, ok) := Exchange(w.session, Run(work), wire);
    var after := w.(session := session);
    (if ok then after else WithError(after), ok)
  }

  function Executed(w: World, work: Work, beginWire: Wire, wire: Wire): (World, Outcome) {
    var (ready, begun) := EnsuredTransaction(w, beginWire);
    if !begun then (ready, Failed)
    else
      var (after, ok) := Submitted(ready, work, wire);
      (after, if ok then Success else Failed)
  }

  function EndedTransaction(w: World, commit: bool, wire: Wire): (World, Outcome) {
    if !w.session.held then (w.(aborted := false), Success)
    else
      var req := if commit && !w.aborted then Commit else Rollback;
      var (session, ok) := Exchange(w.session, req, wire);
      (World(w.autocommit, false, (w.epoch + 1) % Flags.EPOCH_RANGE, session),
       if !ok then Failed else if w.aborted && commit then RolledBack else Success)
  }

  function SwitchedMode(w: World, enabled: bool, wire: Wire): (World, Outcome) {
    var (after, outcome) :=
      if enabled && w.session.held then EndedTransaction(w, true, wire) else (w, Success);
    (after.(autocommit := enabled), outcome)
  }

  function Disconnected(w: World, wire: Wire): World {
    if w.session.held then EndedTransaction(w, false, wire).0 else w
  }

  class Connection {
    const client: Client
    const txn: Flags.TransactionState

    ghost predicate Valid()
      reads this, txn
    {
      txn.Valid()
    }

    function State(): World
      reads this, client, txn
    {
      World(txn.autocommit, txn.aborted, txn.epoch, client.session)
    }

    constructor ()
      ensures Valid() && fresh(client) && fresh(txn)
      ensures State() == FRESH_WORLD
    {
      client := new Client();
      txn := new Flags.TransactionState();
    }

    predicate InTransaction()
      reads this, client
    {
      client.session.held
    }

    /** Opens a transaction if manual-commit mode wants one and none is held. */
    method EnsureTransaction(wire: Wire) returns (ok: bool)
      requires Valid()
      modifies client, txn
      ensures Valid() && (State(), ok) == EnsuredTransaction(old(State()), wire)
      ensures txn.history == old(txn.history)
                             + (if !old(txn.autocommit) && !old(InTransaction()) && ok then [Flags.Begun] else [])
    {
      hide Flags.ModeAfter, Flags.Doomed, Flags.Ends;
      if txn.autocommit || InTransaction() {
        return true;
      }
      ok := client.Request(Begin, wire);
      if ok {
        txn.Begun();
      }
    }

    method ExecDirect(work: Work, beginWire: Wire, wire: Wire) returns (outcome: Outcome)
      requires Valid()
      modifies client, txn
      ensures Valid() && (State(), outcome) == Executed(old(State()), work, beginWire, wire)
      ensures var begun := !old(txn.autocommit) && !old(InTransaction());
              txn.history == old(txn.history)
                             + (if begun && beginWire == Delivered then [Flags.Begun] else [])
                             + (if outcome == Failed && !(begun && beginWire != Delivered) then [Flags.FailureNoted] else [])
    {
      hide Flags.ModeAfter, Flags.Doomed, Flags.Ends;
      var ready := EnsureTransaction(beginWire);
      if !ready {
        return Failed;
      }
      var ok := client.Request(Run(work), wire);
      if !ok {
        txn.NoteStatementError();
        return Failed;
      }
      outcome := Success;
    }

    /**
     * Commits or rolls back. A commit of a transaction known to be aborted is
     * turned into the rollback the session needs, and reported as 25S03.
     */
    method EndTran(commit: bool, wire: Wire) returns (outcome: Outcome)
      requires Valid()
      modifies client, txn
      ensures Valid() && (State(), outcome) == EndedTransaction(old(State()), commit, wire)
      ensures txn.autocommit == old(txn.autocommit)
      ensures txn.history == old(txn.history) + [if old(InTransaction()) then Flags.Ended else Flags.Begun]
    {
      hide Flags.ModeAfter, Flags.Doomed, Flags.Ends;
      if !InTransaction() {
        txn.Begun();
        return Success;
      }
      var aborted := txn.aborted;
      txn.Ended();
      var ok: bool;
      if commit && !aborted {
        ok := client.Request(Commit, wire);
      } else {
        ok := client.Request(Rollback, wire);
      }
      if !ok {
        return Failed;
      }
      if aborted && commit {
        return RolledBack;
      }
      outcome := Success;
    }

    /** Switching to autocommit commits what is open; the mode is recorded either way. */
    method SetAutocommit(enabled: bool, wire: Wire) returns (outcome: Outcome)
      requires Valid()
      modifies client, txn
      ensures Valid() && (State(), outcome) == SwitchedMode(old(State()), enabled, wire)
      ensures txn.autocommit == enabled
      ensures txn.history == old(txn.history)
                             + (if enabled && old(InTransaction()) then [Flags.Ended] else []) + [Flags.ModeSet(enabled)]
    {
      hide Flags.ModeAfter, Flags.Doomed, Flags.Ends;
      outcome := Success;
      if enabled && InTransaction() {
        outcome := EndTran(true, wire);
      }
      txn.SetAutocommit(enabled);
    }

    method Disconnect(wire: Wire)
      requires Valid()
      modifies client, txn
      ensures Valid() && State() == Disconnected(old(State()), wire)
      ensures txn.history == old(txn.history) + (if old(InTransaction()) then [Flags.Ended] else [])
    {
      hide Flags.ModeAfter, Flags.Doomed, Flags.Ends;
      if InTransaction() {
        var _ := EndTran(false, wire);
      }
    }
  }
}
