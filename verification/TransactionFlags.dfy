/**
 * The commit mode, abort flag and epoch one connection shares with every
 * statement it produces.
 *
 * The class keeps three registers and a ghost history of what was recorded.
 * `Valid` says that each register equals a property of the whole history, so
 * the registers are proved to be a faithful summary of it.
 */
module TransactionFlags {

  datatype Event =
    | ModeSet(enabled: bool)
    | FailureNoted
    | Begun
    | Ended

  /** The epoch is a 64-bit counter that wraps. */
  const EPOCH_RANGE: nat := 0x1_0000_0000_0000_0000

  /** The commit mode after `h`: the last one recorded, autocommit before any. */
  predicate ModeAfter(h: seq<Event>) {
    if h == [] then true
    else match h[|h| - 1]
      case ModeSet(enabled) => enabled
      case _ => ModeAfter(h[..|h| - 1])
  }

  /** A failure noted in manual-commit mode at `i`, with nothing begun or ended since. */
  ghost predicate DoomedAt(h: seq<Event>, i: nat)
    requires i < |h|
  {
    && h[i].FailureNoted?
    && !ModeAfter(h[..i])
    && forall j :: i < j < |h| ==> !h[j].Begun? && !h[j].Ended?
  }

  ghost predicate Doomed(h: seq<Event>) {
    exists i: nat :: i < |h| && DoomedAt(h, i)
  }

  /** How many transactions `h` ends. */
  function Ends(h: seq<Event>): nat {
    if h == [] then 0
    else Ends(h[..|h| - 1]) + (if h[|h| - 1].Ended? then 1 else 0)
  }

  /** How one more event changes whether the open transaction is doomed. */
  lemma DoomedStep(h: seq<Event>, e: Event)
    ensures Doomed(h + [e]) ==
            match e
            case ModeSet(_) => Doomed(h)
            case FailureNoted => Doomed(h) || !ModeAfter(h)
            case Begun => false
            case Ended => false
  {
    var g := h + [e];
    assert forall i: nat :: i <= |h| ==> g[..i] == h[..i];
    assert h[..|h|] == h;
    if Doomed(h) && (e.ModeSet? || e.FailureNoted?) {
      var i: nat :| i < |h| && DoomedAt(h, i);
      assert DoomedAt(g, i);
    }
    if e.FailureNoted? && !ModeAfter(h) {
      assert DoomedAt(g, |h|);
    }
    if Doomed(g) {
      var i: nat :| i < |g| && DoomedAt(g, i);
      if i < |h| {
        assert g[|h|] == e;
        assert DoomedAt(h, i);
      }
    }
  }

  /** How one more event changes the recorded mode and the number of ends. */
  lemma LastEvent(h: seq<Event>, e: Event)
    ensures ModeAfter(h + [e]) == if e.ModeSet? then e.enabled else ModeAfter(h)
    ensures Ends(h + [e]) == if e.Ended? then Ends(h) + 1 else Ends(h)
  {
    assert (h + [e])[..|h|] == h && (h + [e])[|h|] == e;
  }

  /** Ends never go down, and a longer history has ended one more iff an `Ended` lies between. */
  lemma {:induction false} EndsGrow(earlier: seq<Event>, later: seq<Event>)
    requires earlier <= later
    ensures Ends(earlier) <= Ends(later)
    ensures Ends(earlier) < Ends(later) <==> exists i :: |earlier| <= i < |later| && later[i].Ended?
  {
    if |earlier| == |later| {
      assert earlier == later;
    } else {
      var prefix := later[..|later| - 1];
      EndsGrow(earlier, prefix);
      if later[|later| - 1].Ended? {
        assert |earlier| <= |later| - 1 < |later|;
      } else if i :| |earlier| <= i < |later| && later[i].Ended? {
        assert prefix[i].Ended?;
      } else {
        assert forall i :: |earlier| <= i < |prefix| ==> prefix[i] == later[i];
      }
    }
  }

  /** A transaction ended after `earlier`. */
  ghost predicate EndedSince(earlier: seq<Event>, later: seq<Event>) {
    exists i :: |earlier| <= i < |later| && later[i].Ended?
  }

  /**
   * A result set recorded after `earlier` is reported as outlived exactly when
   * a transaction has ended since, as long as fewer than 2^64 have.
   */
  lemma OutlivedIffEnded(earlier: seq<Event>, later: seq<Event>)
    requires earlier <= later
    requires Ends(later) - Ends(earlier) < EPOCH_RANGE
    ensures Ends(later) % EPOCH_RANGE != Ends(earlier) % EPOCH_RANGE
       <==> EndedSince(earlier, later)
  {
    EndsGrow(earlier, later);
    var a, b := Ends(earlier), Ends(later);
    if a % EPOCH_RANGE == b % EPOCH_RANGE {
      assert b - a == EPOCH_RANGE * (b / EPOCH_RANGE - a / EPOCH_RANGE);
    }
  }

  lemma NextEpoch(n: nat)
    ensures (n % EPOCH_RANGE + 1) % EPOCH_RANGE == (n + 1) % EPOCH_RANGE
  {
  }

  class TransactionState {
    var autocommit: bool
    var aborted: bool
    var epoch: nat
    ghost var history: seq<Event>

    ghost predicate Valid()
      reads this
    {
      && autocommit == ModeAfter(history)
      && aborted == Doomed(history)
      && epoch == Ends(history) % EPOCH_RANGE
    }

    constructor ()
      ensures Valid() && history == []
      ensures autocommit && !aborted && epoch == 0
    {
      autocommit, aborted, epoch := true, false, 0;
      history := [];
    }

    method SetAutocommit(enabled: bool)
      requires Valid()
      modifies this
      ensures Valid() && history == old(history) + [ModeSet(enabled)]
      ensures autocommit == enabled && aborted == old(aborted) && epoch == old(epoch)
    {
      hide Doomed, ModeAfter, Ends;
      autocommit := enabled;
      DoomedStep(history, ModeSet(enabled));
      LastEvent(history, ModeSet(enabled));
      history := history + [ModeSet(enabled)];
    }

    /** Records a failure, which says nothing in autocommit mode. */
    method NoteStatementError()
      requires Valid()
      modifies this
      ensures Valid() && history == old(history) + [FailureNoted]
      ensures autocommit == old(autocommit) && epoch == old(epoch)
      ensures aborted == (old(aborted) || !autocommit)
    {
      hide Doomed, ModeAfter, Ends;
      if !autocommit {
        aborted := true;
      }
      DoomedStep(history, FailureNoted);
      LastEvent(history, FailureNoted);
      history := history + [FailureNoted];
    }

    method Begun()
      requires Valid()
      modifies this
      ensures Valid() && history == old(history) + [Event.Begun]
      ensures autocommit == old(autocommit) && epoch == old(epoch) && !aborted
    {
      hide Doomed, ModeAfter, Ends;
      aborted := false;
      DoomedStep(history, Event.Begun);
      LastEvent(history, Event.Begun);
      history := history + [Event.Begun];
    }

    method Ended()
      requires Valid()
      modifies this
      ensures Valid() && history == old(history) + [Event.Ended]
      ensures autocommit == old(autocommit) && !aborted
      ensures epoch == (old(epoch) + 1) % EPOCH_RANGE
    {
      hide Doomed, ModeAfter, Ends;
      epoch := (epoch + 1) % EPOCH_RANGE;
      aborted := false;
      NextEpoch(Ends(history));
      DoomedStep(history, Event.Ended);
      LastEvent(history, Event.Ended);
      history := history + [Event.Ended];
    }

    /** Whether a result set recorded at `recorded` has outlived its transaction. */
    predicate Outlived(recorded: nat)
      reads this
    {
      epoch != recorded
    }
  }
}
