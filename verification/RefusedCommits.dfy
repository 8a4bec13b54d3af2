/**
 * Why a commit is refused: over every run, the coordinator's state and the
 * driver's abort flag as properties of what has happened to the transaction
 * since it began, read off the calls, their answers and the wire alone.
 */
module RefusedCommits {
  import opened Coordinator
  import opened Connection
  import opened TransactionRuns

  /**
   * What can happen to a transaction: its id reaches the driver; a statement
   * that fails reaches the coordinator under it; the driver notes a failure;
   * an end call clears the note; a COMMIT or ROLLBACK arrives and its reply is lost.
   */
  datatype Incident =
    | Began
    | Broke
    | Noted
    | EndCalled
    | ReplyWasLost(committing: bool)

  /** The incidents of one submitted statement, whether or not the answer noted one. */
  function Submission(held: bool, work: Work, wire: Wire, noted: bool): seq<Incident> {
    (if held && work.Fails? && wire != RequestLost then [Broke] else [])
    + (if noted then [Noted] else [])
  }

  /** The incidents of an end call; a commit known to be hopeless goes out as a ROLLBACK. */
  function Ending(commit: bool, flagged: bool, wire: Wire): seq<Incident> {
    [EndCalled] + (if wire == ReplyLost then [ReplyWasLost(commit && !flagged)] else [])
  }

  /** The incidents of one call: from the mode, the id, the flag, the wire and the answer. */
  function Happened(w: World, op: Op): seq<Incident> {
    var held := w.session.held;
    var failed := Step(w, op).1 == Failed;
    match op
    case Exec(work, beginWire, wire) =>
      if w.autocommit || held then Submission(held, work, wire, failed && !w.autocommit)
      else if beginWire != Delivered then []
      else [Began] + Submission(true, work, wire, failed)
    case CatalogQuery(works, wire) => Submission(held, Probe(works), wire, failed && !w.autocommit)
    case Prepare(works, wire) => Submission(held, Probe(works), wire, false)
    case PageFailure(broke, noted) =>
      Submission(held, if broke then Fails else Succeeds([]), Delivered, noted && !w.autocommit)
    case EndTran(commit, wire) => if held then Ending(commit, w.aborted, wire) else []
    case SetAutocommit(enabled, wire) =>
      if enabled && held then Ending(true, w.aborted, wire) else []
  }

  function History(ops: seq<Op>): seq<Incident> {
    if ops == [] then []
    else History(ops[..|ops| - 1]) + Happened(Replay(ops[..|ops| - 1]).0, ops[|ops| - 1])
  }

  // ----- properties of a history

  predicate Spoils(e: Incident) {
    e.Broke? || e.ReplyWasLost?
  }

  ghost predicate SinceBegan(h: seq<Incident>, i: nat) {
    forall j :: i < j < |h| ==> h[j] != Began
  }

  /** Something spoiled the transaction since it began. */
  ghost predicate Spoiled(h: seq<Incident>) {
    exists i: nat :: i < |h| && Spoils(h[i]) && SinceBegan(h, i)
  }

  ghost predicate Uncleared(h: seq<Incident>, i: nat) {
    forall j :: i < j < |h| ==> h[j] != EndCalled
  }

  /** A failure was noted since the transaction began, and no end call came after. */
  ghost predicate Standing(h: seq<Incident>) {
    exists i: nat :: i < |h| && h[i] == Noted && SinceBegan(h, i) && Uncleared(h, i)
  }

  lemma HistoryGrows(h: seq<Incident>, e: Incident)
    ensures Spoiled(h + [e]) <==> Spoils(e) || (Spoiled(h) && e != Began)
    ensures Standing(h + [e]) <==> e == Noted || (Standing(h) && e != Began && e != EndCalled)
  {
    var g := h + [e];
    assert g[|h|] == e;
    assert forall i :: 0 <= i < |h| ==> g[i] == h[i];
    if Spoils(e) {
      assert SinceBegan(g, |h|);
    }
    if e == Noted {
      assert SinceBegan(g, |h|) && Uncleared(g, |h|);
    }
    if Spoiled(h) && e != Began {
      var i: nat :| i < |h| && Spoils(h[i]) && SinceBegan(h, i);
      assert Spoils(g[i]) && SinceBegan(g, i);
    }
    if Standing(h) && e != Began && e != EndCalled {
      var i: nat :| i < |h| && h[i] == Noted && SinceBegan(h, i) && Uncleared(h, i);
      assert g[i] == Noted && SinceBegan(g, i) && Uncleared(g, i);
    }
    ShrinksBack(h, e);
  }

  lemma ShrinksBack(h: seq<Incident>, e: Incident)
    ensures Spoiled(h + [e]) ==> Spoils(e) || (Spoiled(h) && e != Began)
    ensures Standing(h + [e]) ==> e == Noted || (Standing(h) && e != Began && e != EndCalled)
  {
    var g := h + [e];
    assert g[|h|] == e;
    assert forall i :: 0 <= i < |h| ==> g[i] == h[i];
    if Spoiled(g) {
      var i: nat :| i < |g| && Spoils(g[i]) && SinceBegan(g, i);
      if i < |h| {
        assert Spoils(h[i]) && SinceBegan(h, i);
      }
    }
    if Standing(g) {
      var i: nat :| i < |g| && g[i] == Noted && SinceBegan(g, i) && Uncleared(g, i);
      if i < |h| {
        assert h[i] == Noted && SinceBegan(h, i) && Uncleared(h, i);
      }
    }
  }

  // ----- the history tells the state

  /** While an id is held, the history says what the flag is and whether the server would commit. */
  ghost predicate Told(w: World, h: seq<Incident>) {
    w.session.held ==>
      && (w.session.server.open.Active? <==> !Spoiled(h))
      && (w.aborted <==> Standing(h))
  }

  lemma SubmissionTold(w: World, h: seq<Incident>, work: Work, wire: Wire)
    requires Told(w, h) && SessionSound(w.session)
    ensures var (session, ok) := Exchange(w.session, Run(work), wire);
            && Told(w.(session := session), h + Submission(w.session.held, work, wire, false))
            && (!w.autocommit ==>
                  Told(w.(session := session, aborted := true), h + Submission(w.session.held, work, wire, true)))
  {
    hide Spoiled, Standing, WellSent;
    HistoryGrows(h, Broke);
    HistoryGrows(h, Noted);
    HistoryGrows(h + [Broke], Noted);
    assert h + [] == h && h + ([] + []) == h && h + ([] + [Noted]) == h + [Noted];
    assert h + ([Broke] + [Noted]) == h + [Broke] + [Noted] && h + ([Broke] + []) == h + [Broke];
  }

  lemma FailureTold(w: World, h: seq<Incident>, broke: bool, noted: bool)
    requires Told(w, h) && SessionSound(w.session)
    ensures var op := PageFailure(broke, noted); Told(Step(w, op).0, h + Happened(w, op))
  {
    hide Spoiled, Standing, WellSent;
    HistoryGrows(h, Broke);
    HistoryGrows(h, Noted);
    HistoryGrows(h + [Broke], Noted);
    assert h + [] == h && h + ([] + []) == h && h + ([] + [Noted]) == h + [Noted];
    assert h + ([Broke] + [Noted]) == h + [Broke] + [Noted] && h + ([Broke] + []) == h + [Broke];
  }

  lemma EndingTold(w: World, h: seq<Incident>, commit: bool, wire: Wire)
    requires Told(w, h) && w.session.held
    ensures Told(EndedTransaction(w, commit, wire).0, h + Ending(commit, w.aborted, wire))
  {
    hide Spoiled, Standing;
    var lost := ReplyWasLost(commit && !w.aborted);
    HistoryGrows(h, EndCalled);
    HistoryGrows(h + [EndCalled], lost);
    assert h + ([EndCalled] + [lost]) == h + [EndCalled] + [lost] && h + ([EndCalled] + []) == h + [EndCalled];
  }

  lemma ExecTold(w: World, h: seq<Incident>, op: Op)
    requires Told(w, h) && SessionSound(w.session) && op.Exec?
    ensures Told(Step(w, op).0, h + Happened(w, op))
  {
    hide Spoiled, Standing, WellSent, Submission, Exchange;
    if w.autocommit || w.session.held {
      SubmissionTold(w, h, op.work, op.wire);
    } else {
      BeginTold(w, h, op.beginWire);
      var (ready, begun) := EnsuredTransaction(w, op.beginWire);
      if begun {
        ExchangeKeepsSound(w.session, Begin, op.beginWire);
        SubmissionTold(ready, h + [Began], op.work, op.wire);
        assert forall noted :: h + ([Began] + Submission(true, op.work, op.wire, noted))
                               == h + [Began] + Submission(true, op.work, op.wire, noted);
      } else {
        assert h + [] == h;
      }
    }
  }

  lemma BeginTold(w: World, h: seq<Incident>, wire: Wire)
    requires Told(w, h) && !w.autocommit && !w.session.held
    ensures var (ready, begun) := EnsuredTransaction(w, wire);
            && (begun <==> wire == Delivered) && ready.autocommit == w.autocommit
            && (begun ==> ready.session.held && Told(ready, h + [Began]))
            && (!begun ==> Told(ready, h))
  {
    hide Spoiled, Standing;
    HistoryGrows(h, Began);
  }

  lemma StepTold(w: World, h: seq<Incident>, op: Op)
    requires Told(w, h) && SessionSound(w.session)
    ensures Told(Step(w, op).0, h + Happened(w, op))
  {
    hide Spoiled, Standing, WellSent, Submission, Exchange;
    assert h + [] == h;
    match op
    case Exec(_, _, _) => ExecTold(w, h, op);
    case CatalogQuery(works, wire) => SubmissionTold(w, h, Probe(works), wire);
    case Prepare(works, wire) => SubmissionTold(w, h, Probe(works), wire);
    case PageFailure(broke, noted) => FailureTold(w, h, broke, noted);
    case EndTran(commit, wire) =>
      if w.session.held {
        EndingTold(w, h, commit, wire);
      }
    case SetAutocommit(enabled, wire) =>
      if enabled && w.session.held {
        EndingTold(w, h, true, wire);
      }
  }

  lemma {:induction false} HistoryTells(ops: seq<Op>)
    ensures Told(Replay(ops).0, History(ops))
  {
    if ops != [] {
      var front := ops[..|ops| - 1];
      HistoryTells(front);
      NeverNested(front);
      hide Told, SessionSound;
      StepTold(Replay(front).0, History(front), ops[|ops| - 1]);
    }
  }

  // ----- what an end call is answered

  /**
   * Over every run and with a link that works, the answer to an end call is
   * decided by what has happened since the transaction began. A commit is
   * refused, and the session stays bound to the transaction, iff something has
   * spoiled it and no note of a failure stands; it is answered 25S03 iff a note
   * stands; otherwise it publishes what was buffered. A rollback always works,
   * and frees the session after a refusal too.
   */
  lemma EndTranFreesIff(ops: seq<Op>, commit: bool)
    ensures var w := Replay(ops).0; var h := History(ops);
            var (after, outcome) := EndedTransaction(w, commit, Delivered);
            && (outcome == Failed <==> commit && w.session.held && Spoiled(h) && !Standing(h))
            && (outcome == RolledBack <==> commit && w.session.held && Standing(h))
            && (after.session.held <==> outcome == Failed)
            && (commit && w.session.held && outcome == Success ==>
                  w.session.server.open.Active?
                  && after.session.server.published == w.session.server.published + w.session.server.open.writes)
            && (after.session.held ==> EndedTransaction(after, false, Delivered).1 == Success
                                       && !EndedTransaction(after, false, Delivered).0.session.held)
  {
    hide Spoiled, Standing;
    HistoryTells(ops);
  }

  // ----- the causes, one by one

  /** A failure the driver never noted afterwards: a PREPARE, a drained page. */
  ghost predicate NeverNoted(h: seq<Incident>) {
    exists i: nat :: i < |h| && h[i] == Broke && SinceBegan(h, i)
                     && forall j :: i < j < |h| ==> h[j] != Noted
  }

  /** A failure noted, by itself or a later one, and an unanswered end call that cleared the note. */
  ghost predicate NoteCleared(h: seq<Incident>) {
    exists i: nat, j: nat, k: nat ::
      i < j < k < |h| && h[i] == Broke && SinceBegan(h, i) && h[j] == Noted && h[k] == EndCalled
  }

  /** A COMMIT, or a ROLLBACK, that arrived and was never heard of again. */
  ghost predicate LostAnswer(h: seq<Incident>, committing: bool) {
    exists i: nat :: i < |h| && h[i] == ReplyWasLost(committing) && SinceBegan(h, i)
  }

  lemma SpoilingCauses(h: seq<Incident>)
    requires !Standing(h)
    ensures Spoiled(h) <==> NeverNoted(h) || NoteCleared(h) || LostAnswer(h, true) || LostAnswer(h, false)
  {
    if Spoiled(h) {
      var i: nat :| i < |h| && Spoils(h[i]) && SinceBegan(h, i);
      if h[i].Broke? {
        if j :| i < j < |h| && h[j] == Noted {
          assert SinceBegan(h, j);
          assert !Uncleared(h, j);
          var k :| j < k < |h| && h[k] == EndCalled;
        }
      } else {
        assert h[i] == ReplyWasLost(h[i].committing);
      }
    }
    if NeverNoted(h) || NoteCleared(h) {
      assert exists i: nat :: i < |h| && Spoils(h[i]) && SinceBegan(h, i);
    }
  }

  /**
   * The four ways a commit comes to be refused, and no other: with no note
   * standing, a failure never noted, a note cleared by an end call that was not
   * answered, a COMMIT whose reply was lost, or a ROLLBACK whose reply was lost.
   */
  lemma RefusalHasFourCauses(ops: seq<Op>)
    ensures var w := Replay(ops).0; var h := History(ops);
            EndedTransaction(w, true, Delivered).1 == Failed
            <==> w.session.held && !Standing(h)
                 && (NeverNoted(h) || NoteCleared(h) || LostAnswer(h, true) || LostAnswer(h, false))
  {
    hide Spoiled, Standing, NeverNoted, NoteCleared, LostAnswer;
    EndTranFreesIff(ops, true);
    if !Standing(History(ops)) {
      SpoilingCauses(History(ops));
    }
  }

  /** A run that holds one write in an open transaction. */
  function Opened(): seq<Op> {
    [SetAutocommit(false, Delivered), Exec(Succeeds([1]), Delivered, Delivered)]
  }

  lemma OpenedHolds()
    ensures Replay(Opened()).0 == World(false, false, 0, Replay(Opened()).0.session)
    ensures var s := Replay(Opened()).0.session;
            s.held && s.server == Server([], Active([Entry(1, true, 1)]), 0, 1)
  {
    var ops := Opened();
    assert ops[..1][..0] == [];
    assert Replay(ops[..1]).0 == World(false, false, 0, FRESH_SESSION);
    assert [] + Tag([1], true, 1) == [Entry(1, true, 1)];
  }

  /** The run after one more call. */
  lemma OneMore(ops: seq<Op>, op: Op)
    ensures Replay(ops + [op]).0 == Step(Replay(ops).0, op).0
  {
    assert (ops + [op])[..|ops|] == ops;
  }

  /** A PREPARE that fails inside a transaction is never noted: the next commit is refused. */
  lemma UnnotedAbortRefusesCommit()
    ensures var w := Replay(Opened() + [Prepare(false, Delivered)]).0;
            && !w.aborted && w.session.server.open == Aborted
            && EndedTransaction(w, true, Delivered).1 == Failed
            && EndedTransaction(w, true, Delivered).0.session.held
  {
    OpenedHolds();
    OneMore(Opened(), Prepare(false, Delivered));
  }

  /** A failure that was noted, and a commit that never arrived but cleared the note. */
  lemma LostEndRefusesCommit()
    ensures var failed := Opened() + [Exec(Fails, Delivered, Delivered)];
            var w := Replay(failed + [EndTran(true, RequestLost)]).0;
            && Replay(failed).0.aborted
            && !w.aborted && w.session.server.open == Aborted
            && EndedTransaction(w, true, Delivered).1 == Failed
            && EndedTransaction(w, true, Delivered).0.session.held
  {
    OpenedHolds();
    var failed := Opened() + [Exec(Fails, Delivered, Delivered)];
    OneMore(Opened(), Exec(Fails, Delivered, Delivered));
    OneMore(failed, EndTran(true, RequestLost));
  }

  /** A commit or a rollback that did its work unheard: the next commit is refused, with the write in or not. */
  lemma LostAnswerRefusesCommit(commit: bool)
    ensures var w := Replay(Opened() + [EndTran(commit, ReplyLost)]).0;
            && Names(w.session.server.published) == (if commit then [1] else [])
            && EndedTransaction(w, true, Delivered).1 == Failed
            && EndedTransaction(w, true, Delivered).0.session.held
  {
    OpenedHolds();
    OneMore(Opened(), EndTran(commit, ReplyLost));
  }
}
