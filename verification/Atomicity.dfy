/**
 * Transactions are published whole or not at all, over every run: what the
 * database holds of each transaction, against the requests that went over the
 * wire, and what an answer to an end call says about it.
 */
module Atomicity {
  import opened Coordinator
  import opened Connection
  import opened TransactionRuns

  // ----- what the wire log says of one transaction

  function Writes(sent: Sent): seq<Write> {
    if sent.granted && sent.request.Run? && sent.request.work.Succeeds? then sent.request.work.writes else []
  }

  /** Everything transaction `k` wrote, told to the application or not. */
  function WrittenBy(log: seq<Sent>, k: nat): seq<Write> {
    if log == [] then []
    else WrittenBy(log[..|log| - 1], k) + (if log[|log| - 1].txn == k then Writes(log[|log| - 1]) else [])
  }

  predicate IsCommitOf(sent: Sent, k: nat) {
    sent.request.Commit? && sent.granted && sent.txn == k
  }

  /** A COMMIT of transaction `k` was granted. */
  predicate CommitGranted(log: seq<Sent>, k: nat) {
    exists i :: 0 <= i < |log| && IsCommitOf(log[i], k)
  }

  /** A COMMIT of transaction `k` was granted and the driver never heard so. */
  predicate CommitReplyLost(log: seq<Sent>, k: nat) {
    exists i :: 0 <= i < |log| && IsCommitOf(log[i], k) && log[i].wire.ReplyLost?
  }

  lemma LogGrows(log: seq<Sent>, last: Sent, k: nat)
    ensures WrittenBy(log + [last], k) == WrittenBy(log, k) + (if last.txn == k then Writes(last) else [])
    ensures CommitGranted(log + [last], k) <==> CommitGranted(log, k) || IsCommitOf(last, k)
    ensures CommitReplyLost(log + [last], k)
       <==> CommitReplyLost(log, k) || (IsCommitOf(last, k) && last.wire.ReplyLost?)
  {
    var longer := log + [last];
    assert longer[..|log|] == log && longer[|log|] == last;
    assert forall i :: 0 <= i < |log| ==> longer[i] == log[i];
  }

  // ----- what the database holds of one transaction

  function PublishedOf(entries: seq<Entry>, k: nat): seq<Write> {
    if entries == [] then []
    else
      var last := entries[|entries| - 1];
      PublishedOf(entries[..|entries| - 1], k) + (if last.txn == k then [last.write] else [])
  }

  lemma {:induction false} PublishedConcat(a: seq<Entry>, b: seq<Entry>, k: nat)
    ensures PublishedOf(a + b, k) == PublishedOf(a, k) + PublishedOf(b, k)
  {
    if b == [] {
      assert a + b == a;
    } else {
      assert (a + b)[..|a + b| - 1] == a + b[..|b| - 1];
      PublishedConcat(a, b[..|b| - 1], k);
    }
  }

  lemma {:induction false} PublishedOfOne(entries: seq<Entry>, k: nat, txn: nat)
    requires forall e :: e in entries ==> e.txn == txn
    ensures PublishedOf(entries, k) == if k == txn then Names(entries) else []
    ensures Names(Unacked(entries)) == Names(entries)
  {
    if entries != [] {
      var front := entries[..|entries| - 1];
      PublishedOfOne(front, k, txn);
      assert Unacked(entries)[..|entries| - 1] == Unacked(front);
    }
  }

  lemma {:induction false} NamesConcat(a: seq<Entry>, b: seq<Entry>)
    ensures Names(a + b) == Names(a) + Names(b)
  {
    if b == [] {
      assert a + b == a;
    } else {
      assert (a + b)[..|a + b| - 1] == a + b[..|b| - 1];
      NamesConcat(a, b[..|b| - 1]);
    }
  }

  lemma {:induction false} NamesOfTag(writes: seq<Write>, acked: bool, txn: nat)
    ensures Names(Tag(writes, acked, txn)) == writes
  {
    if writes != [] {
      var front := writes[..|writes| - 1];
      assert Tag(writes, acked, txn)[..|writes| - 1] == Tag(front, acked, txn);
      NamesOfTag(front, acked, txn);
    }
  }

  // ----- the invariant

  ghost predicate AtomicFor(s: Session, k: nat) {
    && PublishedOf(s.server.published, k) == (if CommitGranted(s.sent, k) then WrittenBy(s.sent, k) else [])
    && (k > s.server.begun ==> WrittenBy(s.sent, k) == [] && !CommitGranted(s.sent, k))
    && (k == s.server.begun && s.server.open.Active? ==>
          && !CommitGranted(s.sent, k)
          && Names(s.server.open.writes) == WrittenBy(s.sent, k))
    && (s.server.open.Active? ==> forall e :: e in s.server.open.writes ==> e.txn == s.server.begun)
    && (k == s.server.begun && s.held && CommitGranted(s.sent, k) ==> CommitReplyLost(s.sent, k))
  }

  lemma RunKeepsAtomic(s: Session, work: Work, wire: Wire, k: nat)
    requires SessionSound(s) && k > 0 && AtomicFor(s, k)
    ensures AtomicFor(Exchange(s, Run(work), wire).0, k)
  {
    hide CommitGranted, CommitReplyLost, WellSent;
    var req := Run(work);
    LogGrows(s.sent, Sent(req, Named(s), Granted(s, req, wire), wire), k);
    if work.Succeeds? && wire != RequestLost {
      if s.held {
        JoinsTransaction(s, work.writes, wire, k);
      } else {
        PublishesAtOnce(s, work.writes, wire, k);
      }
    }
  }

  lemma PublishesAtOnce(s: Session, writes: seq<Write>, wire: Wire, k: nat)
    requires SessionSound(s) && k > 0 && AtomicFor(s, k) && !s.held && wire != RequestLost
    ensures AtomicFor(Exchange(s, Run(Succeeds(writes)), wire).0, k)
  {
    hide CommitGranted, CommitReplyLost, WrittenBy, PublishedOf, WellSent;
    var req := Run(Succeeds(writes));
    LogGrows(s.sent, Sent(req, 0, true, wire), k);
    var more := Tag(writes, wire.Delivered?, 0);
    PublishedOfOne(more, k, 0);
    PublishedConcat(s.server.published, more, k);
  }

  lemma JoinsTransaction(s: Session, writes: seq<Write>, wire: Wire, k: nat)
    requires SessionSound(s) && k > 0 && AtomicFor(s, k) && s.held && wire != RequestLost
    ensures AtomicFor(Exchange(s, Run(Succeeds(writes)), wire).0, k)
  {
    hide CommitGranted, CommitReplyLost, WrittenBy, PublishedOf, Names, WellSent;
    var req := Run(Succeeds(writes));
    var txn := s.server.begun;
    LogGrows(s.sent, Sent(req, txn, s.server.open.Active?, wire), k);
    if s.server.open.Active? {
      var more := Tag(writes, wire.Delivered?, txn);
      NamesOfTag(writes, wire.Delivered?, txn);
      NamesConcat(s.server.open.writes, more);
    }
  }

  lemma ControlKeepsAtomic(s: Session, req: Request, wire: Wire, k: nat)
    requires SessionSound(s) && k > 0 && AtomicFor(s, k)
    requires req.Begin? || req.Commit? || req.Rollback?
    requires req.Begin? <==> !s.held
    ensures AtomicFor(Exchange(s, req, wire).0, k)
  {
    hide CommitGranted, CommitReplyLost, WrittenBy, PublishedOf, Names, WellSent;
    LogGrows(s.sent, Sent(req, Named(s), Granted(s, req, wire), wire), k);
    if req.Commit? && s.server.open.Active? {
      var writes := s.server.open.writes;
      var txn := s.server.begun;
      PublishedConcat(s.server.published, writes, k);
      PublishedConcat(s.server.published, Unacked(writes), k);
      PublishedOfOne(writes, k, txn);
      PublishedOfOne(Unacked(writes), k, txn);
    }
  }

  lemma StepKeepsAtomic(w: World, op: Op, k: nat)
    requires SessionSound(w.session) && k > 0 && AtomicFor(w.session, k)
    ensures AtomicFor(Step(w, op).0.session, k)
  {
    hide AtomicFor, WellSent;
    match op
    case Exec(work, beginWire, wire) =>
      var ready := EnsuredTransaction(w, beginWire).0;
      if !w.autocommit && !w.session.held {
        ControlKeepsAtomic(w.session, Begin, beginWire, k);
        ExchangeKeepsSound(w.session, Begin, beginWire);
      }
      RunKeepsAtomic(ready.session, work, wire, k);
    case CatalogQuery(works, wire) => RunKeepsAtomic(w.session, Probe(works), wire, k);
    case Prepare(works, wire) => RunKeepsAtomic(w.session, Probe(works), wire, k);
    case PageFailure(_, _) => FailureKeepsAtomic(w.session, k);
    case EndTran(_, wire) => EndKeepsAtomic(w, wire, k);
    case SetAutocommit(_, wire) => EndKeepsAtomic(w, wire, k);
  }

  lemma FailureKeepsAtomic(s: Session, k: nat)
    requires AtomicFor(s, k)
    ensures AtomicFor(FailQuery(s), k)
  {
  }

  lemma EndKeepsAtomic(w: World, wire: Wire, k: nat)
    requires SessionSound(w.session) && k > 0 && AtomicFor(w.session, k)
    ensures forall commit :: AtomicFor(EndedTransaction(w, commit, wire).0.session, k)
  {
    hide AtomicFor, WellSent;
    if w.session.held {
      ControlKeepsAtomic(w.session, Commit, wire, k);
      ControlKeepsAtomic(w.session, Rollback, wire, k);
    }
  }

  lemma {:induction false} RunIsAtomic(ops: seq<Op>, k: nat)
    requires k > 0
    ensures AtomicFor(Replay(ops).0.session, k)
  {
    if ops != [] {
      RunIsAtomic(ops[..|ops| - 1], k);
      NeverNested(ops[..|ops| - 1]);
      hide AtomicFor, SessionSound;
      StepKeepsAtomic(Replay(ops[..|ops| - 1]).0, ops[|ops| - 1], k);
    }
  }

  // ----- what follows

  /**
   * Every transaction is published whole or not at all: over every run the
   * database holds exactly what it wrote, in order, iff a COMMIT of it was
   * granted, and nothing of it otherwise.
   */
  lemma WholeOrNotAtAll(ops: seq<Op>, k: nat)
    requires k > 0
    ensures var s := Replay(ops).0.session;
            PublishedOf(s.server.published, k) == if CommitGranted(s.sent, k) then WrittenBy(s.sent, k) else []
  {
    RunIsAtomic(ops, k);
  }

  /** An end call that was answered as a rollback: 25S03, or a rollback's success. */
  predicate AnsweredAsRollback(commit: bool, outcome: Outcome) {
    outcome == RolledBack || (!commit && outcome == Success)
  }

  /**
   * When an end call over any run is answered as a rollback, the database holds
   * nothing of that transaction, unless an earlier COMMIT of it was granted and
   * its reply lost: then it holds everything the transaction wrote.
   */
  lemma RollbackDiscardsIff(ops: seq<Op>, commit: bool, wire: Wire)
    requires Replay(ops).0.session.held
    requires AnsweredAsRollback(commit, EndedTransaction(Replay(ops).0, commit, wire).1)
    ensures var before := Replay(ops).0.session; var k := before.server.begun;
            var after := EndedTransaction(Replay(ops).0, commit, wire).0.session;
            && !after.held && after.server.open == NoTransaction
            && PublishedOf(after.server.published, k)
               == (if CommitReplyLost(before.sent, k) then WrittenBy(before.sent, k) else [])
            && (PublishedOf(after.server.published, k) == []
                <==> !CommitReplyLost(before.sent, k) || WrittenBy(before.sent, k) == [])
  {
    NeverNested(ops);
    RunIsAtomic(ops, Replay(ops).0.session.server.begun);
    hide PublishedOf, WrittenBy, WellSent;
  }

  /** A call that ends a transaction if one is open. */
  predicate IsEnd(op: Op) {
    op.EndTran? || (op.SetAutocommit? && op.enabled)
  }

  /** Whether the latest end call, if any, answered an error. */
  predicate LastEndFailed(ops: seq<Op>) {
    if ops == [] then false
    else
      var (front, op) := (ops[..|ops| - 1], ops[|ops| - 1]);
      if IsEnd(op) then Step(Replay(front).0, op).1 == Failed else LastEndFailed(front)
  }

  lemma {:induction false} NoFailedEndNoLostCommit(ops: seq<Op>)
    ensures var s := Replay(ops).0.session;
            s.held && !LastEndFailed(ops) ==> !CommitReplyLost(s.sent, s.server.begun)
  {
    hide CommitReplyLost, SessionSound, AtomicFor;
    if ops != [] && !LastEndFailed(ops) {
      var (front, op) := (ops[..|ops| - 1], ops[|ops| - 1]);
      var w := Replay(front).0;
      NoFailedEndNoLostCommit(front);
      NeverNested(front);
      if IsEnd(op) {
        AnsweredEndFrees(w, op);
      } else {
        RunIsAtomic(front, w.session.server.begun + 1);
        OtherCallsSendNoCommit(w, op);
      }
    }
  }

  lemma AnsweredEndFrees(w: World, op: Op)
    requires IsEnd(op) && Step(w, op).1 != Failed
    ensures !Step(w, op).0.session.held
  {
  }

  /** No commit of the transaction held was granted unheard. */
  predicate Clear(s: Session) {
    s.held ==> !CommitReplyLost(s.sent, s.server.begun)
  }

  lemma ExchangeKeepsClear(s: Session, req: Request, wire: Wire)
    requires Clear(s) && !req.Commit? && (req.Begin? ==> !s.held && AtomicFor(s, s.server.begun + 1))
    ensures Clear(Exchange(s, req, wire).0)
  {
    hide CommitReplyLost;
    var sent := Sent(req, Named(s), Granted(s, req, wire), wire);
    LogGrows(s.sent, sent, s.server.begun);
    if req.Begin? {
      LogGrows(s.sent, sent, s.server.begun + 1);
      LostIsGranted(s.sent, s.server.begun + 1);
    }
  }

  lemma LostIsGranted(log: seq<Sent>, k: nat)
    ensures CommitReplyLost(log, k) ==> CommitGranted(log, k)
  {
  }

  lemma OtherCallsSendNoCommit(w: World, op: Op)
    requires !IsEnd(op) && Clear(w.session) && AtomicFor(w.session, w.session.server.begun + 1)
    ensures Clear(Step(w, op).0.session)
  {
    hide CommitReplyLost, AtomicFor;
    match op
    case Exec(work, beginWire, wire) =>
      if !w.autocommit && !w.session.held {
        ExchangeKeepsClear(w.session, Begin, beginWire);
      }
      ExchangeKeepsClear(EnsuredTransaction(w, beginWire).0.session, Run(work), wire);
    case CatalogQuery(works, wire) => ExchangeKeepsClear(w.session, Run(Probe(works)), wire);
    case Prepare(works, wire) => ExchangeKeepsClear(w.session, Run(Probe(works)), wire);
    case PageFailure(_, _) =>
    case SetAutocommit(_, _) =>
  }

  /**
   * So a caller whose previous end call, if any, did not answer an error can
   * take such an answer at its word: nothing of the transaction is published.
   */
  lemma RollbackDiscards(ops: seq<Op>, commit: bool, wire: Wire)
    requires Replay(ops).0.session.held && !LastEndFailed(ops)
    requires AnsweredAsRollback(commit, EndedTransaction(Replay(ops).0, commit, wire).1)
    ensures var k := Replay(ops).0.session.server.begun;
            PublishedOf(EndedTransaction(Replay(ops).0, commit, wire).0.session.server.published, k) == []
  {
    NoFailedEndNoLostCommit(ops);
    RollbackDiscardsIff(ops, commit, wire);
  }

  /**
   * The exception happens: a commit whose reply is lost, a failure noted after
   * it, and the next commit answers 25S03 for writes that are published.
   */
  lemma LostReplyThenRolledBack()
    ensures var ops := [SetAutocommit(false, Delivered),
                        Exec(Succeeds([1]), Delivered, Delivered),
                        EndTran(true, ReplyLost),
                        CatalogQuery(false, Delivered)];
            var (w, app) := Replay(ops);
            var (after, outcome) := EndedTransaction(w, true, Delivered);
            && app.pending == [1] && outcome == RolledBack && Settle(app, true, outcome).pending == []
            && PublishedOf(after.session.server.published, 1) == [1]
  {
    var ops := [SetAutocommit(false, Delivered),
                Exec(Succeeds([1]), Delivered, Delivered),
                EndTran(true, ReplyLost),
                CatalogQuery(false, Delivered)];
    assert ops[..3] == ops[..3][..3] && ops[..3][..2] == ops[..2] && ops[..2][..1] == ops[..1] && ops[..1][..0] == [];
    assert Replay([]) == (FRESH_WORLD, FRESH_APPLICATION);
    assert Replay(ops[..1]).0 == World(false, false, 0, FRESH_SESSION);
    var (w2, app2) := Replay(ops[..2]);
    assert w2.session.server.open == Active([Entry(1, true, 1)]) && app2.pending == [1];
    var (w3, app3) := Replay(ops[..3]);
    assert w3.session.server.published == [Entry(1, false, 1)] && w3.session.held && app3.pending == [1];
    assert [Entry(1, false, 1)][..0] == [];
  }
}
