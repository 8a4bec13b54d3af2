/**
 * What holds over every run of a connection: the application's picture of the
 * database, built only from its own calls and their outcomes, against what the
 * coordinator really published.
 */
module TransactionRuns {
  import opened Coordinator
  import opened Connection
  import Flags = TransactionFlags

  /**
   * One call, with what the environment does during it. `CatalogQuery` notes a
   * failure and `Prepare` does not, as in the driver; `PageFailure` is an error
   * met while reading pages, which the server may or may not have caused and
   * the driver may or may not note (a drain does not).
   */
  datatype Op =
    | Exec(work: Work, beginWire: Wire, wire: Wire)
    | CatalogQuery(works: bool, wire: Wire)
    | Prepare(works: bool, wire: Wire)
    | PageFailure(failed: bool, noted: bool)
    | EndTran(commit: bool, wire: Wire)
    | SetAutocommit(enabled: bool, wire: Wire)

  function Probe(works: bool): Work {
    if works then Succeeds([]) else Fails
  }

  function Step(w: World, op: Op): (World, Outcome) {
    match op
    case Exec(work, beginWire, wire) => Executed(w, work, beginWire, wire)
    case CatalogQuery(works, wire) =>
      var (after, ok) := Submitted(w, Probe(works), wire);
      (after, if ok then Success else Failed)
    case Prepare(works, wire) =>
      var (session, ok) := Exchange(w.session, Run(Probe(works)), wire);
      (w.(session := session), if ok then Success else Failed)
    case PageFailure(failed, noted) =>
      var after := w.(session := if failed then FailQuery(w.session) else w.session);
      (if noted then WithError(after) else after, Failed)
    case EndTran(commit, wire) => EndedTransaction(w, commit, wire)
    case SetAutocommit(enabled, wire) => SwitchedMode(w, enabled, wire)
  }

  /** What the application may conclude: the writes it was told are in, and those it awaits. */
  datatype Application = Application(autocommit: bool, believed: seq<Write>, pending: seq<Write>)

  const FRESH_APPLICATION := Application(true, [], [])

  function Settle(app: Application, commit: bool, outcome: Outcome): Application {
    match outcome
    case Success => app.(believed := if commit then app.believed + app.pending else app.believed, pending := [])
    case RolledBack => app.(pending := [])
    case Failed => app
  }

  function Observe(app: Application, op: Op, outcome: Outcome): Application {
    match op
    case Exec(Succeeds(writes), _, _) =>
      if outcome != Success then app
      else if app.autocommit then app.(believed := app.believed + writes)
      else app.(pending := app.pending + writes)
    case EndTran(commit, _) => Settle(app, commit, outcome)
    case SetAutocommit(true, _) => Settle(app, true, outcome).(autocommit := true)
    case SetAutocommit(false, _) => app.(autocommit := false)
    case _ => app
  }

  /** The world and the application's picture after a whole run from a new connection. */
  function Replay(ops: seq<Op>): (World, Application) {
    if ops == [] then (FRESH_WORLD, FRESH_APPLICATION)
    else
      var (w, app) := Replay(ops[..|ops| - 1]);
      var op := ops[|ops| - 1];
      var (after, outcome) := Step(w, op);
      (after, Observe(app, op, outcome))
  }

  // ----- entries and their tags

  function Names(entries: seq<Entry>): (names: seq<Write>)
    ensures |names| == |entries|
  {
    if entries == [] then [] else Names(entries[..|entries| - 1]) + [entries[|entries| - 1].write]
  }

  function AckedWrites(entries: seq<Entry>): seq<Write> {
    if entries == [] then []
    else
      var last := entries[|entries| - 1];
      AckedWrites(entries[..|entries| - 1]) + (if last.acked then [last.write] else [])
  }

  predicate AllAcked(entries: seq<Entry>) {
    forall i :: 0 <= i < |entries| ==> entries[i].acked
  }

  lemma {:induction false} AckedConcat(a: seq<Entry>, b: seq<Entry>)
    ensures AckedWrites(a + b) == AckedWrites(a) + AckedWrites(b)
  {
    if b == [] {
      assert a + b == a;
    } else {
      assert (a + b)[..|a + b| - 1] == a + b[..|b| - 1];
      AckedConcat(a, b[..|b| - 1]);
    }
  }

  lemma {:induction false} AckedOfTagged(writes: seq<Write>, acked: bool, txn: nat)
    ensures AckedWrites(Tag(writes, acked, txn)) == if acked then writes else []
  {
    if writes != [] {
      var prefix := writes[..|writes| - 1];
      assert Tag(writes, acked, txn)[..|writes| - 1] == Tag(prefix, acked, txn);
      AckedOfTagged(prefix, acked, txn);
      assert prefix + [writes[|writes| - 1]] == writes;
    }
  }

  lemma {:induction false} AckedOfUnacked(entries: seq<Entry>)
    ensures AckedWrites(Unacked(entries)) == []
  {
    if entries != [] {
      assert Unacked(entries)[..|entries| - 1] == Unacked(entries[..|entries| - 1]);
      AckedOfUnacked(entries[..|entries| - 1]);
    }
  }

  /** The acknowledged writes are all the writes exactly when no reply about one was lost. */
  lemma {:induction false} AckedIsAllIff(entries: seq<Entry>)
    ensures |AckedWrites(entries)| <= |entries|
    ensures AckedWrites(entries) == Names(entries) <==> AllAcked(entries)
    ensures |AckedWrites(entries)| == |entries| <==> AllAcked(entries)
  {
    if entries != [] {
      AckedIsAllIff(entries[..|entries| - 1]);
      assert AllAcked(entries) <==> AllAcked(entries[..|entries| - 1]) && entries[|entries| - 1].acked;
      if AckedWrites(entries) == Names(entries) {
        assert |AckedWrites(entries)| == |entries|;
      }
    }
  }

  // ----- the picture is right

  /** What ties the application's picture to the coordinator's state. */
  ghost predicate Consistent(w: World, app: Application) {
    && app.autocommit == w.autocommit
    && app.believed == AckedWrites(w.session.server.published)
    && (!w.session.held ==> w.session.server.open == NoTransaction && app.pending == [])
    && (w.session.server.open.Active? ==> app.pending == AckedWrites(w.session.server.open.writes))
  }

  /** The one call after which the picture can go wrong: autocommit with an id still held. */
  predicate Guarded(w: World, op: Op) {
    op.Exec? && w.autocommit ==> !w.session.held
  }

  lemma RunStep(s: Session, app: Application, work: Work, wire: Wire, autocommit: bool)
    requires s.held ==> !autocommit
    requires !s.held ==> autocommit && s.server.open == NoTransaction && app.pending == []
    requires app.believed == AckedWrites(s.server.published)
    requires s.server.open.Active? ==> app.pending == AckedWrites(s.server.open.writes)
    ensures var (after, ok) := Exchange(s, Run(work), wire);
            && after.held == s.held
            && (!after.held ==> after.server.open == NoTransaction)
            && (after.server.open.Active? ==> s.server.open.Active?)
            && AckedWrites(after.server.published)
               == app.believed + (if ok && work.Succeeds? && autocommit then work.writes else [])
            && (after.server.open.Active? ==>
                AckedWrites(after.server.open.writes)
                == app.pending + (if ok && work.Succeeds? then work.writes else []))
  {
    if work.Succeeds? {
      AckedOfTagged(work.writes, wire.Delivered?, 0);
      AckedOfTagged(work.writes, wire.Delivered?, s.server.begun);
      AckedConcat(s.server.published, Tag(work.writes, wire.Delivered?, 0));
      if s.server.open.Active? {
        AckedConcat(s.server.open.writes, Tag(work.writes, wire.Delivered?, s.server.begun));
      }
    }
  }

  lemma ExecStep(w: World, app: Application, op: Op)
    requires op.Exec? && Consistent(w, app) && Guarded(w, op)
    ensures var (after, outcome) := Step(w, op); Consistent(after, Observe(app, op, outcome))
  {
    var (ready, begun) := EnsuredTransaction(w, op.beginWire);
    assert Consistent(ready, app);
    if begun {
      RunStep(ready.session, app, op.work, op.wire, w.autocommit);
    }
  }

  lemma SettleStep(w: World, app: Application, commit: bool, wire: Wire)
    requires Consistent(w, app)
    ensures var (after, outcome) := EndedTransaction(w, commit, wire);
            && Consistent(after, Settle(app, commit, outcome))
            && (outcome == RolledBack ==> after.session.server.published == w.session.server.published)
            && (outcome != Failed ==> after.session.server.open == NoTransaction && !after.session.held)
  {
    var open := w.session.server.open;
    if w.session.held && open.Active? {
      AckedConcat(w.session.server.published, open.writes);
      AckedConcat(w.session.server.published, Unacked(open.writes));
      AckedOfUnacked(open.writes);
    }
  }

  lemma ProbeStep(w: World, app: Application, op: Op)
    requires op.CatalogQuery? || op.Prepare?
    requires Consistent(w, app)
    ensures var (after, outcome) := Step(w, op); Consistent(after, Observe(app, op, outcome))
  {
    hide Exchange;
    match op
    case CatalogQuery(works, wire) => ProbeOnlyAborts(w.session, works, wire);
    case Prepare(works, wire) => ProbeOnlyAborts(w.session, works, wire);
  }

  /** A statement without writes changes nothing, unless it fails and aborts what is open. */
  lemma ProbeOnlyAborts(s: Session, works: bool, wire: Wire)
    ensures var (after, ok) := Exchange(s, Run(Probe(works)), wire);
            && after.held == s.held && after.server.published == s.server.published
            && (after.server.open == s.server.open || (s.held && after.server.open.Aborted?))
  {
    var server := s.server;
    assert forall acked, txn :: Tag([], acked, txn) == [];
    assert server.published + [] == server.published;
    if server.open.Active? {
      assert server.open.writes + [] == server.open.writes;
    }
  }

  lemma StepKeepsConsistent(w: World, app: Application, op: Op)
    requires Consistent(w, app) && Guarded(w, op)
    ensures var (after, outcome) := Step(w, op); Consistent(after, Observe(app, op, outcome))
  {
    match op
    case Exec(_, _, _) => ExecStep(w, app, op);
    case CatalogQuery(_, _) => ProbeStep(w, app, op);
    case Prepare(_, _) => ProbeStep(w, app, op);
    case PageFailure(_, _) =>
    case EndTran(commit, wire) => SettleStep(w, app, commit, wire);
    case SetAutocommit(enabled, wire) => SettleStep(w, app, true, wire);
  }

  ghost predicate GuardedRun(ops: seq<Op>) {
    forall i :: 0 <= i < |ops| ==> Guarded(Replay(ops[..i]).0, ops[i])
  }

  lemma GuardedPrefix(ops: seq<Op>)
    requires ops != [] && GuardedRun(ops)
    ensures GuardedRun(ops[..|ops| - 1])
  {
    var prefix := ops[..|ops| - 1];
    assert forall i :: 0 <= i < |prefix| ==> prefix[..i] == ops[..i];
    forall i | 0 <= i < |prefix|
      ensures Guarded(Replay(prefix[..i]).0, prefix[i])
    {
      assert Guarded(Replay(ops[..i]).0, ops[i]);
    }
  }

  lemma {:induction false} RunIsConsistent(ops: seq<Op>)
    requires GuardedRun(ops)
    ensures var (w, app) := Replay(ops); Consistent(w, app)
  {
    if ops != [] {
      GuardedPrefix(ops);
      RunIsConsistent(ops[..|ops| - 1]);
      var (w, app) := Replay(ops[..|ops| - 1]);
      StepKeepsConsistent(w, app, ops[|ops| - 1]);
    }
  }

  /**
   * Reported outcome equals real outcome. In every run that never executes in
   * autocommit mode while an id is held, the application believes exactly the
   * published writes whose replies all arrived, in publication order; so it is
   * right about the whole database iff no reply about a published write was lost.
   */
  lemma BelievedIsPublished(ops: seq<Op>)
    requires GuardedRun(ops)
    ensures var (w, app) := Replay(ops);
            && app.believed == AckedWrites(w.session.server.published)
            && (app.believed == Names(w.session.server.published) <==> AllAcked(w.session.server.published))
  {
    RunIsConsistent(ops);
    AckedIsAllIff(Replay(ops).0.session.server.published);
  }

  // ----- losing no reply, and losing one

  predicate LosesNoReply(op: Op) {
    match op
    case Exec(_, beginWire, wire) => beginWire != ReplyLost && wire != ReplyLost
    case PageFailure(_, _) => true
    case _ => op.wire != ReplyLost
  }

  ghost predicate EverythingTold(w: World) {
    && AllAcked(w.session.server.published)
    && (w.session.server.open.Active? ==> AllAcked(w.session.server.open.writes))
    && w.session.server.orphans == 0
  }

  lemma ExchangeTold(s: Session, req: Request, wire: Wire)
    requires wire != ReplyLost
    requires AllAcked(s.server.published) && (s.server.open.Active? ==> AllAcked(s.server.open.writes))
    ensures var after := Exchange(s, req, wire).0.server;
            && AllAcked(after.published) && (after.open.Active? ==> AllAcked(after.open.writes))
            && after.orphans == s.server.orphans
  {
  }

  lemma StepTold(w: World, op: Op)
    requires EverythingTold(w) && LosesNoReply(op)
    ensures EverythingTold(Step(w, op).0)
  {
    match op
    case Exec(work, beginWire, wire) =>
      ExchangeTold(w.session, Begin, beginWire);
      ExchangeTold(EnsuredTransaction(w, beginWire).0.session, Run(work), wire);
    case CatalogQuery(works, wire) => ExchangeTold(w.session, Run(Probe(works)), wire);
    case Prepare(works, wire) => ExchangeTold(w.session, Run(Probe(works)), wire);
    case PageFailure(_, _) =>
    case EndTran(_, wire) =>
      ExchangeTold(w.session, Commit, wire);
      ExchangeTold(w.session, Rollback, wire);
    case SetAutocommit(_, wire) =>
      ExchangeTold(w.session, Commit, wire);
      ExchangeTold(w.session, Rollback, wire);
  }

  lemma {:induction false} NoReplyLostMeansAllTold(ops: seq<Op>)
    requires forall i :: 0 <= i < |ops| ==> LosesNoReply(ops[i])
    ensures EverythingTold(Replay(ops).0)
  {
    if ops != [] {
      NoReplyLostMeansAllTold(ops[..|ops| - 1]);
      StepTold(Replay(ops[..|ops| - 1]).0, ops[|ops| - 1]);
    }
  }

  /** What is published stays published, with its tags. */
  lemma StepOnlyPublishes(w: World, op: Op)
    ensures w.session.server.published <= Step(w, op).0.session.server.published
  {
    hide Exchange;
    match op
    case Exec(work, beginWire, wire) =>
      ExchangeOnlyPublishes(w.session, Begin, beginWire);
      ExchangeOnlyPublishes(EnsuredTransaction(w, beginWire).0.session, Run(work), wire);
    case CatalogQuery(works, wire) => ExchangeOnlyPublishes(w.session, Run(Probe(works)), wire);
    case Prepare(works, wire) => ExchangeOnlyPublishes(w.session, Run(Probe(works)), wire);
    case PageFailure(_, _) =>
    case EndTran(_, wire) =>
      ExchangeOnlyPublishes(w.session, Commit, wire);
      ExchangeOnlyPublishes(w.session, Rollback, wire);
    case SetAutocommit(_, wire) =>
      ExchangeOnlyPublishes(w.session, Commit, wire);
      ExchangeOnlyPublishes(w.session, Rollback, wire);
  }

  lemma ExchangeOnlyPublishes(s: Session, req: Request, wire: Wire)
    ensures s.server.published <= Exchange(s, req, wire).0.server.published
  {
  }

  lemma {:induction false} RunOnlyPublishes(ops: seq<Op>, n: nat)
    requires n <= |ops|
    ensures Replay(ops[..n]).0.session.server.published <= Replay(ops).0.session.server.published
  {
    if n == |ops| {
      assert ops[..n] == ops;
    } else {
      var prefix := ops[..|ops| - 1];
      assert prefix[..n] == ops[..n];
      RunOnlyPublishes(prefix, n);
      StepOnlyPublishes(Replay(prefix).0, ops[|ops| - 1]);
    }
  }

  /**
   * One lost reply to a request that published something is never forgotten:
   * from there on the application's picture is short of the database for good.
   */
  lemma LostReplyIsPermanent(ops: seq<Op>, n: nat)
    requires n <= |ops| && GuardedRun(ops)
    requires !AllAcked(Replay(ops[..n]).0.session.server.published)
    ensures var (w, app) := Replay(ops);
            app.believed != Names(w.session.server.published)
  {
    RunOnlyPublishes(ops, n);
    BelievedIsPublished(ops);
  }

  // ----- the guard is exact

  /**
   * A statement reported successful in autocommit mode has published its
   * writes iff no transaction id was held when it ran.
   */
  lemma AutocommitPublishesIffNothingHeld(w: World, app: Application, op: Op)
    requires Consistent(w, app) && w.autocommit
    requires op.Exec? && op.work.Succeeds? && op.work.writes != []
    requires Step(w, op).1 == Success
    ensures var (after, outcome) := Step(w, op);
            Observe(app, op, outcome).believed == AckedWrites(after.session.server.published)
            <==> !w.session.held
  {
    if w.session.held {
      assert Step(w, op).0.session.server.published == w.session.server.published;
      assert |Observe(app, op, Success).believed| == |app.believed| + |op.work.writes|;
    } else {
      ExecStep(w, app, op);
    }
  }

  /**
   * The guard is needed: when the commit a mode switch sends is lost, the mode
   * is recorded as autocommit while the id stays held. The next statement is
   * reported successful, is published by nothing, and disconnecting discards it.
   */
  lemma LostCommitStrandsAutocommit()
    ensures var ops := [SetAutocommit(false, Delivered),
                        Exec(Succeeds([1]), Delivered, Delivered),
                        SetAutocommit(true, RequestLost),
                        Exec(Succeeds([2]), Delivered, Delivered)];
            var (w, app) := Replay(ops);
            && app.believed == [2]
            && w.session.server.published == []
            && Disconnected(w, Delivered).session.server == Server([], NoTransaction, 0, 1)
  {
    var ops := [SetAutocommit(false, Delivered),
                Exec(Succeeds([1]), Delivered, Delivered),
                SetAutocommit(true, RequestLost),
                Exec(Succeeds([2]), Delivered, Delivered)];
    assert ops[..3] == ops[..3][..3] && ops[..3][..2] == ops[..2] && ops[..2][..1] == ops[..1] && ops[..1][..0] == [];
    assert Replay([]) == (FRESH_WORLD, FRESH_APPLICATION);
    assert Replay(ops[..1]).0 == World(false, false, 0, FRESH_SESSION);
    var (w2, app2) := Replay(ops[..2]);
    assert w2.session.server.open == Active([Entry(1, true, 1)]) && app2.pending == [1];
    var (w3, app3) := Replay(ops[..3]);
    assert w3.autocommit && w3.session.held && app3.autocommit;
    assert Tag([2], true, 1) == [Entry(2, true, 1)];
  }

  // ----- the abort flag against the server, when every abort is noted

  predicate NotedOp(w: World, op: Op) {
    match op
    case Exec(_, beginWire, wire) => beginWire == Delivered && wire == Delivered
    case CatalogQuery(_, wire) => wire == Delivered
    case Prepare(works, wire) => wire == Delivered && (works || !w.session.held)
    case PageFailure(failed, noted) => failed == noted
    case EndTran(_, wire) => wire == Delivered
    case SetAutocommit(_, wire) => wire == Delivered
  }

  ghost predicate NotedRun(ops: seq<Op>) {
    forall i :: 0 <= i < |ops| ==> NotedOp(Replay(ops[..i]).0, ops[i])
  }

  ghost predicate FlagTellsAbort(w: World) {
    && (w.session.held <==> w.session.server.open != NoTransaction)
    && (w.session.held && w.aborted <==> w.session.server.open.Aborted?)
    && (w.autocommit ==> !w.session.held)
  }

  lemma StepKeepsFlag(w: World, op: Op)
    requires FlagTellsAbort(w) && NotedOp(w, op)
    ensures FlagTellsAbort(Step(w, op).0)
  {
  }

  /**
   * When no round trip is lost and every server-side abort is noted, the flag
   * of an open transaction says exactly whether the server has aborted it.
   */
  lemma {:induction false} FlagIsExact(ops: seq<Op>)
    requires NotedRun(ops)
    ensures FlagTellsAbort(Replay(ops).0)
  {
    if ops != [] {
      var prefix := ops[..|ops| - 1];
      assert forall i :: 0 <= i < |prefix| ==> prefix[..i] == ops[..i];
      forall i | 0 <= i < |prefix|
        ensures NotedOp(Replay(prefix[..i]).0, prefix[i])
      {
        assert NotedOp(Replay(ops[..i]).0, ops[i]);
      }
      FlagIsExact(prefix);
      StepKeepsFlag(Replay(prefix).0, ops[|ops| - 1]);
    }
  }

  /**
   * Then ending a transaction always frees the session, a commit is answered
   * 25S03 exactly when the server had aborted, and what is opened next is
   * never born aborted.
   */
  lemma NotedEndTranFrees(ops: seq<Op>, commit: bool)
    requires NotedRun(ops)
    ensures var w := Replay(ops).0;
            var (after, outcome) := EndedTransaction(w, commit, Delivered);
            && !after.session.held && after.session.server.open == NoTransaction && !after.aborted
            && outcome != Failed
            && (outcome == RolledBack <==> commit && w.session.server.open.Aborted?)
            && (outcome == Success && commit && w.session.held ==>
                after.session.server.published == w.session.server.published + w.session.server.open.writes)
    ensures var (next, ok) := EnsuredTransaction(Replay(ops).0.(autocommit := false), Delivered);
            ok && (next.aborted <==> next.session.server.open.Aborted?)
  {
    FlagIsExact(ops);
  }

  // ----- what holds over every run, whatever is lost and whatever is not noted

  predicate WellSent(sent: Sent) {
    match sent.request
    case Begin => sent.txn == 0
    case Commit | Rollback => sent.txn != 0
    case Run(_) => true
  }

  ghost predicate SessionSound(s: Session) {
    && (s.server.open != NoTransaction ==> s.held)
    && (s.held ==> s.server.begun > 0)
    && forall i :: 0 <= i < |s.sent| ==> WellSent(s.sent[i])
  }

  lemma ExchangeKeepsSound(s: Session, req: Request, wire: Wire)
    requires SessionSound(s) && WellSent(Sent(req, Named(s), Granted(s, req, wire), wire))
    ensures SessionSound(Exchange(s, req, wire).0)
  {
  }

  lemma StepKeepsSound(w: World, op: Op)
    requires SessionSound(w.session)
    ensures SessionSound(Step(w, op).0.session)
  {
    match op
    case Exec(work, beginWire, wire) =>
      var ready := EnsuredTransaction(w, beginWire).0;
      if !w.autocommit && !w.session.held {
        ExchangeKeepsSound(w.session, Begin, beginWire);
      }
      ExchangeKeepsSound(ready.session, Run(work), wire);
    case CatalogQuery(works, wire) => ExchangeKeepsSound(w.session, Run(Probe(works)), wire);
    case Prepare(works, wire) => ExchangeKeepsSound(w.session, Run(Probe(works)), wire);
    case PageFailure(_, _) =>
    case EndTran(_, wire) => EndKeepsSound(w, wire);
    case SetAutocommit(_, wire) => EndKeepsSound(w, wire);
  }

  lemma EndKeepsSound(w: World, wire: Wire)
    requires SessionSound(w.session)
    ensures forall commit :: SessionSound(EndedTransaction(w, commit, wire).0.session)
  {
    if w.session.held {
      ExchangeKeepsSound(w.session, Commit, wire);
      ExchangeKeepsSound(w.session, Rollback, wire);
    }
  }

  /**
   * No START TRANSACTION is ever sent while an id is held, no COMMIT or
   * ROLLBACK while none is, and a transaction the driver can name is never
   * forgotten, over every run and whatever the network does.
   */
  lemma {:induction false} NeverNested(ops: seq<Op>)
    ensures SessionSound(Replay(ops).0.session)
  {
    if ops != [] {
      NeverNested(ops[..|ops| - 1]);
      StepKeepsSound(Replay(ops[..|ops| - 1]).0, ops[|ops| - 1]);
    }
  }

  /**
   * Disconnecting with a working link leaves nothing open that can be named,
   * even after a refused COMMIT; and nothing at all unless a reply was lost.
   */
  lemma DisconnectLeavesNothingOpen(ops: seq<Op>)
    ensures var after := Disconnected(Replay(ops).0, Delivered).session;
            !after.held && after.server.open == NoTransaction
    ensures (forall i :: 0 <= i < |ops| ==> LosesNoReply(ops[i])) ==>
              Disconnected(Replay(ops).0, Delivered).session.server.orphans == 0
  {
    NeverNested(ops);
    if forall i :: 0 <= i < |ops| ==> LosesNoReply(ops[i]) {
      NoReplyLostMeansAllTold(ops);
    }
  }

  // ----- the epoch

  /** How many COMMITs and ROLLBACKs have been sent, granted or not. */
  function EndsSent(sent: seq<Sent>): nat {
    if sent == [] then 0
    else EndsSent(sent[..|sent| - 1]) + (if sent[|sent| - 1].request in {Commit, Rollback} then 1 else 0)
  }

  lemma SendingCounts(s: Session, req: Request, wire: Wire)
    ensures var after := Exchange(s, req, wire).0;
            EndsSent(after.sent) == EndsSent(s.sent) + (if req in {Commit, Rollback} then 1 else 0)
  {
    var sent := Exchange(s, req, wire).0.sent;
    assert sent[..|s.sent|] == s.sent;
  }

  ghost predicate EpochCounts(w: World) {
    w.epoch == EndsSent(w.session.sent) % Flags.EPOCH_RANGE
  }

  lemma NextCount(n: nat)
    ensures (n % Flags.EPOCH_RANGE + 1) % Flags.EPOCH_RANGE == (n + 1) % Flags.EPOCH_RANGE
  {
  }

  lemma EndingCounts(w: World, commit: bool, wire: Wire)
    requires EpochCounts(w)
    ensures EpochCounts(EndedTransaction(w, commit, wire).0)
  {
    hide EndsSent, Exchange;
    SendingCounts(w.session, Commit, wire);
    SendingCounts(w.session, Rollback, wire);
    NextCount(EndsSent(w.session.sent));
  }

  lemma StepCounts(w: World, op: Op)
    requires EpochCounts(w)
    ensures EpochCounts(Step(w, op).0)
  {
    hide EndsSent, Exchange;
    match op
    case Exec(work, beginWire, wire) =>
      SendingCounts(w.session, Begin, beginWire);
      SendingCounts(EnsuredTransaction(w, beginWire).0.session, Run(work), wire);
    case CatalogQuery(works, wire) => SendingCounts(w.session, Run(Probe(works)), wire);
    case Prepare(works, wire) => SendingCounts(w.session, Run(Probe(works)), wire);
    case PageFailure(_, _) =>
    case EndTran(commit, wire) => EndingCounts(w, commit, wire);
    case SetAutocommit(_, wire) => EndingCounts(w, true, wire);
  }

  /**
   * Over every run the epoch is the number of COMMITs and ROLLBACKs sent,
   * modulo 2^64: it moves exactly when an end goes out for a transaction,
   * whatever becomes of it.
   */
  lemma {:induction false} EpochCountsEnds(ops: seq<Op>)
    ensures Replay(ops).0.epoch == EndsSent(Replay(ops).0.session.sent) % Flags.EPOCH_RANGE
  {
    if ops != [] {
      EpochCountsEnds(ops[..|ops| - 1]);
      StepCounts(Replay(ops[..|ops| - 1]).0, ops[|ops| - 1]);
    }
  }
}
