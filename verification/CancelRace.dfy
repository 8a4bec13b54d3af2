/**
 * Cancelling while another thread executes and fetches, as interleaved steps.
 *
 * One thread runs a statement handle; any number of threads cancel. A step is
 * one access to what they share: the query-id slot, the cancelled flag or the
 * coordinator. Every statement-producing call mints its own cancel token, so
 * tokens are numbered, and a token's query carries the token's number as id.
 */
module CancelRace {
  import opened Wrappers

  type TokenId = nat

  datatype Token = Token(slot: Option<TokenId>, flag: bool)

  /** A canceller between calls, holding an id it took, or about to send its DELETE. */
  datatype Canceller = Ready | Took(token: TokenId) | Stored(token: TokenId)

  /** The statement the handle names: rows still buffered, of which page, and what follows. */
  datatype Statement = Statement(token: TokenId, left: nat, page: nat, more: bool, failed: bool)

  datatype Control =
    | Idle
    | Submitting(token: TokenId)
    | Polling(token: TokenId, page: nat)
    | AtCheck
    | Passed
    | InFlight
    | Draining(token: TokenId)

  /** `Cancelled` is HY008 and `Abandoned` is 24000. */
  datatype Outcome = RowReady | NoData | Cancelled | Abandoned | Failure

  datatype Event =
    | Published(token: TokenId)
    | FlagStored(token: TokenId)
    | Deleted(token: TokenId)
    | FetchBegan(token: TokenId)
    | Requested(token: TokenId)
    | Arrived(token: TokenId)
    | FetchEnded(token: TokenId, outcome: Outcome)
    | CloseBegan(token: TokenId)
    | Drained(token: TokenId)

  datatype State = State(
    tokens: seq<Token>,
    cancellers: seq<Canceller>,
    stmt: Option<Statement>,
    control: Control,
    log: seq<Event>)

  datatype Step =
    | Submit
    | SubmitAnswered(accepted: bool)
    | PollAnswered(described: bool, rows: nat, more: bool)
    | PollFailed
    | BeginFetch
    | Check
    | Proceed
    | PageArrived(rows: nat, more: bool)
    | PageFailed(killed: bool)
    | BeginClose
    | DrainAnswered(more: bool)
    | Take(canceller: nat, token: TokenId)
    | Store(canceller: nat)
    | Delete(canceller: nat)

  function Start(cancellers: nat): State {
    State([], seq(cancellers, _ => Ready), None, Idle, [])
  }

  predicate Enabled(s: State, step: Step) {
    match step
    case Submit => s.control.Idle?
    case SubmitAnswered(_) => s.control.Submitting? && s.control.token < |s.tokens|
    case PollAnswered(_, _, _) => s.control.Polling? && s.control.token < |s.tokens| && Settled(s)
    case PollFailed => s.control.Polling?
    case BeginFetch => s.control.Idle? && s.stmt.Some?
    case Check => s.control.AtCheck? && s.stmt.Some? && s.stmt.value.token < |s.tokens|
    case Proceed => s.control.Passed? && s.stmt.Some?
    case PageArrived(_, _) => s.control.InFlight? && s.stmt.Some?
    case PageFailed(_) => s.control.InFlight? && s.stmt.Some?
    case BeginClose => s.control.Idle? && s.stmt.Some? && Settled(s)
    case DrainAnswered(_) => s.control.Draining?
    case Take(i, t) => i < |s.cancellers| && s.cancellers[i].Ready? && t < |s.tokens|
    case Store(i) => i < |s.cancellers| && s.cancellers[i].Took? && s.cancellers[i].token < |s.tokens|
    case Delete(i) => i < |s.cancellers| && s.cancellers[i].Stored?
  }

  predicate Settled(s: State) {
    s.stmt.Some? ==> s.stmt.value.token < |s.tokens|
  }

  function Discard(stmt: Statement, failed: bool): Statement {
    stmt.(left := 0, more := false, failed := failed)
  }

  function Log(s: State, e: Event): State {
    s.(log := s.log + [e])
  }

  /** Draining what `closed` leaves, unless it has nothing left or was cancelled. */
  function CloseOf(s: State, closed: Statement): State
    requires closed.token < |s.tokens|
  {
    var begun := Log(s, CloseBegan(closed.token));
    if closed.more && !s.tokens[closed.token].flag then begun.(control := Draining(closed.token))
    else begun.(control := Idle)
  }

  function EndFetch(s: State, stmt: Statement, outcome: Outcome): State {
    Log(s, FetchEnded(stmt.token, outcome)).(stmt := Some(stmt), control := Idle)
  }

  function Do(s: State, step: Step): State
    requires Enabled(s, step)
  {
    match step
    case Submit =>
      s.(tokens := s.tokens + [Token(None, false)], control := Submitting(|s.tokens|))
    case SubmitAnswered(accepted) =>
      var t := s.control.token;
      if accepted
      then Log(s, Published(t)).(tokens := s.tokens[t := Token(Some(t), false)], control := Polling(t, 0))
      else s.(control := Idle)
    case PollAnswered(described, rows, more) =>
      var t := s.control.token;
      if described then
        var begun := s.(stmt := Some(Statement(t, rows, s.control.page, more, false)), control := Idle);
        if s.stmt.Some? && s.stmt.value.more then CloseOf(begun, s.stmt.value) else begun
      else if more then s.(control := Polling(t, s.control.page + 1))
      else s.(control := Idle)
    case PollFailed => s.(control := Idle)
    case BeginFetch =>
      var stmt := s.stmt.value;
      var begun := Log(s, FetchBegan(stmt.token));
      if stmt.failed then EndFetch(begun, stmt, Abandoned) else begun.(control := AtCheck)
    case Check =>
      var stmt := s.stmt.value;
      if s.tokens[stmt.token].flag then EndFetch(s, Discard(stmt, stmt.failed), Cancelled)
      else s.(control := Passed)
    case Proceed =>
      var stmt := s.stmt.value;
      if stmt.left > 0 then EndFetch(s, stmt.(left := stmt.left - 1), RowReady)
      else if !stmt.more then EndFetch(s, stmt, NoData)
      else Log(s, Requested(stmt.token)).(stmt := Some(stmt.(more := false)), control := InFlight)
    case PageArrived(rows, more) =>
      var stmt := s.stmt.value;
      Log(s, Arrived(stmt.token)).(stmt := Some(stmt.(left := rows, page := stmt.page + 1, more := more)), control := AtCheck)
    case PageFailed(killed) =>
      var stmt := s.stmt.value;
      EndFetch(s, Discard(stmt, !killed), if killed then Cancelled else Failure)
    case BeginClose =>
      var stmt := s.stmt.value;
      CloseOf(s.(stmt := Some(Discard(stmt, false))), stmt)
    case DrainAnswered(more) =>
      Log(s, Drained(s.control.token)).(control := if more then s.control else Idle)
    case Take(i, t) =>
      if s.tokens[t].slot.None? then s
      else s.(tokens := s.tokens[t := s.tokens[t].(slot := None)],
              cancellers := s.cancellers[i := Took(s.tokens[t].slot.value)])
    case Store(i) =>
      var t := s.cancellers[i].token;
      Log(s, FlagStored(t)).(tokens := s.tokens[t := s.tokens[t].(flag := true)],
                             cancellers := s.cancellers[i := Stored(t)])
    case Delete(i) =>
      Log(s, Deleted(s.cancellers[i].token)).(cancellers := s.cancellers[i := Ready])
  }

  // ----- watching one token's part of the log

  /**
   * What has happened to one token: the counters `rows`, `requests` and
   * `arrivals` run from the moment its flag was stored; `late` says that the
   * fetch or close under way began after that moment, and `honest` that every
   * such fetch so far answered HY008, or 24000 after a failed request.
   */
  datatype Watch = Watch(
    published: bool, stored: bool, deletes: nat,
    rows: nat, requests: nat, arrivals: nat, lateDrains: nat,
    late: bool, broke: bool, honest: bool)

  const UNSEEN := Watch(false, false, 0, 0, 0, 0, 0, false, false, true)

  function Counted(w: Watch): nat {
    if w.stored then 1 else 0
  }

  function Notice(w: Watch, e: Event): Watch {
    match e
    case Published(_) => w.(published := true)
    case FlagStored(_) => w.(stored := true)
    case Deleted(_) => w.(deletes := w.deletes + 1)
    case FetchBegan(_) => w.(late := w.stored)
    case Requested(_) => w.(requests := w.requests + Counted(w))
    case Arrived(_) => w.(arrivals := w.arrivals + Counted(w))
    case FetchEnded(_, outcome) =>
      w.(rows := w.rows + (if outcome == RowReady then Counted(w) else 0),
         broke := w.broke || outcome == Failure,
         honest := w.honest && (w.late ==> outcome == if w.broke then Abandoned else Cancelled))
    case CloseBegan(_) => w.(late := w.stored, broke := false)
    case Drained(_) => w.(lateDrains := w.lateDrains + (if w.late then 1 else 0))
  }

  function Seen(log: seq<Event>, t: TokenId): Watch {
    if log == [] then UNSEEN
    else
      var w := Seen(log[..|log| - 1], t);
      var e := log[|log| - 1];
      if e.token == t then Notice(w, e) else w
  }

  lemma SeenStep(log: seq<Event>, e: Event, t: TokenId)
    ensures Seen(log + [e], t) == if e.token == t then Notice(Seen(log, t), e) else Seen(log, t)
  {
    assert (log + [e])[..|log|] == log;
  }

  /** What one token's watch must always satisfy: the claims about cancelling. */
  predicate Sound(w: Watch) {
    && w.deletes <= Counted(w)
    && w.rows + w.requests <= 1
    && w.rows + w.arrivals <= 1
    && w.lateDrains == 0
    && w.honest
    && (w.stored ==> w.published)
    && (!w.stored ==> w.rows == w.requests == w.arrivals == 0 && !w.late)
  }

  // ----- the invariant

  /** A query id is in one place: its slot, one canceller's hands, or spent. */
  ghost predicate OnePlace(s: State) {
    && (forall t: nat :: t < |s.tokens| ==> Located(s.tokens[t], t, Seen(s.log, t)))
    && (forall i :: 0 <= i < |s.cancellers| ==> InHand(s.cancellers[i], s))
    && (forall i, j :: 0 <= i < j < |s.cancellers| ==> Apart(s.cancellers[i], s.cancellers[j]))
  }

  predicate Apart(a: Canceller, b: Canceller) {
    !a.Ready? && !b.Ready? ==> a.token != b.token
  }

  ghost predicate Located(token: Token, t: TokenId, w: Watch) {
    && token.flag == w.stored
    && Sound(w)
    && (token.slot.Some? ==> token.slot.value == t && w.published && !w.stored)
    && (token.slot.Some? ==> w.deletes == 0)
  }

  predicate InHand(c: Canceller, s: State) {
    !c.Ready? ==>
      && c.token < |s.tokens| && s.tokens[c.token].slot.None?
      && var w := Seen(s.log, c.token);
         w.published && w.deletes == 0 && (w.stored <==> c.Stored?)
  }

  /** The executing thread's place, against the watch of the token it works on. */
  ghost predicate ControlSound(s: State) {
    && (s.stmt.Some? ==>
        var w := Seen(s.log, s.stmt.value.token);
        && s.stmt.value.token < |s.tokens| && w.published
        && w.broke == s.stmt.value.failed
        && (s.control.Passed? && w.stored ==> !w.late && w.rows == w.requests == w.arrivals == 0)
        && (s.control.InFlight? && w.stored ==> !w.late && w.rows == w.arrivals == 0))
    && (s.control.AtCheck? || s.control.Passed? || s.control.InFlight? ==> s.stmt.Some? && !s.stmt.value.failed)
    && (s.control.Submitting? ==>
        && s.control.token == |s.tokens| - 1 && s.tokens[s.control.token] == Token(None, false)
        && Seen(s.log, s.control.token) == UNSEEN
        && (s.stmt.Some? ==> s.stmt.value.token != s.control.token))
    && (s.control.Polling? ==>
        s.control.token < |s.tokens| && Seen(s.log, s.control.token).published
        && !Seen(s.log, s.control.token).broke
        && (s.stmt.Some? ==> s.stmt.value.token != s.control.token))
    && (s.control.Draining? ==>
        s.control.token < |s.tokens| && !Seen(s.log, s.control.token).late)
  }

  /** Nothing is logged about a token not yet minted. */
  ghost predicate Fresh(s: State) {
    forall i :: 0 <= i < |s.log| ==> s.log[i].token < |s.tokens|
  }

  ghost predicate Inv(s: State) {
    OnePlace(s) && ControlSound(s) && Fresh(s)
  }

  lemma {:induction false} UnmintedIsUnseen(log: seq<Event>, n: nat, t: TokenId)
    requires n <= t && forall i :: 0 <= i < |log| ==> log[i].token < n
    ensures Seen(log, t) == UNSEEN
  {
    if log != [] {
      UnmintedIsUnseen(log[..|log| - 1], n, t);
    }
  }

  /** How one logged event changes every token's watch. */
  lemma Logged(s: State, e: Event)
    ensures forall t: nat :: Seen(s.log + [e], t)
                          == if e.token == t then Notice(Seen(s.log, t), e) else Seen(s.log, t)
  {
    forall t: nat
      ensures Seen(s.log + [e], t) == if e.token == t then Notice(Seen(s.log, t), e) else Seen(s.log, t)
    {
      SeenStep(s.log, e, t);
    }
  }

  lemma StartHolds(n: nat)
    ensures Inv(Start(n))
  {
    assert forall i :: 0 <= i < n ==> Start(n).cancellers[i] == Ready;
  }

  lemma SubmitKeeps(s: State, step: Step)
    requires Inv(s) && Enabled(s, step) && (step.Submit? || step.SubmitAnswered?)
    ensures Inv(Do(s, step))
  {
    hide Seen, Sound;
    UnseenIsSound();
    UnmintedIsUnseen(s.log, |s.tokens|, |s.tokens|);
    if step.SubmitAnswered? {
      Logged(s, Published(s.control.token));
    }
  }

  lemma PollKeeps(s: State, step: Step)
    requires Inv(s) && Enabled(s, step) && (step.PollAnswered? || step.PollFailed?)
    ensures Inv(Do(s, step))
  {
    hide Seen;
    if s.stmt.Some? {
      Logged(s, CloseBegan(s.stmt.value.token));
    }
  }

  lemma FetchBeginKeeps(s: State)
    requires Inv(s) && Enabled(s, BeginFetch)
    ensures Inv(Do(s, BeginFetch))
  {
    hide Seen;
    var t := s.stmt.value.token;
    Logged(s, FetchBegan(t));
    Logged(Log(s, FetchBegan(t)), FetchEnded(t, Abandoned));
  }

  lemma CheckKeeps(s: State)
    requires Inv(s) && Enabled(s, Check)
    ensures Inv(Do(s, Check))
  {
    hide Seen;
    Logged(s, FetchEnded(s.stmt.value.token, Cancelled));
  }

  lemma ProceedKeeps(s: State)
    requires Inv(s) && Enabled(s, Proceed)
    ensures Inv(Do(s, Proceed))
  {
    hide Seen;
    var t := s.stmt.value.token;
    Logged(s, FetchEnded(t, RowReady));
    Logged(s, FetchEnded(t, NoData));
    Logged(s, Requested(t));
  }

  lemma PageKeeps(s: State, step: Step)
    requires Inv(s) && Enabled(s, step) && (step.PageArrived? || step.PageFailed?)
    ensures Inv(Do(s, step))
  {
    hide Seen;
    var t := s.stmt.value.token;
    Logged(s, Arrived(t));
    Logged(s, FetchEnded(t, Cancelled));
    Logged(s, FetchEnded(t, Failure));
  }

  lemma CloseKeeps(s: State, step: Step)
    requires Inv(s) && Enabled(s, step) && (step.BeginClose? || step.DrainAnswered?)
    ensures Inv(Do(s, step))
  {
    hide Seen;
    if step.BeginClose? {
      Logged(s, CloseBegan(s.stmt.value.token));
    } else {
      Logged(s, Drained(s.control.token));
    }
  }

  lemma TakeKeeps(s: State, step: Step)
    requires Inv(s) && Enabled(s, step) && step.Take?
    ensures Inv(Do(s, step))
  {
    hide Seen;
  }

  lemma StoreKeeps(s: State, step: Step)
    requires Inv(s) && Enabled(s, step) && step.Store?
    ensures Inv(Do(s, step))
  {
    hide Seen;
    var i := step.canceller;
    Logged(s, FlagStored(s.cancellers[i].token));
    assert InHand(s.cancellers[i], s);
    assert forall j :: 0 <= j < |s.cancellers| && j != i ==> Apart(s.cancellers[i], s.cancellers[j]) by {
      assert forall j :: 0 <= j < i ==> Apart(s.cancellers[j], s.cancellers[i]);
    }
  }

  lemma DeleteKeeps(s: State, step: Step)
    requires Inv(s) && Enabled(s, step) && step.Delete?
    ensures Inv(Do(s, step))
  {
    hide Seen;
    var i := step.canceller;
    Logged(s, Deleted(s.cancellers[i].token));
    assert InHand(s.cancellers[i], s);
    assert forall j :: 0 <= j < |s.cancellers| && j != i ==> Apart(s.cancellers[i], s.cancellers[j]) by {
      assert forall j :: 0 <= j < i ==> Apart(s.cancellers[j], s.cancellers[i]);
    }
  }

  lemma StepKeeps(s: State, step: Step)
    requires Inv(s) && Enabled(s, step)
    ensures Inv(Do(s, step))
  {
    hide Inv, Do, Enabled;
    match step
    case Submit => SubmitKeeps(s, step);
    case SubmitAnswered(_) => SubmitKeeps(s, step);
    case PollAnswered(_, _, _) => PollKeeps(s, step);
    case PollFailed => PollKeeps(s, step);
    case BeginFetch => FetchBeginKeeps(s);
    case Check => CheckKeeps(s);
    case Proceed => ProceedKeeps(s);
    case PageArrived(_, _) => PageKeeps(s, step);
    case PageFailed(_) => PageKeeps(s, step);
    case BeginClose => CloseKeeps(s, step);
    case DrainAnswered(_) => CloseKeeps(s, step);
    case Take(_, _) => TakeKeeps(s, step);
    case Store(_) => StoreKeeps(s, step);
    case Delete(_) => DeleteKeeps(s, step);
  }

  lemma UnseenIsSound()
    ensures Sound(UNSEEN) && Sound(UNSEEN.(published := true))
  {
  }

  /** The state after a schedule, if each step of it was enabled in turn. */
  function Execute(cancellers: nat, schedule: seq<Step>): Option<State> {
    if schedule == [] then Some(Start(cancellers))
    else
      var step := schedule[|schedule| - 1];
      match Execute(cancellers, schedule[..|schedule| - 1])
      case None => None
      case Some(s) => if Enabled(s, step) then Some(Do(s, step)) else None
  }

  lemma {:induction false} EveryScheduleIsSafe(cancellers: nat, schedule: seq<Step>)
    requires Execute(cancellers, schedule).Some?
    ensures Inv(Execute(cancellers, schedule).value)
  {
    hide Inv, Do, Enabled;
    if schedule == [] {
      StartHolds(cancellers);
    } else {
      var prefix := schedule[..|schedule| - 1];
      EveryScheduleIsSafe(cancellers, prefix);
      StepKeeps(Execute(cancellers, prefix).value, schedule[|schedule| - 1]);
    }
  }

  lemma SoundForEvery(cancellers: nat, schedule: seq<Step>, t: TokenId)
    requires Execute(cancellers, schedule).Some?
    ensures Sound(Seen(Execute(cancellers, schedule).value.log, t))
  {
    var s := Execute(cancellers, schedule).value;
    EveryScheduleIsSafe(cancellers, schedule);
    if t >= |s.tokens| {
      UnmintedIsUnseen(s.log, |s.tokens|, t);
    }
  }

  // ----- the same claims read off the log

  /** Counters never go down, the stored flag stays, and dishonesty is not forgotten. */
  predicate Grows(a: Watch, b: Watch) {
    && a.deletes <= b.deletes && a.rows <= b.rows && a.requests <= b.requests
    && a.arrivals <= b.arrivals && a.lateDrains <= b.lateDrains
    && (a.stored ==> b.stored) && (b.honest ==> a.honest)
  }

  lemma LastGrows(log: seq<Event>, t: TokenId)
    requires log != []
    ensures Grows(Seen(log[..|log| - 1], t), Seen(log, t))
  {
  }

  lemma {:induction false} SeenGrows(log: seq<Event>, n: nat, t: TokenId)
    requires n <= |log|
    ensures var (a, b) := (Seen(log[..n], t), Seen(log, t));
            Grows(a, b)
  {
    hide Seen;
    if n == |log| {
      assert log[..n] == log;
    } else {
      var prefix := log[..|log| - 1];
      assert prefix[..n] == log[..n];
      SeenGrows(prefix, n, t);
      LastGrows(log, t);
    }
  }

  /** The watch just before and just after position `n`. */
  lemma SeenAt(log: seq<Event>, n: nat, t: TokenId)
    requires n < |log| && log[n].token == t
    ensures Seen(log[..n + 1], t) == Notice(Seen(log[..n], t), log[n])
    ensures var (a, b) := (Seen(log[..n + 1], t), Seen(log, t));
            Grows(a, b)
  {
    assert log[..n + 1][..n] == log[..n];
    SeenGrows(log, n + 1, t);
  }

  lemma SeenBetween(log: seq<Event>, m: nat, n: nat, t: TokenId)
    requires m <= n <= |log|
    ensures var (a, b) := (Seen(log[..m], t), Seen(log[..n], t));
            Grows(a, b)
  {
    assert log[..n][..m] == log[..m];
    SeenGrows(log[..n], m, t);
  }

  /** At most one DELETE is sent for any published query id, and only after its flag was stored. */
  lemma OneDeletePerQuery(cancellers: nat, schedule: seq<Step>, i: nat, j: nat, t: TokenId)
    requires Execute(cancellers, schedule).Some?
    requires var log := Execute(cancellers, schedule).value.log;
             i <= j < |log| && log[i] == Deleted(t) && log[j] == Deleted(t)
    ensures i == j
    ensures Seen(Execute(cancellers, schedule).value.log, t).stored
  {
    hide Execute;
    var log := Execute(cancellers, schedule).value.log;
    SoundForEvery(cancellers, schedule, t);
    SeenAt(log, i, t);
    SeenAt(log, j, t);
    if i < j {
      SeenBetween(log, i + 1, j, t);
    }
  }

  /** A page request, or a row delivered to the application. */
  predicate IsProgress(e: Event, t: TokenId) {
    e == Requested(t) || e == FetchEnded(t, RowReady)
  }

  lemma ProgressCounts(log: seq<Event>, k: nat, i: nat, t: TokenId)
    requires k < i < |log| && log[k] == FlagStored(t) && IsProgress(log[i], t)
    ensures var (a, b, c) := (Seen(log[..i], t), Seen(log[..i + 1], t), Seen(log, t));
            && b.rows + b.requests == a.rows + a.requests + 1
            && b.rows + b.requests <= c.rows + c.requests
  {
    SeenAt(log, k, t);
    SeenBetween(log, k + 1, i, t);
    SeenAt(log, i, t);
  }

  /**
   * After a cancel has stored the flag of a query, fetching makes at most one
   * more page request or delivers at most one more row, never both, whatever
   * the DELETE answers and however the threads interleave.
   */
  lemma OneStepAfterCancel(cancellers: nat, schedule: seq<Step>, k: nat, i: nat, j: nat, t: TokenId)
    requires Execute(cancellers, schedule).Some?
    requires var log := Execute(cancellers, schedule).value.log;
             && k < i <= j < |log| && log[k] == FlagStored(t)
             && IsProgress(log[i], t) && IsProgress(log[j], t)
    ensures i == j
  {
    hide Execute, Seen;
    var log := Execute(cancellers, schedule).value.log;
    SoundForEvery(cancellers, schedule, t);
    ProgressCounts(log, k, i, t);
    ProgressCounts(log, k, j, t);
    if i < j {
      SeenBetween(log, i + 1, j, t);
    }
  }

  /** No row of a page that arrived after the flag was stored is ever delivered. */
  lemma LatePageIsNeverDelivered(cancellers: nat, schedule: seq<Step>, k: nat, i: nat, j: nat, t: TokenId)
    requires Execute(cancellers, schedule).Some?
    requires var log := Execute(cancellers, schedule).value.log;
             k < i < |log| && k < j < |log| && log[k] == FlagStored(t) && log[i] == Arrived(t)
    ensures Execute(cancellers, schedule).value.log[j] != FetchEnded(t, RowReady)
  {
    hide Execute, Seen;
    var log := Execute(cancellers, schedule).value.log;
    SoundForEvery(cancellers, schedule, t);
    SeenAt(log, k, t);
    SeenBetween(log, k + 1, i, t);
    SeenAt(log, i, t);
    if log[j] == FetchEnded(t, RowReady) {
      SeenBetween(log, k + 1, j, t);
      SeenAt(log, j, t);
    }
  }

  /** A fetch or close begun after the flag was stored stays marked as late. */
  lemma {:induction false} LateStays(log: seq<Event>, b: nat, n: nat, t: TokenId)
    requires b < n <= |log| && Seen(log[..b], t).stored
    requires log[b] == FetchBegan(t) || log[b] == CloseBegan(t)
    ensures Seen(log[..n], t).late
  {
    assert log[..n][..n - 1] == log[..n - 1];
    if n == b + 1 {
      SeenAt(log, b, t);
    } else {
      LateStays(log, b, n - 1, t);
      SeenBetween(log, b, n - 1, t);
    }
  }

  /**
   * Every fetch begun after the flag was stored answers HY008, or 24000 if a
   * request of that statement had failed for another reason and it has not
   * been closed since. Nothing but executing again, under a new token, ends this.
   */
  lemma LateFetchIsRefused(cancellers: nat, schedule: seq<Step>, k: nat, b: nat, e: nat, t: TokenId, o: Outcome)
    requires Execute(cancellers, schedule).Some?
    requires var log := Execute(cancellers, schedule).value.log;
             && k < b < e < |log|
             && log[k] == FlagStored(t) && log[b] == FetchBegan(t) && log[e] == FetchEnded(t, o)
    ensures o == if Seen(Execute(cancellers, schedule).value.log[..e], t).broke then Abandoned else Cancelled
  {
    hide Execute;
    var log := Execute(cancellers, schedule).value.log;
    SoundForEvery(cancellers, schedule, t);
    SeenAt(log, k, t);
    SeenBetween(log, k + 1, b, t);
    LateStays(log, b, e, t);
    SeenAt(log, e, t);
  }

  /** A close begun after the flag was stored requests no page. */
  lemma LateCloseDrainsNothing(cancellers: nat, schedule: seq<Step>, k: nat, b: nat, e: nat, t: TokenId)
    requires Execute(cancellers, schedule).Some?
    requires var log := Execute(cancellers, schedule).value.log;
             k < b < e < |log| && log[k] == FlagStored(t) && log[b] == CloseBegan(t)
    ensures Execute(cancellers, schedule).value.log[e] != Drained(t)
  {
    hide Execute;
    var log := Execute(cancellers, schedule).value.log;
    SoundForEvery(cancellers, schedule, t);
    if log[e] == Drained(t) {
      SeenAt(log, k, t);
      SeenBetween(log, k + 1, b, t);
      LateStays(log, b, e, t);
      SeenAt(log, e, t);
    }
  }
}
