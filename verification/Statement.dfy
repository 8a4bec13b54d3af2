/**
 * The statement as the driver runs it: loops over mutable fields, sharing its
 * connection's transaction state and its own cancel state.
 */
module Statement {
  import opened Wrappers
  import opened ValueConversion
  import opened Paging
  import Flags = TransactionFlags
  import Runs = PagingRuns

  /** The client a statement pages through, and a record of what it asked for. */
  class PageClient {
    const chain: seq<Reply>
    ghost var requested: seq<Uri>

    constructor (chain: seq<Reply>)
      ensures this.chain == chain && requested == []
    {
      this.chain := chain;
      requested := [];
    }

    method GetNext(uri: Uri) returns (reply: Reply, next: Option<Uri>)
      requires uri < |chain|
      modifies this
      ensures requested == old(requested) + [uri]
      ensures reply == chain[uri] && next == NextAfter(chain, uri)
      ensures next.Some? ==> next.value < |chain|
    {
      requested := requested + [uri];
      reply, next := chain[uri], NextAfter(chain, uri);
    }
  }

  /** What a canceller and the executing statement both reach. */
  class CancelState {
    var queryId: Option<nat>
    var cancelled: bool

    constructor ()
      ensures queryId.None? && !cancelled
    {
      queryId, cancelled := None, false;
    }

    /** Names the query just submitted and clears any earlier cancellation. */
    method BeginQuery(id: nat)
      modifies this
      ensures queryId == Some(id) && !cancelled
    {
      cancelled := false;
      queryId := Some(id);
    }

    /**
     * Cancels the query in flight: the id is taken, so a second call finds
     * nothing; the flag is stored before the DELETE and whatever it answers.
     */
    method Cancel(deleteWorks: bool) returns (deleted: Option<nat>, ok: bool)
      modifies this
      ensures queryId.None? && deleted == old(queryId)
      ensures cancelled == (old(cancelled) || old(queryId).Some?)
      ensures ok == (old(queryId).None? || deleteWorks)
    {
      deleted := queryId;
      queryId := None;
      if deleted.None? {
        return deleted, true;
      }
      cancelled := true;
      ok := deleteWorks;
    }
  }

  lemma NoTruncatedCells(q: Query)
    ensures forall rows: seq<seq<Json>> :: TruncatedCells(rows[..0], q) == {}
  {
  }

  /** One more row adds its own lossy cells. */
  lemma TruncatedCellsGrow(rows: seq<seq<Json>>, r: nat, q: Query)
    requires r < |rows|
    ensures TruncatedCells(rows[..r + 1], q)
         == TruncatedCells(rows[..r], q)
            + set k: nat | k < Min(|rows[r]|, |q.types|) && LosesDigits(rows[r], q, k) :: (r, k)
  {
    hide Discards;
    assert forall i :: 0 <= i < r ==> rows[..r + 1][i] == rows[..r][i];
  }

  /** Converts one page, noting the cells whose conversion drops digits. */
  method ConvertRows(rows: seq<seq<Json>>, q: Query)
    returns (batch: seq<seq<ColumnValue>>, truncated: set<(nat, nat)>)
    ensures batch == Converted(rows, q) && truncated == TruncatedCells(rows, q)
  {
    hide Convert, Discards, TruncatedCells;
    batch, truncated := [], {};
    NoTruncatedCells(q);
    for r := 0 to |rows|
      invariant batch == Converted(rows, q)[..r]
      invariant truncated == TruncatedCells(rows[..r], q)
    {
      var row: seq<ColumnValue> := [];
      ghost var before := truncated;
      var width := Min(|rows[r]|, |q.types|);
      for c := 0 to width
        invariant row == ConvertedRow(rows[r], q)[..c]
        invariant truncated == before + set k: nat | k < c && LosesDigits(rows[r], q, k) :: (r, k)
      {
        if Discards(rows[r][c], q.types[c]) {
          truncated := truncated + {(r, c)};
        }
        row := row + [Convert(rows[r][c], q.types[c], q.zone)];
      }
      assert row == ConvertedRow(rows[r], q);
      TruncatedCellsGrow(rows, r, q);
      batch := batch + [row];
    }
    assert rows[..|rows|] == rows;
  }

  class TrinoStatement {
    const query: Query
    const client: PageClient?
    const cancel: CancelState?
    const txn: Flags.TransactionState?
    const txnEpoch: nat
    ghost const openedAt: seq<Flags.Event>
    var batch: seq<seq<ColumnValue>>
    var truncated: set<(nat, nat)>
    var warning: bool
    var cursor: nat
    var failed: bool
    var next: Option<Uri>

    function View(): Cursor
      reads this
    {
      Cursor(batch, truncated, warning, cursor, failed, next)
    }

    ghost predicate Valid()
      reads this, txn
    {
      && Runs.Sound(query, View())
      && (next.Some? ==> client != null)
      && (client != null ==> client.chain == query.chain)
      && (txn != null ==>
            txn.Valid() && openedAt <= txn.history && txnEpoch == Flags.Ends(openedAt) % Flags.EPOCH_RANGE)
    }

    /** A transaction has ended since the result set was opened. */
    ghost predicate TransactionEnded()
      reads this, txn
    {
      txn != null && Flags.EndedSince(openedAt, txn.history)
    }

    /** Fewer transactions have ended since than it takes the epoch to come round. */
    ghost predicate EpochIsFresh()
      reads this, txn
    {
      txn != null ==> Flags.Ends(txn.history) - Flags.Ends(openedAt) < Flags.EPOCH_RANGE
    }

    /** The epoch tells whether the transaction has ended. */
    lemma DiedIffTransactionEnded()
      requires Valid() && EpochIsFresh()
      ensures ResultSetDiedWithTransaction() <==> TransactionEnded()
    {
      if txn != null {
        Flags.OutlivedIffEnded(openedAt, txn.history);
      }
    }

    /** A statement holding the page its query was opened with. */
    constructor Open(query: Query, page: Uri, rows: seq<seq<Json>>,
                     client: PageClient, cancel: CancelState, txn: Flags.TransactionState)
      requires page < |query.chain| && client.chain == query.chain && txn.Valid()
      ensures Valid() && View() == OpenedCursor(query, page, rows)
      ensures this.query == query && this.client == client && this.cancel == cancel && this.txn == txn
      ensures txnEpoch == txn.epoch && openedAt == txn.history
    {
      this.query, this.client, this.cancel, this.txn := query, client, cancel, txn;
      txnEpoch, openedAt := txn.epoch, txn.history;
      warning, cursor, failed := false, 0, false;
      next := NextAfter(query.chain, page);
      var b, t := ConvertRows(rows, query);
      batch, truncated := b, t;
      Runs.LoadedIsWire(query, EMPTY_CURSOR, page, rows);
    }

    /** A prepared statement: no query yet, so nothing to page, cancel or outlive. */
    constructor Prepare(query: Query)
      ensures Valid() && View() == EMPTY_CURSOR
      ensures this.query == query && client == null && cancel == null && txn == null
    {
      this.query, client, cancel, txn, txnEpoch, openedAt := query, null, null, null, 0, [];
      batch, truncated, warning, cursor, failed, next := [], {}, false, 0, false, None;
    }

    /** The flag is set, so the query is on its way out. */
    predicate IsCancelled()
      reads cancel
    {
      cancel != null && cancel.cancelled
    }

    predicate ResultSetDiedWithTransaction()
      reads txn
    {
      txn != null && txn.Outlived(txnEpoch)
    }

    /** Discards the rows; anything but a kill also marks the result set failed. */
    method EndPageFetch(v: Verdict) returns (outcome: Outcome)
      modifies this
      ensures (View(), outcome) == EndFetch(old(View()), v)
    {
      batch, truncated, cursor, next := [], {}, 0, None;
      if v.Killed? {
        return Cancelled;
      }
      failed := true;
      outcome := Failure;
    }

    /** How a failed page request reaches the connection's abort flag. */
    twostate predicate Noted(noted: bool)
      reads txn
    {
      txn != null ==>
        && txn.autocommit == old(txn.autocommit) && txn.epoch == old(txn.epoch)
        && txn.history == old(txn.history) + (if noted then [Flags.FailureNoted] else [])
        && txn.aborted == (old(txn.aborted) || (noted && !txn.autocommit))
    }

    method MapClientError()
      requires txn != null ==> txn.Valid()
      modifies txn
      ensures txn != null ==> txn.Valid()
      ensures Noted(true)
    {
      if txn != null {
        txn.NoteStatementError();
      }
    }

    /** Requests one page and buffers its rows, or ends the fetch with what is wrong with it. */
    method LoadPage(uri: Uri) returns (ended: Option<Outcome>)
      requires Valid() && !failed && client != null && uri < |query.chain|
      modifies this, client, txn
      ensures Valid() && client.requested == old(client.requested) + [uri]
      ensures match PageRows(query.chain[uri])
              case Undecodable(v) =>
                ended.Some? && (View(), ended.value) == EndFetch(old(View()), v) && Noted(true)
              case Rows(rows) =>
                ended.None? && View() == Loaded(query, old(View()), uri, rows) && Noted(false)
    {
      ghost var c := View();
      next := None;
      var reply, after := client.GetNext(uri);
      match PageRows(reply) {
        case Undecodable(v) =>
          MapClientError();
          var outcome := EndPageFetch(v);
          ended := Some(outcome);
        case Rows(rows) =>
          next := after;
          batch, truncated := ConvertRows(rows, query);
          cursor := 0;
          Runs.LoadedIsWire(query, c, uri, rows);
          ended := None;
      }
    }

    /** Moves to the next row, or says that the result set was abandoned earlier. */
    method Fetch() returns (outcome: Outcome)
      requires Valid()
      modifies this, client, txn
      ensures Valid()
      ensures outcome != NoClient
      ensures cancel != null && cancel.cancelled && !old(failed) ==>
                outcome == Cancelled && (client != null ==> client.requested == old(client.requested))
      ensures (cancel == null || !cancel.cancelled) && outcome == Cancelled ==>
                && client != null && |client.requested| > |old(client.requested)|
                && var last := client.requested[|client.requested| - 1];
                last < |query.chain| && !Runs.Carries(query.chain[last]) && Runs.Trouble(query.chain[last]).Killed?
      ensures var f := Paging.Fetch(query, client != null, IsCancelled(), old(View()));
              && View() == f.cursor && outcome == f.outcome
              && (client != null ==> client.requested == old(client.requested) + f.requested)
              && Noted(f.noted)
    {
      if failed {
        return Abandoned;
      }
      ghost var c := View();
      Runs.StoppedFetch(query, client != null, c);
      if client != null {
        Runs.KilledByAPage(query, c);
      } else {
        AdvanceRests(query, false, false, c);
      }
      hide Advance, Flags.ModeAfter, Flags.Doomed, Flags.Ends;
      outcome := ReadOn();
    }

    /** Reads pages until one has a row or the chain ends; empty pages make it loop. */
    method ReadOn() returns (outcome: Outcome)
      requires Valid() && !failed
      modifies this, client, txn
      ensures Valid() && outcome != NoClient
      ensures var f := Advance(query, client != null, IsCancelled(), old(View()));
              && View() == f.cursor && outcome == f.outcome
              && (client != null ==> client.requested == old(client.requested) + f.requested)
              && Noted(f.noted)
    {
      hide Advance, Converted, TruncatedCells, Flags.ModeAfter, Flags.Doomed, Flags.Ends;
      ghost var stopped, connected := IsCancelled(), client != null;
      ghost var goal := Advance(query, connected, stopped, View());
      ghost var sent: seq<Uri> := [];
      while true
        invariant Valid() && !failed && stopped == IsCancelled()
        invariant var f := Advance(query, connected, stopped, View());
                  goal == f.(requested := sent + f.requested)
        invariant client != null ==> client.requested == old(client.requested) + sent
        invariant Noted(false)
        decreases if next.Some? then |query.chain| - next.value else 0
      {
        AdvanceRests(query, connected, stopped, View());
        if IsCancelled() {
          outcome := EndPageFetch(Killed);
          return;
        }
        if cursor < |batch| {
          cursor := cursor + 1;
          return RowReady;
        }
        if next.None? {
          return NoData;
        }
        var uri := next.value;
        // A next page implies a client, so the source's check for one never fails.
        assert client != null;
        ghost var c := View();
        var ended := LoadPage(uri);
        if ended.Some? {
          return ended.value;
        }
        AdvanceLoads(query, c, sent);
        assert View() == Loaded(query, c, uri, PageRows(query.chain[uri]).rows);
        sent := sent + [uri];
      }
    }

    method GetData(col: nat) returns (cell: Cell)
      requires Valid()
      modifies this
      ensures Valid() && (View(), cell) == Paging.GetData(old(View()), col)
    {
      if cursor == 0 {
        return NotFetched;
      }
      if col == 0 {
        return OutOfRange;
      }
      warning := truncated != {} && (cursor - 1, col - 1) in truncated;
      var row := batch[cursor - 1];
      if col - 1 < |row| {
        return Value(row[col - 1]);
      }
      cell := OutOfRange;
    }

    method TakeValueWarning() returns (armed: bool)
      requires Valid()
      modifies this
      ensures Valid() && armed == old(warning) && View() == old(View()).(warning := false)
    {
      armed := warning;
      warning := false;
    }

    /** Requests every page from `first` on, so that the pooled socket is left clean. */
    method DrainFrom(first: Uri) returns (failure: Option<Verdict>)
      requires Valid() && client != null && first < |query.chain|
      modifies client, txn
      ensures txn != null ==> txn.Valid()
      ensures failure == Drain(query.chain, first).1
      ensures client.requested == old(client.requested) + Drain(query.chain, first).0
      ensures Noted(failure.Some?)
    {
      hide Drain, Flags.ModeAfter, Flags.Doomed, Flags.Ends;
      var page := Some(first);
      ghost var sent: seq<Uri> := [];
      assert sent + Drain(query.chain, first).0 == Drain(query.chain, first).0;
      while page.Some?
        invariant txn != null ==> txn.Valid()
        invariant page.Some? ==> page.value < |query.chain|
        invariant page.Some? ==>
                    var (rest, lost) := Drain(query.chain, page.value);
                    Drain(query.chain, first) == (sent + rest, lost)
        invariant page.None? ==> Drain(query.chain, first) == (sent, None)
        invariant client.requested == old(client.requested) + sent
        invariant Noted(false)
        decreases if page.Some? then |query.chain| - page.value else -1
      {
        var uri := page.value;
        var reply, after := client.GetNext(uri);
        DrainStep(query.chain, uri, sent);
        sent := sent + [uri];
        if reply.Lost? {
          MapClientError();
          return Some(reply.verdict);
        }
        page := after;
      }
      failure := None;
    }

    /** Drains the remaining pages, unless the query was cancelled or its transaction has ended. */
    method CloseCursor() returns (failure: Option<Verdict>)
      requires Valid()
      modifies this, client, txn
      ensures Valid()
      ensures var k := Close(query, client != null, IsCancelled(), old(ResultSetDiedWithTransaction()), old(View()));
              && View() == k.cursor && failure == k.failure
              && (client != null ==> client.requested == old(client.requested) + k.requested)
              && Noted(k.failure.Some?)
      ensures old(EpochIsFresh()) && client != null ==>
                client.requested == old(client.requested)
                  + (if (cancel != null && cancel.cancelled) || old(TransactionEnded()) || old(next).None? then []
                     else Drain(query.chain, old(next).value).0)
    {
      hide Drain, Flags.ModeAfter, Flags.Doomed, Flags.Ends, Flags.EndedSince;
      if EpochIsFresh() {
        DiedIffTransactionEnded();
      }
      failure := None;
      if IsCancelled() || ResultSetDiedWithTransaction() {
        next := None;
      } else if client != null && next.Some? {
        failure := DrainFrom(next.value);
      }
      batch, truncated, cursor, next := [], {}, 0, None;
      failed := false;
    }

    /** What runs when the statement goes away. */
    method Drop()
      requires Valid()
      modifies this, client, txn
      ensures Valid()
      ensures var k := Paging.Drop(query, client != null, IsCancelled(), old(ResultSetDiedWithTransaction()), old(View()));
              && View() == k.cursor
              && (client != null ==> client.requested == old(client.requested) + k.requested)
              && Noted(k.failure.Some?)
      ensures old(EpochIsFresh()) && client != null ==>
                client.requested == old(client.requested)
                  + (if (cancel != null && cancel.cancelled) || old(TransactionEnded()) || old(next).None? then []
                     else Drain(query.chain, old(next).value).0)
    {
      hide Drain, Flags.ModeAfter, Flags.Doomed, Flags.Ends, Flags.EndedSince;
      if next.Some? {
        var _ := CloseCursor();
      }
    }
  }

  /**
   * Submits a query and polls its pages until one carries metadata. `None` is
   * an error, which is noted unless the query simply has no columns.
   */
  method ExecDirect(query: Query, id: nat, client: PageClient, cancel: CancelState, txn: Flags.TransactionState)
    returns (stmt: Option<TrinoStatement>)
    requires query.chain != [] && client.chain == query.chain && txn.Valid()
    modifies client, cancel, txn
    ensures txn.Valid() && txn.autocommit == old(txn.autocommit) && txn.epoch == old(txn.epoch)
    ensures var (opening, requested) := Open(query.chain, 0);
            && client.requested == old(client.requested) + requested
            && txn.aborted == (old(txn.aborted) || (opening.Refused? && !txn.autocommit))
            && txn.history == old(txn.history) + (if opening.Refused? then [Flags.FailureNoted] else [])
            && (query.chain[0].Page? ==> cancel.queryId == Some(id) && !cancel.cancelled)
            && (query.chain[0].Lost? ==> unchanged(cancel))
            && match opening
               case Opened(page, rows) =>
                 && stmt.Some? && fresh(stmt.value) && stmt.value.Valid()
                 && stmt.value.View() == OpenedCursor(query, page, rows)
                 && stmt.value.query == query && stmt.value.client == client && stmt.value.cancel == cancel
                 && stmt.value.txn == txn && stmt.value.txnEpoch == txn.epoch && stmt.value.openedAt == txn.history
               case _ => stmt.None?
  {
    hide Open, Converted, TruncatedCells, Discards, Convert, Flags.ModeAfter, Flags.Doomed, Flags.Ends;
    var uri: Uri := 0;
    var reply, after := client.GetNext(0);
    ghost var polled: seq<Uri> := [];
    assert polled + Open(query.chain, 0).1 == Open(query.chain, 0).1;
    if reply.Page? {
      cancel.BeginQuery(id);
    }
    while reply.Page? && !reply.described
      invariant uri < |query.chain| && reply == query.chain[uri] && after == NextAfter(query.chain, uri)
      invariant Open(query.chain, 0)
             == (Open(query.chain, uri).0, polled + Open(query.chain, uri).1)
      invariant client.requested == old(client.requested) + polled + [uri]
      invariant txn.Valid() && txn.aborted == old(txn.aborted) && txn.history == old(txn.history)
      invariant txn.autocommit == old(txn.autocommit) && txn.epoch == old(txn.epoch)
      invariant query.chain[0].Page? ==> cancel.queryId == Some(id) && !cancel.cancelled
      invariant query.chain[0].Lost? ==> reply.Lost? && unchanged(cancel)
      decreases |query.chain| - uri
    {
      OpenStep(query.chain, uri, polled);
      if reply.error.Some? {
        txn.NoteStatementError();
        return None;
      }
      if after.None? {
        return None;
      }
      polled := polled + [uri];
      uri := after.value;
      reply, after := client.GetNext(uri);
    }
    OpenStep(query.chain, uri, polled);
    var data := PageRows(reply);
    if data.Undecodable? {
      txn.NoteStatementError();
      return None;
    }
    var s := new TrinoStatement.Open(query, uri, data.rows, client, cancel, txn);
    stmt := Some(s);
  }

  /** A cancel that finds an id is what the next fetch answers, whether or not the DELETE worked. */
  method CancelThenFetch(stmt: TrinoStatement, deleteWorks: bool) returns (outcome: Outcome)
    requires stmt.Valid() && stmt.cancel != null && stmt.cancel.queryId.Some? && !stmt.failed
    modifies stmt, stmt.cancel, stmt.client, stmt.txn
    ensures outcome == Cancelled
    ensures stmt.client != null ==> stmt.client.requested == old(stmt.client.requested)
  {
    var _, _ := stmt.cancel.Cancel(deleteWorks);
    outcome := stmt.Fetch();
  }

  /** The application's statement handle, which execution repoints in place. */
  class Handle {
    var stmt: TrinoStatement

    constructor (stmt: TrinoStatement)
      ensures this.stmt == stmt
    {
      this.stmt := stmt;
    }

    /**
     * Runs a prepared query again. The new query is opened first; only if that
     * works does it replace the old result set, whose remaining pages are then
     * drained. If it fails the old result set is still there, row for row. A
     * query that does not open, or a drain that fails, is noted.
     */
    method Execute(query: Query, id: nat, client: PageClient, cancel: CancelState, txn: Flags.TransactionState)
      returns (ok: bool)
      requires query.chain != [] && client.chain == query.chain && txn.Valid()
      requires stmt.Valid() && stmt.client != client && stmt.cancel != cancel
      requires stmt.txn == null || stmt.txn == txn
      modifies this, client, cancel, txn, stmt, stmt.client
      ensures txn.Valid()
      ensures var (opening, _) := Open(query.chain, 0);
              && ok == opening.Opened?
              && (ok ==>
                  && fresh(stmt) && stmt.Valid() && stmt.query == query && stmt.client == client
                  && stmt.View() == OpenedCursor(query, opening.page, opening.rows))
              && (!ok ==> stmt == old(stmt) && stmt.View() == old(stmt.View())
                          && (stmt.client != null ==> stmt.client.requested == old(stmt.client.requested)))
      ensures txn.autocommit == old(txn.autocommit) && txn.epoch == old(txn.epoch)
      ensures var (opening, _) := Open(query.chain, 0);
              var k := Drop(old(stmt.query), old(stmt.client) != null, old(stmt.IsCancelled()),
                            old(stmt.ResultSetDiedWithTransaction()), old(stmt.View()));
              && (old(stmt.client) != null ==>
                    old(stmt.client).requested
                    == old(stmt.client.requested) + (if opening.Opened? then k.requested else []))
              && (txn.aborted <==>
                    || old(txn.aborted)
                    || (!txn.autocommit
                        && (opening.Refused? || (opening.Opened? && old(stmt.txn) != null && k.failure.Some?))))
    {
      hide Open, Drain, Flags.ModeAfter, Flags.Doomed, Flags.Ends;
      var result := ExecDirect(query, id, client, cancel, txn);
      if result.None? {
        return false;
      }
      var previous := stmt;
      stmt := result.value;
      previous.Drop();
      ok := true;
    }
  }
}
