/**
 * The paged cursor against the result set it stands for: a flat sequence of
 * rows that ends by exhaustion, by a kill or by a failure.
 */
module PagingRuns {
  import opened Wrappers
  import opened ValueConversion
  import opened Paging

  /** One row of the result set: its values, and its columns that lost digits. */
  datatype FlatRow = FlatRow(values: seq<ColumnValue>, lossy: set<nat>)

  datatype Ending = Exhausted | Stops(verdict: Verdict)

  /** What is still owed to the application, and how it ends. */
  datatype Stream = Stream(rows: seq<FlatRow>, ending: Ending)

  function WireRow(row: seq<Json>, q: Query): FlatRow {
    FlatRow(ConvertedRow(row, q), LossyColumns(row, q))
  }

  function WireRows(rows: seq<seq<Json>>, q: Query): (flat: seq<FlatRow>)
    ensures |flat| == |rows|
  {
    seq(|rows|, r requires 0 <= r < |rows| => WireRow(rows[r], q))
  }

  // ----- what a page says, by its parts alone

  /** A page with rows: it arrived, without an error, and its data can be decoded. */
  predicate Carries(reply: Reply) {
    reply.Page? && reply.error.None? && reply.data.Rows?
  }

  /** What is wrong with any other: the request, then the error it carries, then its data. */
  function Trouble(reply: Reply): Verdict
    requires !Carries(reply)
  {
    if reply.Lost? then reply.verdict
    else if reply.error.Some? then reply.error.value
    else reply.data.verdict
  }

  /** Everything the pages from `next` on carry, read straight off the chain. */
  function Owed(q: Query, next: Option<Uri>): Stream
    requires next.Some? ==> next.value < |q.chain|
    decreases if next.Some? then |q.chain| - next.value else 0
  {
    match next
    case None => Stream([], Exhausted)
    case Some(uri) =>
      match PageRows(q.chain[uri])
      case Undecodable(v) => Stream([], Stops(v))
      case Rows(rows) =>
        var later := Owed(q, NextAfter(q.chain, uri));
        Stream(WireRows(rows, q) + later.rows, later.ending)
  }

  function BufferedRow(c: Cursor, r: nat): FlatRow
    requires r < |c.batch|
  {
    FlatRow(c.batch[r], set c': nat | c' < |c.batch[r]| && (r, c') in c.truncated)
  }

  function Buffered(c: Cursor, from: nat): seq<FlatRow>
    requires from <= |c.batch|
  {
    seq(|c.batch| - from, i requires 0 <= i < |c.batch| - from => BufferedRow(c, from + i))
  }

  function Remaining(q: Query, c: Cursor): Stream
    requires Sound(q, c)
  {
    var later := Owed(q, c.next);
    Stream(Buffered(c, c.at) + later.rows, later.ending)
  }

  /** What every reachable cursor satisfies. */
  ghost predicate Sound(q: Query, c: Cursor) {
    && Placed(q, c)
    && c.at <= |c.batch|
    && (forall p :: p in c.truncated ==> p.0 < |c.batch| && p.1 < |c.batch[p.0]|)
    && (c.failed ==> c.batch == [] && c.next.None?)
  }

  lemma LoadedIsWire(q: Query, c: Cursor, uri: Uri, rows: seq<seq<Json>>)
    requires uri < |q.chain| && !c.failed
    ensures var l := Loaded(q, c, uri, rows);
            Sound(q, l) && Buffered(l, 0) == WireRows(rows, q)
  {
    var l := Loaded(q, c, uri, rows);
    forall r | 0 <= r < |rows|
      ensures BufferedRow(l, r) == WireRow(rows[r], q)
    {
      assert BufferedRow(l, r).lossy == LossyColumns(rows[r], q);
    }
  }

  lemma TakeBuffered(q: Query, c: Cursor)
    requires Sound(q, c) && c.at < |c.batch|
    ensures var after := c.(at := c.at + 1); var owed := Remaining(q, c);
            && Sound(q, after) && owed.rows != []
            && BufferedRow(after, c.at) == owed.rows[0]
            && Remaining(q, after) == Stream(owed.rows[1..], owed.ending)
  {
    var after := c.(at := c.at + 1);
    assert forall r :: 0 <= r < |c.batch| ==> BufferedRow(after, r) == BufferedRow(c, r);
    assert Buffered(c, c.at) == [BufferedRow(c, c.at)] + Buffered(after, after.at);
  }

  /**
   * One fetch of a live cursor takes the next owed row and nothing else, or
   * ends the stream the way it ends.
   */
  lemma {:induction false} AdvanceTakesNext(q: Query, c: Cursor)
    requires Sound(q, c) && !c.failed
    ensures var f := Advance(q, true, false, c); var owed := Remaining(q, c);
            && Sound(q, f.cursor)
            && if owed.rows != [] then
                 && f.outcome == RowReady && !f.noted && !f.cursor.failed && f.cursor.at > 0
                 && BufferedRow(f.cursor, f.cursor.at - 1) == owed.rows[0]
                 && Remaining(q, f.cursor) == Stream(owed.rows[1..], owed.ending)
               else match owed.ending
                 case Exhausted =>
                   f.outcome == NoData && !f.noted && !f.cursor.failed && Remaining(q, f.cursor) == owed
                 case Stops(Killed) =>
                   f.outcome == Cancelled && f.noted && !f.cursor.failed
                   && Remaining(q, f.cursor) == Stream([], Exhausted)
                 case Stops(Broken) => f.outcome == Failure && f.noted && f.cursor.failed
    decreases if c.next.Some? then |q.chain| - c.next.value else 0
  {
    hide Advance, Remaining, BufferedRow;
    if c.at < |c.batch| {
      TakeBuffered(q, c);
      AdvanceRests(q, true, false, c);
    } else if c.next.Some? && PageRows(q.chain[c.next.value]).Rows? {
      LoadKeepsOwed(q, c);
      AdvanceLoads(q, c, []);
      AdvanceTakesNext(q, Loaded(q, c, c.next.value, PageRows(q.chain[c.next.value]).rows));
    } else {
      StreamEnds(q, c);
    }
  }

  /** Loading a page changes what is buffered, not what is owed. */
  lemma LoadKeepsOwed(q: Query, c: Cursor)
    requires Sound(q, c) && !c.failed && c.at >= |c.batch|
    requires c.next.Some? && PageRows(q.chain[c.next.value]).Rows?
    ensures var l := Loaded(q, c, c.next.value, PageRows(q.chain[c.next.value]).rows);
            Sound(q, l) && !l.failed && Remaining(q, l) == Remaining(q, c)
  {
    LoadedIsWire(q, c, c.next.value, PageRows(q.chain[c.next.value]).rows);
    assert Buffered(c, c.at) == [];
  }

  /** With nothing buffered and no page that can be had, the stream ends. */
  lemma StreamEnds(q: Query, c: Cursor)
    requires Sound(q, c) && !c.failed && c.at >= |c.batch|
    requires c.next.Some? ==> PageRows(q.chain[c.next.value]).Undecodable?
    ensures var f := Advance(q, true, false, c); var owed := Remaining(q, c);
            && owed.rows == [] && Sound(q, f.cursor)
            && match owed.ending
               case Exhausted =>
                 f.outcome == NoData && !f.noted && !f.cursor.failed && Remaining(q, f.cursor) == owed
               case Stops(Killed) =>
                 f.outcome == Cancelled && f.noted && !f.cursor.failed
                 && Remaining(q, f.cursor) == Stream([], Exhausted)
               case Stops(Broken) => f.outcome == Failure && f.noted && f.cursor.failed
  {
    assert Buffered(c, c.at) == [];
  }

  /** The `n`-th of a run of fetches, counting from zero, with no cancel in between. */
  function NthFetch(q: Query, c: Cursor, n: nat): (f: Fetched)
    requires Placed(q, c)
    ensures Placed(q, f.cursor)
  {
    if n == 0 then Fetch(q, true, false, c)
    else Fetch(q, true, false, NthFetch(q, c, n - 1).cursor)
  }

  /** What the `n`-th fetch must answer, read off the flat stream alone. */
  function Expected(s: Stream, n: nat): Outcome {
    if n < |s.rows| then RowReady
    else match s.ending
      case Exhausted => NoData
      case Stops(Killed) => if n == |s.rows| then Cancelled else NoData
      case Stops(Broken) => if n == |s.rows| then Failure else Abandoned
  }

  ghost predicate Matches(q: Query, s: Stream, n: nat, f: Fetched) {
    && Sound(q, f.cursor)
    && f.outcome == Expected(s, n)
    && (f.noted <==> n == |s.rows| && s.ending.Stops?)
    && (n < |s.rows| ==> f.cursor.at > 0 && BufferedRow(f.cursor, f.cursor.at - 1) == s.rows[n])
    && (f.cursor.failed <==> n >= |s.rows| && s.ending == Stops(Broken))
    && (!f.cursor.failed ==>
          Remaining(q, f.cursor) ==
            if n < |s.rows| then Stream(s.rows[n + 1..], s.ending) else Stream([], Exhausted))
  }

  lemma MatchStep(q: Query, s: Stream, n: nat, f: Fetched)
    requires Matches(q, s, n, f)
    ensures Matches(q, s, n + 1, Fetch(q, true, false, f.cursor))
  {
    hide Advance, Remaining, BufferedRow;
    if !f.cursor.failed {
      AdvanceTakesNext(q, f.cursor);
      if n + 1 < |s.rows| {
        assert s.rows[n + 1..][0] == s.rows[n + 1];
        assert s.rows[n + 1..][1..] == s.rows[n + 2..];
      }
    }
  }

  /**
   * The paged cursor refines the flat result set: for every chain, with any
   * number of empty pages and a failure anywhere or nowhere, the `n`-th fetch
   * stands on the `n`-th row while there is one, then ends as the chain ends;
   * exhaustion repeats NoData for ever, a failure repeats 24000 for ever, and a
   * kill by somebody else is reported once and is NoData afterwards.
   */
  lemma {:induction false} FetchingReadsTheStream(q: Query, c: Cursor, n: nat)
    requires Sound(q, c) && !c.failed
    ensures Matches(q, Remaining(q, c), n, NthFetch(q, c, n))
  {
    hide Advance, Owed, Buffered, BufferedRow;
    var s := Remaining(q, c);
    if n == 0 {
      AdvanceTakesNext(q, c);
      if s.rows != [] {
        assert s.rows[0 + 1..] == s.rows[1..];
      }
    } else {
      FetchingReadsTheStream(q, c, n - 1);
      MatchStep(q, s, n - 1, NthFetch(q, c, n - 1));
    }
  }

  /**
   * After a kill ended the stream, a further fetch reports the cancellation
   * again iff the statement's own cancel flag is set; a kill by somebody else
   * reads as the end of the result set instead.
   */
  lemma KilledThenFetched(q: Query, c: Cursor, stopped: bool)
    requires Sound(q, c) && !c.failed
    requires Remaining(q, c) == Stream([], Stops(Killed))
    ensures var f := Fetch(q, true, false, c);
            && f.outcome == Cancelled
            && Placed(q, f.cursor)
            && Fetch(q, true, stopped, f.cursor).outcome == (if stopped then Cancelled else NoData)
  {
    AdvanceTakesNext(q, c);
    var f := Advance(q, true, false, c);
    AdvanceTakesNext(q, f.cursor);
  }

  /** Reading a column of the row just fetched gives its value and arms the warning exactly when it lost digits. */
  lemma GetDataReadsTheRow(q: Query, c: Cursor, col: nat)
    requires Sound(q, c) && c.at > 0
    ensures var (after, cell) := GetData(c, col); var row := BufferedRow(c, c.at - 1);
            && (1 <= col <= |row.values| ==>
                cell == Value(row.values[col - 1]) && (after.warning <==> col - 1 in row.lossy))
            && (!(1 <= col <= |row.values|) ==> cell == OutOfRange)
            && (col > |row.values| ==> !after.warning)
            && (col == 0 ==> after == c)
            && after == c.(warning := after.warning)
  {
  }

  // ----- any order of calls

  /** A call on the statement, with what the shared flags say while it runs. */
  datatype Op =
    | DoFetch(stopped: bool)
    | DoGetData(col: nat)
    | DoTakeWarning
    | DoClose(stopped: bool, outlived: bool)
    | DoDrop(stopped: bool, outlived: bool)

  function Apply(q: Query, connected: bool, c: Cursor, op: Op): (r: (Cursor, seq<Uri>))
    requires Placed(q, c)
    ensures Placed(q, r.0)
  {
    match op
    case DoFetch(stopped) =>
      var f := Fetch(q, connected, stopped, c); (f.cursor, f.requested)
    case DoGetData(col) => (if c.at <= |c.batch| then GetData(c, col).0 else c, [])
    case DoTakeWarning => (c.(warning := false), [])
    case DoClose(stopped, outlived) =>
      var k := Close(q, connected, stopped, outlived, c); (k.cursor, k.requested)
    case DoDrop(stopped, outlived) =>
      var k := Drop(q, connected, stopped, outlived, c); (k.cursor, k.requested)
  }

  function Range(from: nat, to: nat): (s: seq<Uri>)
    requires from <= to
    ensures |s| == to - from && forall i :: 0 <= i < |s| ==> s[i] == from + i
  {
    seq(to - from, i => from + i)
  }

  lemma RangeFrom(uri: Uri, more: seq<Uri>)
    requires more == [] || more == Range(uri + 1, uri + 1 + |more|)
    ensures [uri] + more == Range(uri, uri + 1 + |more|)
  {
  }

  lemma {:induction false} AdvanceIsSound(q: Query, connected: bool, stopped: bool, c: Cursor)
    requires Sound(q, c) && !c.failed
    ensures var f := Advance(q, connected, stopped, c);
            && Sound(q, f.cursor)
            && f.outcome != Abandoned
            && (f.outcome == RowReady ==> f.cursor.at > 0)
            && (f.outcome in {Cancelled, Failure} ==> f.cursor.at == 0 && f.cursor.batch == [] && f.cursor.next.None?)
            && (f.outcome == Failure <==> f.cursor.failed)
            && (c.next.None? ==> f.requested == [] && f.cursor.next.None?)
            && (c.next.Some? ==>
                var to := c.next.value + |f.requested|;
                && to <= |q.chain| && f.requested == Range(c.next.value, to)
                && (f.cursor.next.Some? ==> f.cursor.next.value == to))
    decreases if c.next.Some? then |q.chain| - c.next.value else 0
  {
    hide Converted, TruncatedCells;
    var f := Advance(q, connected, stopped, c);
    if c.next.Some? {
      var uri := c.next.value;
      if stopped || c.at < |c.batch| || !connected {
        assert f.requested == Range(uri, uri);
      } else if PageRows(q.chain[uri]).Rows? {
        var rows := PageRows(q.chain[uri]).rows;
        var l := Loaded(q, c, uri, rows);
        LoadedIsWire(q, c, uri, rows);
        AdvanceIsSound(q, connected, stopped, l);
        var g := Advance(q, connected, stopped, l);
        RangeFrom(uri, g.requested);
      } else {
        assert f.requested == Range(uri, uri + 1);
      }
    }
  }

  /** A drain requests the chain in order, all of it iff no request is lost. */
  lemma {:induction false} DrainInOrder(chain: seq<Reply>, uri: Uri)
    requires uri < |chain|
    ensures var (requested, failure) := Drain(chain, uri);
            && (exists to: nat :: uri < to <= |chain| && requested == Range(uri, to))
            && (failure.None? <==> forall k :: uri <= k < |chain| ==> chain[k].Page?)
            && (failure.None? ==> requested == Range(uri, |chain|))
            && (failure.Some? ==> requested != [] && chain[requested[|requested| - 1]] == Lost(failure.value))
    decreases |chain| - uri
  {
    if chain[uri].Page? && uri + 1 < |chain| {
      DrainInOrder(chain, uri + 1);
      var (rest, failure) := Drain(chain, uri + 1);
      var to: nat :| uri + 1 < to <= |chain| && rest == Range(uri + 1, to);
      assert Drain(chain, uri).0 == Range(uri, to);
    } else {
      assert Drain(chain, uri).0 == Range(uri, uri + 1);
    }
  }

  /**
   * Closing a live, uncancelled result set without an error has requested the
   * whole remaining chain; a cancelled or outlived one requests nothing; either
   * way nothing is left to read and the handle is reusable.
   */
  lemma CloseRequests(q: Query, stopped: bool, outlived: bool, c: Cursor)
    requires Sound(q, c)
    ensures var k := Close(q, true, stopped, outlived, c);
            && k.cursor == EMPTY_CURSOR.(warning := c.warning)
            && (stopped || outlived ==> k.requested == [] && k.failure.None?)
            && (c.next.Some? && !stopped && !outlived ==>
                && (k.failure.None? <==> forall u :: c.next.value <= u < |q.chain| ==> q.chain[u].Page?)
                && (k.failure.None? ==> k.requested == Range(c.next.value, |q.chain|)))
  {
    if c.next.Some? {
      DrainInOrder(q.chain, c.next.value);
    }
  }

  /** The pages requested so far are the first `asked`, and the next is the one after them. */
  ghost predicate InOrder(q: Query, c: Cursor, log: seq<Uri>) {
    && Sound(q, c)
    && |log| <= |q.chain| && log == Range(0, |log|)
    && (c.next.Some? ==> c.next.value == |log|)
  }

  lemma ExtendRange(log: seq<Uri>, more: seq<Uri>, to: nat)
    requires log == Range(0, |log|) && |log| <= to && more == Range(|log|, to)
    ensures log + more == Range(0, to)
  {
  }

  lemma ApplyKeepsOrder(q: Query, connected: bool, c: Cursor, log: seq<Uri>, op: Op)
    requires InOrder(q, c, log)
    ensures var (after, requested) := Apply(q, connected, c, op);
            InOrder(q, after, log + requested)
  {
    var (after, requested) := Apply(q, connected, c, op);
    match op
    case DoFetch(stopped) =>
      if !c.failed {
        AdvanceIsSound(q, connected, stopped, c);
        if c.next.Some? {
          ExtendRange(log, requested, |log| + |requested|);
        }
      }
    case DoGetData(_) =>
    case DoTakeWarning =>
    case DoClose(_, _) => CloseKeepsOrder(q, c, log);
    case DoDrop(_, _) => CloseKeepsOrder(q, c, log);
    if requested == [] {
      assert log + requested == log;
    }
  }

  lemma CloseKeepsOrder(q: Query, c: Cursor, log: seq<Uri>)
    requires InOrder(q, c, log)
    ensures c.next.Some? ==>
              (exists to: nat :: |log| <= to <= |q.chain| && log + Drain(q.chain, c.next.value).0 == Range(0, to))
  {
    if c.next.Some? {
      DrainInOrder(q.chain, |log|);
      var requested := Drain(q.chain, |log|).0;
      var to: nat :| |log| < to <= |q.chain| && requested == Range(|log|, to);
      ExtendRange(log, requested, to);
    }
  }

  function Replay(q: Query, connected: bool, c: Cursor, log: seq<Uri>, ops: seq<Op>): (Cursor, seq<Uri>)
    requires Placed(q, c)
    decreases |ops|
  {
    if ops == [] then (c, log)
    else
      var (after, requested) := Apply(q, connected, c, ops[0]);
      Replay(q, connected, after, log + requested, ops[1..])
  }

  /**
   * Over every sequence of calls, each page URI is requested at most once and
   * in chain order, across metadata polling, fetching, closing and dropping.
   */
  lemma {:induction false} EveryPageOnce(q: Query, connected: bool, c: Cursor, log: seq<Uri>, ops: seq<Op>)
    requires InOrder(q, c, log)
    ensures var (after, requested) := Replay(q, connected, c, log, ops);
            InOrder(q, after, requested) && log <= requested
    decreases |ops|
  {
    if ops != [] {
      ApplyKeepsOrder(q, connected, c, log, ops[0]);
      var (after, requested) := Apply(q, connected, c, ops[0]);
      EveryPageOnce(q, connected, after, log + requested, ops[1..]);
    }
  }

  /** Submitting polls pages in order up to the first described one, which the cursor then holds. */
  lemma {:induction false} OpenInOrder(chain: seq<Reply>, uri: Uri)
    requires uri < |chain|
    ensures var (opening, requested) := Open(chain, uri);
            && (opening.Opened? ==>
                && uri <= opening.page < |chain| && requested == Range(uri, opening.page + 1)
                && chain[opening.page] == Page(None, Rows(opening.rows), true)
                && forall k :: uri <= k < opening.page ==>
                     chain[k].Page? && chain[k].error.None? && !chain[k].described)
            && (opening.NoColumns? <==>
                forall k :: uri <= k < |chain| ==> chain[k].Page? && chain[k].error.None? && !chain[k].described)
            && (exists to: nat :: uri < to <= |chain| && requested == Range(uri, to))
    decreases |chain| - uri
  {
    var (opening, requested) := Open(chain, uri);
    match chain[uri]
    case Page(None, _, false) =>
      if uri + 1 < |chain| {
        OpenInOrder(chain, uri + 1);
        var rest := Open(chain, uri + 1).1;
        var to: nat :| uri + 1 < to <= |chain| && rest == Range(uri + 1, to);
        assert requested == Range(uri, to);
      } else {
        assert requested == Range(uri, uri + 1);
      }
    case _ =>
      assert requested == Range(uri, uri + 1);
  }

  /**
   * A refused opening is the trouble of the last page polled: lost, or with an
   * error, or described and undecodable, after pages that were none of these.
   */
  lemma {:induction false} RefusalIsTrouble(chain: seq<Reply>, uri: Uri)
    requires uri < |chain| && Open(chain, uri).0.Refused?
    ensures var (opening, requested) := Open(chain, uri);
            && requested != []
            && var last := uri + |requested| - 1;
            && last < |chain|
            && !Carries(chain[last]) && opening.verdict == Trouble(chain[last])
            && (chain[last].Page? && chain[last].error.None? ==> chain[last].described)
            && forall k :: uri <= k < last ==>
                 chain[k].Page? && chain[k].error.None? && !chain[k].described
    decreases |chain| - uri
  {
    match chain[uri]
    case Page(None, _, false) => RefusalIsTrouble(chain, uri + 1);
    case _ =>
  }

  /**
   * A submitted query starts in order, so the two lemmas above and below cover
   * its whole life; and it owes exactly the rows of the pages from the first
   * described one on.
   */
  lemma OpenedIsInOrder(q: Query)
    requires q.chain != [] && Open(q.chain, 0).0.Opened?
    ensures var (opening, requested) := Open(q.chain, 0);
            && opening.page < |q.chain|
            && InOrder(q, OpenedCursor(q, opening.page, opening.rows), requested)
            && Remaining(q, OpenedCursor(q, opening.page, opening.rows)) == Owed(q, Some(opening.page))
  {
    OpenInOrder(q.chain, 0);
    var (opening, requested) := Open(q.chain, 0);
    LoadedIsWire(q, EMPTY_CURSOR, opening.page, opening.rows);
  }

  /**
   * No abandoned row is readable: after a fetch that failed or found the query
   * cancelled, a read is refused; and after a failure every further fetch
   * answers 24000 with no request, until the cursor is closed.
   */
  lemma AbandonedIsUnreadable(q: Query, connected: bool, stopped: bool, later: bool, c: Cursor, col: nat)
    requires Sound(q, c)
    requires Fetch(q, connected, stopped, c).outcome in {Cancelled, Failure, Abandoned}
    ensures var f := Fetch(q, connected, stopped, c);
            && f.cursor.at == 0 && Sound(q, f.cursor)
            && GetData(f.cursor, col) == (f.cursor, NotFetched)
            && (f.outcome != Cancelled ==>
                Fetch(q, connected, later, f.cursor) == Fetched(f.cursor, Abandoned, [], false)
                && !Close(q, connected, stopped, later, f.cursor).cursor.failed)
  {
    if !c.failed {
      AdvanceIsSound(q, connected, stopped, c);
    }
  }

  // ----- from the wire to the application

  /** The rows the pages from `next` on carry as sent, up to the first page that cannot be had. */
  function RawRows(q: Query, next: Option<Uri>): seq<seq<Json>>
    requires next.Some? ==> next.value < |q.chain|
    decreases if next.Some? then |q.chain| - next.value else 0
  {
    match next
    case None => []
    case Some(uri) =>
      match PageRows(q.chain[uri])
      case Undecodable(_) => []
      case Rows(rows) => rows + RawRows(q, NextAfter(q.chain, uri))
  }

  /** The rows of a run of pages, one after the other. */
  function RowsOf(pages: seq<Reply>): seq<seq<Json>>
    requires forall i :: 0 <= i < |pages| ==> Carries(pages[i])
  {
    if pages == [] then []
    else
      assert Carries(pages[0]);
      pages[0].data.rows + RowsOf(pages[1..])
  }

  /** The first page from `from` on that carries no rows, or the end of the chain. */
  function FirstTrouble(chain: seq<Reply>, from: nat): (stop: nat)
    requires from <= |chain|
    ensures from <= stop <= |chain|
    ensures forall i :: from <= i < stop ==> Carries(chain[i])
    ensures stop < |chain| ==> !Carries(chain[stop])
    decreases |chain| - from
  {
    if from == |chain| || !Carries(chain[from]) then from
    else FirstTrouble(chain, from + 1)
  }

  function At(q: Query, from: nat): (next: Option<Uri>)
    ensures next.Some? ==> next.value < |q.chain|
  {
    if from < |q.chain| then Some(from) else None
  }

  /**
   * The stream a chain stands for: the rows of the pages before the first one
   * that was lost, carries an error or cannot be decoded, ended by that page's
   * trouble, or by exhaustion if there is none.
   */
  lemma {:induction false} StreamIsThePages(q: Query, from: nat)
    requires from <= |q.chain|
    ensures var stop := FirstTrouble(q.chain, from);
            && RawRows(q, At(q, from)) == RowsOf(q.chain[from..stop])
            && Owed(q, At(q, from)).ending
               == if stop == |q.chain| then Exhausted else Stops(Trouble(q.chain[stop]))
    decreases |q.chain| - from
  {
    if from < |q.chain| && Carries(q.chain[from]) {
      StreamIsThePages(q, from + 1);
      var stop := FirstTrouble(q.chain, from + 1);
      assert q.chain[from..stop][1..] == q.chain[from + 1..stop];
      assert At(q, from + 1) == NextAfter(q.chain, from);
    } else {
      assert q.chain[from..from] == [];
    }
  }

  /** What is owed is what was sent, row for row. */
  lemma {:induction false} OwedIsRaw(q: Query, next: Option<Uri>)
    requires next.Some? ==> next.value < |q.chain|
    ensures |Owed(q, next).rows| == |RawRows(q, next)|
    ensures forall n :: 0 <= n < |RawRows(q, next)| ==> Owed(q, next).rows[n] == WireRow(RawRows(q, next)[n], q)
    decreases if next.Some? then |q.chain| - next.value else 0
  {
    hide WireRow;
    if next.Some? && PageRows(q.chain[next.value]).Rows? {
      OwedIsRaw(q, NextAfter(q.chain, next.value));
    }
  }

  /** The cursor of a submitted query that has columns. */
  function Submitted(q: Query): Cursor
    requires q.chain != [] && Open(q.chain, 0).0.Opened?
  {
    var opening := Open(q.chain, 0).0;
    OpenedCursor(q, opening.page, opening.rows)
  }

  /** The rows of a submitted query as sent: those of the pages from the first described one on. */
  function Sent(q: Query): seq<seq<Json>>
    requires q.chain != [] && Open(q.chain, 0).0.Opened?
  {
    RawRows(q, Some(Open(q.chain, 0).0.page))
  }

  /**
   * End to end: the column read after the `n`-th fetch of a submitted query is
   * the conversion of that cell of the `n`-th row sent. A warning means the
   * conversion lost digits, and without one it is exact iff the cell's text is
   * legible.
   */
  lemma WireCellDelivered(q: Query, n: nat, col: nat)
    requires q.chain != [] && Open(q.chain, 0).0.Opened?
    requires n < |Sent(q)| && 1 <= col <= |Sent(q)[n]| && col <= |q.types|
    requires Parses(Sent(q)[n][col - 1], q.types[col - 1], q.zone)
    ensures var c := NthFetch(q, Submitted(q), n).cursor;
            var (wire, ty) := (Sent(q)[n][col - 1], q.types[col - 1]);
            && c.at <= |c.batch|
            && var (after, cell) := GetData(c, col);
            && cell == Value(Convert(wire, ty, q.zone))
            && (after.warning ==> !Exact(wire, ty, cell.value))
            && (!after.warning ==> (Exact(wire, ty, cell.value) <==> Legible(wire, ty)))
  {
    var c := Submitted(q);
    OpenedIsInOrder(q);
    OwedIsRaw(q, Some(Open(q.chain, 0).0.page));
    assert Remaining(q, c).rows[n] == WireRow(Sent(q)[n], q);
    CellOfRow(q, c, n, Sent(q)[n], col);
  }

  lemma CellOfRow(q: Query, c: Cursor, n: nat, row: seq<Json>, col: nat)
    requires Sound(q, c) && !c.failed
    requires n < |Remaining(q, c).rows| && Remaining(q, c).rows[n] == WireRow(row, q)
    requires 1 <= col <= |row| && col <= |q.types|
    requires Parses(row[col - 1], q.types[col - 1], q.zone)
    ensures NthFetch(q, c, n).cursor.at <= |NthFetch(q, c, n).cursor.batch|
    ensures var (after, cell) := GetData(NthFetch(q, c, n).cursor, col);
            var (wire, ty) := (row[col - 1], q.types[col - 1]);
            && cell == Value(Convert(wire, ty, q.zone))
            && (after.warning ==> !Exact(wire, ty, cell.value))
            && (!after.warning ==> (Exact(wire, ty, cell.value) <==> Legible(wire, ty)))
  {
    hide Exact, Parses, Legible, Convert, Discards, NthFetch, Remaining, GetData;
    FetchingReadsTheStream(q, c, n);
    GetDataReadsTheRow(q, NthFetch(q, c, n).cursor, col);
    DiscardsIffInexact(row[col - 1], q.types[col - 1], q.zone);
  }

  /**
   * The whole result set of a submitted query: the `n`-th fetch stands on the
   * conversion of the `n`-th row of the pages from the first described one up to
   * the first in trouble; then the trouble is answered and noted once, HY008 for
   * a kill, and after it NoData, or 24000 where it was a failure.
   */
  lemma SubmittedReadsThePages(q: Query, n: nat)
    requires q.chain != [] && Open(q.chain, 0).0.Opened?
    ensures var page := Open(q.chain, 0).0.page;
            && page < |q.chain|
            && var stop := FirstTrouble(q.chain, page);
            var rows := RowsOf(q.chain[page..stop]);
            var f := NthFetch(q, Submitted(q), n);
            && (n < |rows| ==>
                  && f.outcome == RowReady && 0 < f.cursor.at <= |f.cursor.batch|
                  && f.cursor.batch[f.cursor.at - 1] == ConvertedRow(rows[n], q))
            && (n == |rows| ==>
                  f.outcome == if stop == |q.chain| then NoData
                               else if Trouble(q.chain[stop]).Killed? then Cancelled else Failure)
            && (n > |rows| ==>
                  f.outcome == if stop < |q.chain| && Trouble(q.chain[stop]).Broken? then Abandoned else NoData)
            && (f.noted <==> n == |rows| && stop < |q.chain|)
  {
    var c := Submitted(q);
    var page := Open(q.chain, 0).0.page;
    OpenedIsInOrder(q);
    StreamIsThePages(q, page);
    OwedIsRaw(q, Some(page));
    hide NthFetch, Remaining, Owed, Submitted, ConvertedRow, LossyColumns;
    FetchingReadsTheStream(q, c, n);
  }

  /** With its cancel flag set a statement answers HY008 and requests nothing, whatever is buffered. */
  lemma StoppedFetch(q: Query, connected: bool, c: Cursor)
    requires Sound(q, c) && !c.failed
    ensures var f := Fetch(q, connected, true, c);
            f.outcome == Cancelled && f.requested == [] && f.cursor.at == 0 && f.cursor.batch == [] && !f.noted
  {
  }

  /** With the flag clear, HY008 is answered only on the word of a page just requested. */
  lemma {:induction false} KilledByAPage(q: Query, c: Cursor)
    requires Sound(q, c) && !c.failed
    ensures var f := Fetch(q, true, false, c);
            f.outcome == Cancelled ==>
              && f.requested != []
              && var last := f.requested[|f.requested| - 1];
              last < |q.chain| && !Carries(q.chain[last]) && Trouble(q.chain[last]).Killed?
    decreases if c.next.Some? then |q.chain| - c.next.value else 0
  {
    if c.at >= |c.batch| && c.next.Some? && PageRows(q.chain[c.next.value]).Rows? {
      var rows := PageRows(q.chain[c.next.value]).rows;
      LoadedIsWire(q, c, c.next.value, rows);
      KilledByAPage(q, Loaded(q, c, c.next.value, rows));
    }
  }

  /** Dropping a statement with pages left requests what closing it would, and otherwise nothing. */
  lemma DropRequests(q: Query, stopped: bool, outlived: bool, c: Cursor)
    requires Sound(q, c)
    ensures var k := Drop(q, true, stopped, outlived, c);
            && (stopped || outlived || c.next.None? ==> k.requested == [] && k.failure.None?)
            && (c.next.Some? && !stopped && !outlived ==>
                && (k.failure.None? <==> forall u :: c.next.value <= u < |q.chain| ==> q.chain[u].Page?)
                && (k.failure.None? ==> k.requested == Range(c.next.value, |q.chain|)))
            && k.cursor.next.None?
  {
    if c.next.Some? {
      DrainInOrder(q.chain, c.next.value);
    }
  }
}
