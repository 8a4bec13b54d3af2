/**
 * A result set streamed as a chain of pages, one page buffered at a time:
 * what one fetch, one read, one close does to the cursor, as functions.
 *
 * `Statement` holds the driver's own loops and proves them equal to these.
 */
module Paging {
  import opened Wrappers
  import opened ValueConversion

  /** Why a page could not be had: the query was killed, or anything else. */
  datatype Verdict = Killed | Broken

  datatype Data = Rows(rows: seq<seq<Json>>) | Undecodable(verdict: Verdict)

  /**
   * What a page request is answered with. A page may carry an error, and only
   * some pages carry the column metadata (`described`).
   */
  datatype Reply =
    | Lost(verdict: Verdict)
    | Page(error: Option<Verdict>, data: Data, described: bool)

  /** A running query: its finite chain of pages, its column types and session zone. */
  datatype Query = Query(chain: seq<Reply>, types: seq<TrinoTy>, zone: Zone)

  /** Page URIs are positions in the chain; each page names the one after it. */
  type Uri = nat

  function NextAfter(chain: seq<Reply>, uri: Uri): Option<Uri> {
    if uri + 1 < |chain| then Some(uri + 1) else None
  }

  /**
   * The buffered page, its cells that lost digits, the warning armed by the
   * last read, the one-based row the cursor stands on, and the next page.
   */
  datatype Cursor = Cursor(
    batch: seq<seq<ColumnValue>>,
    truncated: set<(nat, nat)>,
    warning: bool,
    at: nat,
    failed: bool,
    next: Option<Uri>)

  function ConvertedRow(row: seq<Json>, q: Query): seq<ColumnValue> {
    seq(Min(|row|, |q.types|), c requires 0 <= c < Min(|row|, |q.types|) => Convert(row[c], q.types[c], q.zone))
  }

  function Converted(rows: seq<seq<Json>>, q: Query): seq<seq<ColumnValue>> {
    seq(|rows|, r requires 0 <= r < |rows| => ConvertedRow(rows[r], q))
  }

  predicate LosesDigits(row: seq<Json>, q: Query, c: nat) {
    c < |row| && c < |q.types| && Discards(row[c], q.types[c])
  }

  function LossyColumns(row: seq<Json>, q: Query): set<nat> {
    set c: nat | c < |row| && LosesDigits(row, q, c)
  }

  function TruncatedCells(rows: seq<seq<Json>>, q: Query): set<(nat, nat)> {
    set r: nat, c: nat | r < |rows| && c < |rows[r]| && LosesDigits(rows[r], q, c) :: (r, c)
  }

  // ----- one step of each operation

  /** `Cancelled` is HY008 and `Abandoned` is 24000. */
  datatype Outcome = RowReady | NoData | Cancelled | Abandoned | Failure | NoClient

  /** The new cursor, the answer, the pages requested, and whether a failure was noted. */
  datatype Fetched = Fetched(cursor: Cursor, outcome: Outcome, requested: seq<Uri>, noted: bool)

  function Discarded(c: Cursor): Cursor {
    c.(batch := [], truncated := {}, at := 0, next := None)
  }

  function EndFetch(c: Cursor, v: Verdict): (Cursor, Outcome) {
    match v
    case Killed => (Discarded(c), Cancelled)
    case Broken => (Discarded(c).(failed := true), Failure)
  }

  predicate Placed(q: Query, c: Cursor) {
    c.next.Some? ==> c.next.value < |q.chain|
  }

  /** The rows of a good page, or why there are none. */
  function PageRows(reply: Reply): Data {
    match reply
    case Lost(v) => Undecodable(v)
    case Page(Some(v), _, _) => Undecodable(v)
    case Page(None, data, _) => data
  }

  function Loaded(q: Query, c: Cursor, uri: Uri, rows: seq<seq<Json>>): Cursor
    requires uri < |q.chain|
  {
    c.(batch := Converted(rows, q), truncated := TruncatedCells(rows, q), at := 0, next := NextAfter(q.chain, uri))
  }

  function Advance(q: Query, connected: bool, stopped: bool, c: Cursor): (f: Fetched)
    requires Placed(q, c)
    ensures Placed(q, f.cursor)
    decreases if c.next.Some? then |q.chain| - c.next.value else 0
  {
    if stopped then Fetched(Discarded(c), Cancelled, [], false)
    else if c.at < |c.batch| then Fetched(c.(at := c.at + 1), RowReady, [], false)
    else if c.next.None? then Fetched(c, NoData, [], false)
    else if !connected then Fetched(c.(next := None), NoClient, [], false)
    else
      var uri := c.next.value;
      match PageRows(q.chain[uri])
      case Undecodable(v) =>
        var (ended, outcome) := EndFetch(c, v);
        Fetched(ended, outcome, [uri], true)
      case Rows(rows) =>
        var f := Advance(q, connected, stopped, Loaded(q, c, uri, rows));
        f.(requested := [uri] + f.requested)
  }

  /** Where no page can be loaded, and where the page asked for has no rows to give. */
  lemma AdvanceRests(q: Query, connected: bool, stopped: bool, c: Cursor)
    requires Placed(q, c)
    ensures var f := Advance(q, connected, stopped, c);
            && (stopped ==> f == Fetched(Discarded(c), Cancelled, [], false))
            && (!stopped && c.at < |c.batch| ==> f == Fetched(c.(at := c.at + 1), RowReady, [], false))
            && (!stopped && c.at >= |c.batch| && c.next.None? ==> f == Fetched(c, NoData, [], false))
            && (!stopped && c.at >= |c.batch| && c.next.Some? && !connected ==>
                  f == Fetched(c.(next := None), NoClient, [], false))
            && (!stopped && c.at >= |c.batch| && c.next.Some? && connected
                && PageRows(q.chain[c.next.value]).Undecodable? ==>
                  var (ended, outcome) := EndFetch(c, PageRows(q.chain[c.next.value]).verdict);
                  f == Fetched(ended, outcome, [c.next.value], true))
  {
  }

  /** A good page costs one request and leaves the rest to the cursor that holds it. */
  lemma AdvanceLoads(q: Query, c: Cursor, sent: seq<Uri>)
    requires Placed(q, c) && c.at >= |c.batch| && c.next.Some?
    requires PageRows(q.chain[c.next.value]).Rows?
    ensures var loaded := Loaded(q, c, c.next.value, PageRows(q.chain[c.next.value]).rows);
            var (f, rest) := (Advance(q, true, false, c), Advance(q, true, false, loaded));
            f.(requested := sent + f.requested)
            == rest.(requested := (sent + [c.next.value]) + rest.requested)
  {
    var uri := c.next.value;
    var rest := Advance(q, true, false, Loaded(q, c, uri, PageRows(q.chain[uri]).rows));
    assert sent + ([uri] + rest.requested) == (sent + [uri]) + rest.requested;
  }

  function Fetch(q: Query, connected: bool, stopped: bool, c: Cursor): (f: Fetched)
    requires Placed(q, c)
    ensures Placed(q, f.cursor)
  {
    if c.failed then Fetched(c, Abandoned, [], false) else Advance(q, connected, stopped, c)
  }

  /** `OutOfRange` is 07009. */
  datatype Cell = Value(value: ColumnValue) | NotFetched | OutOfRange

  function GetData(c: Cursor, col: nat): (Cursor, Cell)
    requires c.at <= |c.batch|
  {
    if c.at == 0 then (c, NotFetched)
    else if col == 0 then (c, OutOfRange)
    else
      var row := c.batch[c.at - 1];
      (c.(warning := (c.at - 1, col - 1) in c.truncated),
       if col - 1 < |row| then Value(row[col - 1]) else OutOfRange)
  }

  /** Requesting pages from `uri` on, until the chain ends or a request is lost. */
  function Drain(chain: seq<Reply>, uri: Uri): (seq<Uri>, Option<Verdict>)
    requires uri < |chain|
    decreases |chain| - uri
  {
    match chain[uri]
    case Lost(v) => ([uri], Some(v))
    case Page(_, _, _) =>
      match NextAfter(chain, uri)
      case None => ([uri], None)
      case Some(next) =>
        var (rest, failure) := Drain(chain, next);
        ([uri] + rest, failure)
  }

  /** A page that arrives leaves the rest of the drain to the page after it. */
  lemma DrainStep(chain: seq<Reply>, uri: Uri, sent: seq<Uri>)
    requires uri < |chain|
    ensures var (requested, failure) := Drain(chain, uri); var after := NextAfter(chain, uri);
            && (chain[uri].Lost? ==> requested == [uri] && failure == Some(chain[uri].verdict))
            && (chain[uri].Page? && after.None? ==> requested == [uri] && failure == None)
            && (chain[uri].Page? && after.Some? ==>
                  sent + requested == (sent + [uri]) + Drain(chain, after.value).0
                  && failure == Drain(chain, after.value).1)
  {
    var after := NextAfter(chain, uri);
    if chain[uri].Page? && after.Some? {
      var rest := Drain(chain, after.value).0;
      assert sent + ([uri] + rest) == (sent + [uri]) + rest;
    }
  }

  datatype Closed = Closed(cursor: Cursor, failure: Option<Verdict>, requested: seq<Uri>)

  function Close(q: Query, connected: bool, stopped: bool, outlived: bool, c: Cursor): Closed
    requires Placed(q, c)
  {
    var (requested, failure) :=
      if stopped || outlived || !connected || c.next.None? then ([], None)
      else Drain(q.chain, c.next.value);
    Closed(Discarded(c).(failed := false), failure, requested)
  }

  /** Dropping a statement closes it, if there is anything left to request. */
  function Drop(q: Query, connected: bool, stopped: bool, outlived: bool, c: Cursor): Closed
    requires Placed(q, c)
  {
    if c.next.Some? then Close(q, connected, stopped, outlived, c) else Closed(c, None, [])
  }

  // ----- submitting a query, up to its first page with metadata

  datatype Opening = Opened(page: Uri, rows: seq<seq<Json>>) | NoColumns | Refused(verdict: Verdict)

  function Open(chain: seq<Reply>, uri: Uri): (r: (Opening, seq<Uri>))
    requires uri < |chain|
    ensures r.0.Opened? ==> r.0.page < |chain|
    decreases |chain| - uri
  {
    match chain[uri]
    case Lost(v) => (Refused(v), [uri])
    case Page(Some(v), _, _) => (Refused(v), [uri])
    case Page(None, data, described) =>
      if described then
        (match data case Undecodable(v) => Refused(v) case Rows(rows) => Opened(uri, rows), [uri])
      else
        match NextAfter(chain, uri)
        case None => (NoColumns, [uri])
        case Some(next) =>
          var (opening, requested) := Open(chain, next);
          (opening, [uri] + requested)
  }

  /** A good page without metadata leaves the opening to the page after it. */
  lemma OpenStep(chain: seq<Reply>, uri: Uri, polled: seq<Uri>)
    requires uri < |chain|
    ensures var (opening, requested) := Open(chain, uri);
            var (reply, after) := (chain[uri], NextAfter(chain, uri));
            && (reply.Lost? || reply.error.Some? ==> opening.Refused? && requested == [uri])
            && (reply.Page? && reply.error.None? && reply.described ==>
                  requested == [uri]
                  && opening == if reply.data.Rows? then Opened(uri, reply.data.rows) else Refused(reply.data.verdict))
            && (reply.Page? && reply.error.None? && !reply.described && after.None? ==>
                  opening == NoColumns && requested == [uri])
            && (reply.Page? && reply.error.None? && !reply.described && after.Some? ==>
                  opening == Open(chain, after.value).0
                  && polled + requested == polled + [uri] + Open(chain, after.value).1)
  {
    var after := NextAfter(chain, uri);
    if after.Some? {
      var rest := Open(chain, after.value).1;
      assert polled + ([uri] + rest) == polled + [uri] + rest;
    }
  }

  const EMPTY_CURSOR := Cursor([], {}, false, 0, false, None)

  function OpenedCursor(q: Query, uri: Uri, rows: seq<seq<Json>>): Cursor
    requires uri < |q.chain|
  {
    Loaded(q, EMPTY_CURSOR, uri, rows)
  }
}
