/**
 * The coordinator's side of one session, as the driver depends on it: it
 * buffers the writes of the open transaction, aborts that transaction on any
 * statement error, refuses to commit an aborted one, and always grants a
 * rollback.
 *
 * A request may be delivered, lost on the way out, or processed with its reply
 * lost on the way back. Every write carries a bookkeeping tag saying whether
 * the driver was told of each step that led to it, so that the effect of lost
 * replies can be stated exactly.
 */
module Coordinator {

  /** A write, by name: what it does to the database plays no part here. */
  type Write = nat

  /**
   * A write the coordinator holds, whether every reply about it arrived, and
   * the number of the transaction that wrote it, nought in autocommit mode.
   */
  datatype Entry = Entry(write: Write, acked: bool, txn: nat)

  datatype Transaction =
    | NoTransaction
    | Active(writes: seq<Entry>)
    | Aborted

  /**
   * `orphans` counts transactions whose id never reached the driver: nobody can
   * name them again, and only the coordinator's idle timeout ends them. `begun`
   * counts the others, and is the number of the latest.
   */
  datatype Server = Server(published: seq<Entry>, open: Transaction, orphans: nat, begun: nat)

  /** What one submitted statement does: writes something, or fails. */
  datatype Work = Succeeds(writes: seq<Write>) | Fails

  datatype Request = Begin | Commit | Rollback | Run(work: Work)

  datatype Wire = Delivered | RequestLost | ReplyLost

  /**
   * A request as it went out: the transaction it named, nought if none, whether
   * the coordinator granted it, and how the wire treated it.
   */
  datatype Sent = Sent(request: Request, txn: nat, granted: bool, wire: Wire)

  /** The session: the server, the id the client holds, and all it has sent. */
  datatype Session = Session(server: Server, held: bool, sent: seq<Sent>)

  const FRESH_SESSION := Session(Server([], NoTransaction, 0, 0), false, [])

  function Tag(writes: seq<Write>, acked: bool, txn: nat): seq<Entry> {
    seq(|writes|, i requires 0 <= i < |writes| => Entry(writes[i], acked, txn))
  }

  function Unacked(entries: seq<Entry>): seq<Entry> {
    seq(|entries|, i requires 0 <= i < |entries| => entries[i].(acked := false))
  }

  /** The server's answer to a request, and whether it granted it. */
  function Process(s: Server, holding: bool, req: Request, told: bool): (Server, bool) {
    match req
    case Begin =>
      if holding then (s, false)
      else if told then (s.(open := Active([]), begun := s.begun + 1), true)
      else (s.(orphans := s.orphans + 1), true)
    case Commit =>
      if holding && s.open.Active? then
        var writes := if told then s.open.writes else Unacked(s.open.writes);
        (s.(published := s.published + writes, open := NoTransaction), true)
      else (s, false)
    case Rollback =>
      if holding then (s.(open := NoTransaction), true) else (s, false)
    case Run(Succeeds(writes)) =>
      if !holding then (s.(published := s.published + Tag(writes, told, 0)), true)
      else if s.open.Active? then (s.(open := Active(s.open.writes + Tag(writes, told, s.begun))), true)
      else (s, false)
    case Run(Fails) =>
      if holding && s.open.Active? then (s.(open := Aborted), false) else (s, false)
  }

  /** The id the client holds after an answer it received. */
  predicate HeldAfter(held: bool, req: Request, granted: bool) {
    match req
    case Begin => held || granted
    case Commit | Rollback => held && !granted
    case Run(_) => held
  }

  /** The number of the transaction a request names. */
  function Named(s: Session): nat {
    if s.held then s.server.begun else 0
  }

  /** Whether the coordinator grants a request, told to the driver or not. */
  predicate Granted(s: Session, req: Request, wire: Wire) {
    !wire.RequestLost? && Process(s.server, s.held, req, wire.Delivered?).1
  }

  /** One round trip: the session afterwards, and whether the driver saw success. */
  function Exchange(s: Session, req: Request, wire: Wire): (Session, bool) {
    var logged := s.(sent := s.sent + [Sent(req, Named(s), Granted(s, req, wire), wire)]);
    match wire
    case RequestLost => (logged, false)
    case ReplyLost => (logged.(server := Process(s.server, s.held, req, false).0), false)
    case Delivered =>
      var (server, granted) := Process(s.server, s.held, req, true);
      (logged.(server := server, held := HeldAfter(s.held, req, granted)), granted)
  }

  /** A page of an earlier statement reporting that its query failed. */
  function FailQuery(s: Session): Session {
    if s.held && s.server.open.Active? then s.(server := s.server.(open := Aborted)) else s
  }

  /** The client the connection talks through. */
  class Client {
    var session: Session

    constructor ()
      ensures session == FRESH_SESSION
    {
      session := FRESH_SESSION;
    }

    method Request(req: Request, wire: Wire) returns (ok: bool)
      modifies this
      ensures (session, ok) == Exchange(old(session), req, wire)
    {
      var (after, granted) := Exchange(session, req, wire);
      session := after;
      ok := granted;
    }
  }
}
