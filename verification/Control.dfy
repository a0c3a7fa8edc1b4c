/** The ready state of a transport, the close callback, and the answers it sends, as functions on values. */
module Control {
  import opened Bytes
  import opened Frames
  import opened Messages
  import opened Receiver
  import Text

  const INTERNAL_ERROR: nat := 1011
  const ABNORMAL_CLOSE: nat := 1006
  const INTERNAL_ERROR_MESSAGE := Text.Ascii("Internal error")
  const ABNORMAL_CLOSE_MESSAGE := Text.Ascii("Abnormal closure")
  const SEND_TIMEOUT_MESSAGE := Text.Ascii("Send timeout")
  const PING_TIMEOUT_MESSAGE := Text.Ascii("Ping timeout")

  datatype ReadyState = CLOSING | CLOSED | CONNECTING | OPEN

  /** One run of the close callback. */
  datatype CloseReport = CloseReport(code: nat, reason: seq<byte>, wireSize: nat, remote: bool)

  datatype ControlState = ControlState(
    readyState: ReadyState,
    pending: CloseReport,          // what the callback will be told
    reports: seq<CloseReport>,     // what it has been told
    sessions: nat)                 // how often the state has left CLOSED
  {
    /** The callback has run once for every session that is over. */
    predicate Consistent() {
      |reports| + (if readyState == CLOSED then 0 else 1) == sessions
    }
  }

  const DEFAULT_REPORT := CloseReport(INTERNAL_ERROR, INTERNAL_ERROR_MESSAGE, 0, false)
  const INITIAL := ControlState(CLOSED, DEFAULT_REPORT, [], 0)

  function SetReadyState(c: ControlState, s: ReadyState): ControlState {
    if c.readyState == s then c
    else if s == CLOSED then ControlState(CLOSED, DEFAULT_REPORT, c.reports + [c.pending], c.sessions)
    else c.(readyState := s, sessions := if c.readyState == CLOSED then c.sessions + 1 else c.sessions)
  }

  function SwitchToClosed(c: ControlState, report: CloseReport): ControlState {
    SetReadyState(c.(pending := report), CLOSED)
  }

  /** close(): announces the closure, unless the transport is closing or closed already. */
  function BeginClose(c: ControlState, report: CloseReport): ControlState {
    if c.readyState == CLOSING || c.readyState == CLOSED then c
    else
      var size := if report.wireSize == 0 then |report.reason| else report.wireSize;
      SetReadyState(c.(pending := report.(wireSize := size)), CLOSING)
  }

  /** A CLOSE frame arrives: echoed and reported as remote, or the answer to our own. */
  function ReceiveClose(c: ControlState, status: Status, wireSize: nat): ControlState {
    if c.readyState != CLOSING then
      SwitchToClosed(SetReadyState(c, CLOSING), CloseReport(status.code, status.reason, wireSize, true))
    else if c.pending.code == status.code && c.pending.reason == status.reason then
      SwitchToClosed(c, CloseReport(status.code, status.reason, wireSize, false))
    else c
  }

  /** The connection broke: a closure under way is completed, otherwise it is reported as abnormal. */
  function Break(c: ControlState): ControlState {
    if c.readyState == CLOSING then SetReadyState(c, CLOSED)
    else if c.readyState != CLOSED then
      SwitchToClosed(c, CloseReport(ABNORMAL_CLOSE, ABNORMAL_CLOSE_MESSAGE, 0, false))
    else c
  }

  // ---- What dispatching makes of the events ----

  /** The states in which close() announces the closure to the peer. */
  predicate Announced(s: ReadyState) { s != CLOSING && s != CLOSED }

  /** The states in which something is sent at all. */
  predicate Sends(s: ReadyState) { s == OPEN || s == CLOSING }

  /** A transport as its peer sees it: its state, and the pieces it has sent. */
  datatype Line = Line(control: ControlState, sent: seq<Piece>)

  function Announce(l: Line, report: CloseReport): Line {
    if Announced(l.control.readyState)
    then Line(BeginClose(l.control, report), l.sent + AllPieces(CLOSE, ClosePayload(report.code, report.reason)))
    else l
  }

  /** What the transport does about an event while its buffer holds so many octets. */
  function React(l: Line, e: Event, size: nat): Line {
    match e
    case Deliver(_, _) => l
    case Reply(data) =>
      if Sends(l.control.readyState) then Line(l.control, l.sent + AllPieces(PONG, data)) else l
    case Fail(code, reason, measured) =>
      Announce(l, CloseReport(code, reason, if measured then size else 0, false))
    case PeerClose(code, reason) =>
      Line(
        ReceiveClose(l.control, Status(code, reason), size),
        if l.control.readyState == CLOSING then l.sent else l.sent + AllPieces(CLOSE, ClosePayload(code, reason)))
  }

  function Reacting(size: nat): (Line, Event) -> Line {
    (l, e) => React(l, e, size)
  }

  function ReactAll(l: Line, events: seq<Event>, size: nat): Line {
    Fold(Reacting(size), l, events)
  }

  lemma ReactOne(l: Line, e: Event, size: nat)
    ensures ReactAll(l, [e], size) == React(l, e, size)
  {
    FoldOne(Reacting(size), l, e);
  }

  lemma ReactConcat(l: Line, a: seq<Event>, b: seq<Event>, size: nat)
    ensures ReactAll(l, a + b, size) == ReactAll(ReactAll(l, a, size), b, size)
  {
    FoldConcat(Reacting(size), l, a, b);
  }

  /** A message is sent, in the states in which anything is. */
  function Said(l: Line, opcode: nat, message: seq<byte>): Line {
    if Sends(l.control.readyState) then Line(l.control, l.sent + AllPieces(opcode, message)) else l
  }

  /** A heartbeat of an open connection: a message, or the end of it when the last PING was not answered. */
  function Beaten(l: Line, answered: bool, opcode: nat, message: seq<byte>): Line {
    if opcode == PING && !answered
    then Announce(l, CloseReport(INTERNAL_ERROR, PING_TIMEOUT_MESSAGE, 0, false))
    else Said(l, opcode, message)
  }

  /** A new session, and the heartbeat it begins with. */
  function SessionStart(l: Line, heartbeat: Option<(nat, seq<byte>)>): Line {
    var begun := Line(SetReadyState(l.control, OPEN), l.sent);
    if heartbeat.Some? then Said(begun, heartbeat.value.0, heartbeat.value.1) else begun
  }

  function BeatenIfOpen(l: Line, answered: bool, heartbeat: Option<(nat, seq<byte>)>): Line {
    if l.control.readyState == OPEN && heartbeat.Some?
    then Beaten(l, answered, heartbeat.value.0, heartbeat.value.1)
    else l
  }

  /** A closure under way may be completed without the peer; nothing else changes by waiting. */
  predicate Expired(l: Line, l': Line) {
    l' == l || (l.control.readyState == CLOSING && l' == Line(SetReadyState(l.control, CLOSED), l.sent))
  }

  /** What happens in one turn of the dispatch loop, by the front it finds. */
  function TurnEvents(f: Front, d: Decoder, pong: bool): seq<Event> {
    if f.Whole? then Consume(d, f.piece, pong).events else if Blocked(f) then BlockedEvents(f) else []
  }

  /** A whole dispatch, as the peer sees it. */
  function Settle(l: Line, d: Decoder, buf: seq<byte>, pong: bool): Line
    decreases |buf|
  {
    var f := FrontOf(buf);
    var after := ReactAll(l, TurnEvents(f, d, pong), |buf|);
    if f.Whole? then Settle(after, Consume(d, f.piece, pong).decoder, buf[f.total..], pong) else after
  }
}
