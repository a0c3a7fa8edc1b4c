/** The closing handshake of section 7.1 of RFC 6455, between two transports that read each other's frames. */
module Closing {
  import opened Bytes
  import opened Control
  import opened Frames
  import opened Messages
  import opened Receiver
  import opened RoundTrip
  import Text
  import Utf8

  // ---- Which closures survive the wire ----

  lemma {:induction false} AsciiRuns(d: Utf8.Dfa, s: seq<byte>)
    requires d.state == Utf8.ACCEPT && forall i :: 0 <= i < |s| ==> s[i] < 128
    ensures Utf8.Run(d, s).state == Utf8.ACCEPT
    decreases |s|
  {
    if s != [] {
      AsciiStays(d, s[0]);
      AsciiRuns(Utf8.Next(d, s[0]), s[1..]);
    }
  }

  lemma AsciiStays(d: Utf8.Dfa, b: byte)
    requires d.state == Utf8.ACCEPT && b < 128
    ensures Utf8.Next(d, b).state == Utf8.ACCEPT
  {
  }

  lemma MessageIsUtf8()
    ensures Utf8.Accepts(INVALID_PAYLOAD_MESSAGE)
  {
    AsciiRuns(Utf8.START, INVALID_PAYLOAD_MESSAGE);
  }

  lemma CodeOctets(code: nat)
    requires code < 0x1_0000
    ensures code / 256 % 256 * 256 + code % 256 == code
  {
  }

  /** Closures that a peer reads as they were announced. */
  predicate Survives(code: nat, reason: seq<byte>) {
    if code == NO_STATUS_CODE then reason == NO_STATUS_CODE_MESSAGE
    else !InvalidCode(code) && Utf8.Accepts(reason)
  }

  lemma ReadWritten(code: nat, reason: seq<byte>)
    requires code < 0x1_0000 && code != NO_STATUS_CODE
    ensures var read := ReadStatus(ClosePayload(code, reason));
      if !Utf8.Accepts(reason) then read == Status(INVALID_PAYLOAD, INVALID_PAYLOAD_MESSAGE)
      else if InvalidCode(code) then read.code == PROTOCOL_ERROR
      else read == Status(code, reason)
  {
    CodeOctets(code);
    assert ClosePayload(code, reason)[2..] == reason;
  }

  /** The code and the reason come back exactly for the closures that survive. */
  lemma StatusRoundTrip(code: nat, reason: seq<byte>)
    requires code < 0x1_0000
    ensures ReadStatus(ClosePayload(code, reason)) == Status(code, reason) <==> Survives(code, reason)
  {
    if code != NO_STATUS_CODE {
      ReadWritten(code, reason);
      MessageIsUtf8();
    }
  }

  /** An announcement is one frame exactly below 64K; a longer one is cut like a message. */
  lemma AnnouncementIsOneFrame(payload: seq<byte>)
    ensures AllPieces(CLOSE, payload) == [Piece(true, CLOSE, payload)] <==> |payload| < 2 * CHUNK_SIZE
  {
    if |payload| >= 2 * CHUNK_SIZE {
      assert |AllPieces(CLOSE, payload)| == Steps(|payload|) >= 2;
    } else {
      assert Pieces(CLOSE, payload, 1) == [Piece(true, CLOSE, payload)];
    }
  }

  // ---- Legal streams ----

  const FRESH := Decoder([], MsgText)

  predicate NoFailure(events: seq<Event>) {
    forall i :: 0 <= i < |events| ==> !events[i].Fail?
  }

  /** What a receiver holds after these pieces. */
  function After(sent: seq<Piece>): Decoder {
    Interpret(Consumer(false), FRESH, sent).decoder
  }

  /** Pieces that a receiver takes without finding a violation. */
  ghost predicate Legal(sent: seq<Piece>) {
    AllReadable(sent) && NoFailure(Interpret(Consumer(false), FRESH, sent).events)
  }

  /** A piece that may follow the pieces that were sent. */
  ghost predicate MayFollow(sent: seq<Piece>, p: Piece) {
    Readable(p) && NoFailure(Consume(After(sent), p, false).events)
  }

  lemma LegalSnoc(sent: seq<Piece>, p: Piece)
    ensures Legal(sent + [p]) <==> Legal(sent) && MayFollow(sent, p)
    ensures After(sent + [p]) == Consume(After(sent), p, false).decoder
  {
    InterpretSnoc(Consumer(false), FRESH, sent, p);
    var x := Interpret(Consumer(false), FRESH, sent).events;
    var y := Consume(After(sent), p, false).events;
    NoFailureConcat(x, y);
    if AllReadable(sent + [p]) {
      assert (sent + [p])[|sent|] == p;
      forall i | 0 <= i < |sent| ensures Readable(sent[i]) {
        assert (sent + [p])[i] == sent[i];
      }
    }
  }

  lemma NoFailureConcat(x: seq<Event>, y: seq<Event>)
    ensures NoFailure(x + y) <==> NoFailure(x) && NoFailure(y)
  {
    if NoFailure(x + y) {
      forall i | 0 <= i < |x| ensures !x[i].Fail? {
        assert (x + y)[i] == x[i];
      }
      forall i | 0 <= i < |y| ensures !y[i].Fail? {
        assert (x + y)[|x| + i] == y[i];
      }
    }
  }

  lemma {:induction false} LegalPrefix(sent: seq<Piece>, k: nat)
    requires Legal(sent) && k <= |sent|
    ensures Legal(sent[..k])
    decreases |sent|
  {
    if k < |sent| {
      var last := |sent| - 1;
      assert sent == sent[..last] + [sent[last]];
      LegalSnoc(sent[..last], sent[last]);
      LegalPrefix(sent[..last], k);
      assert sent[..last][..k] == sent[..k];
    } else {
      assert sent[..k] == sent;
    }
  }

  lemma LegalAt(sent: seq<Piece>, k: nat)
    requires Legal(sent) && k < |sent|
    ensures MayFollow(sent[..k], sent[k])
    ensures After(sent[..k + 1]) == Consume(After(sent[..k]), sent[k], false).decoder
  {
    LegalPrefix(sent, k + 1);
    assert sent[..k + 1] == sent[..k] + [sent[k]];
    LegalSnoc(sent[..k], sent[k]);
  }

  // ---- The CLOSE frames of a stream ----

  function CloseOf(p: Piece): seq<Piece> { if p.opcode == CLOSE then [p] else [] }

  function Closes(sent: seq<Piece>): seq<Piece> { FlatMap(CloseOf, sent) }

  lemma ClosesSnoc(sent: seq<Piece>, p: Piece)
    ensures Closes(sent + [p]) == Closes(sent) + CloseOf(p)
  {
    FlatMapSnoc(CloseOf, sent, p);
  }

  /** Where there is one CLOSE frame, it is the only one there is. */
  lemma OnlyClose(sent: seq<Piece>, k: nat)
    requires k < |sent|
    ensures Closes(sent[..k + 1]) == Closes(sent[..k]) + CloseOf(sent[k])
    ensures |Closes(sent[..k + 1])| <= |Closes(sent)|
    ensures |Closes(sent)| == 1 && sent[k].opcode == CLOSE ==> Closes(sent[..k]) == [] && Closes(sent) == [sent[k]]
  {
    assert sent[..k + 1] == sent[..k] + [sent[k]];
    ClosesSnoc(sent[..k], sent[k]);
    assert sent == sent[..k + 1] + sent[k + 1..];
    FlatMapConcat(CloseOf, sent[..k + 1], sent[k + 1..]);
  }

  // ---- Two endpoints ----

  /** An endpoint: what it has said, what it has taken of what the peer said, and whether it still reads. */
  datatype Endpoint = Endpoint(line: Line, decoder: Decoder, taken: nat, listening: bool, pong: bool) {
    function State(): ReadyState { line.control.readyState }
    function Reports(): seq<CloseReport> { line.control.reports }
    function Sent(): seq<Piece> { line.sent }
  }

  datatype Pair = Pair(a: Endpoint, b: Endpoint)

  const OPENED := ControlState(OPEN, DEFAULT_REPORT, [], 1)

  function Opened(pong: bool): Endpoint { Endpoint(Line(OPENED, []), FRESH, 0, true, pong) }

  /** The endpoint takes the peer's next piece while its buffer holds so many octets. */
  function Take(x: Endpoint, p: Piece, size: nat): Endpoint {
    var c := Consume(x.decoder, p, x.pong);
    Endpoint(ReactAll(x.line, c.events, size), c.decoder, x.taken + 1, x.listening, x.pong)
  }

  function Say(x: Endpoint, p: Piece): Endpoint {
    x.(line := Line(x.line.control, x.line.sent + [p]))
  }

  /** The steps of two connected endpoints, the first of which closes. Nothing that was sent is lost. */
  datatype Step =
    | SayA(p: Piece) | SayB(p: Piece)              // any frame but CLOSE that may follow
    | TakeA(size: nat) | TakeB(size: nat)          // the next frame of the peer is dispatched
    | CloseA                                       // close(code, reason)
    | ExpireA                                      // the answer is no longer waited for
    | BreakA                                       // the peer has closed its socket
    | BreakB                                       // the same, after everything sent was read

  ghost predicate MaySay(x: Endpoint, p: Piece) {
    Sends(x.State()) && p.opcode != CLOSE && MayFollow(x.Sent(), p)
  }

  ghost predicate Next(s: Pair, step: Step, t: Pair, code: nat, reason: seq<byte>) {
    match step
    case SayA(p) => MaySay(s.a, p) && t == Pair(Say(s.a, p), s.b)
    case SayB(p) => MaySay(s.b, p) && t == Pair(s.a, Say(s.b, p))
    case TakeA(size) =>
      && s.a.listening && s.a.taken < |s.b.Sent()|
      && t == Pair(Take(s.a, s.b.Sent()[s.a.taken], size), s.b)
    case TakeB(size) =>
      && s.b.listening && s.b.taken < |s.a.Sent()|
      && t == Pair(s.a, Take(s.b, s.a.Sent()[s.b.taken], size))
    case CloseA =>
      && s.a.State() == OPEN
      && t == Pair(s.a.(line := Announce(s.a.line, CloseReport(code, reason, 0, false))), s.b)
    case ExpireA =>
      && s.a.State() == CLOSING
      && t == Pair(s.a.(line := Line(SetReadyState(s.a.line.control, CLOSED), s.a.Sent()), listening := false), s.b)
    case BreakA =>
      && s.b.State() == CLOSED
      && t == Pair(s.a.(line := Line(Break(s.a.line.control), s.a.Sent()), listening := false), s.b)
    case BreakB =>
      && s.a.State() == CLOSED && s.b.taken == |s.a.Sent()|
      && t == Pair(s.a, s.b.(line := Line(Break(s.b.line.control), s.b.Sent()), listening := false))
  }

  // ---- What every step keeps ----

  predicate Reported(reports: seq<CloseReport>, code: nat, reason: seq<byte>, remote: bool) {
    |reports| == 1 && reports[0].code == code && reports[0].reason == reason && reports[0].remote == remote
  }

  /** What an endpoint has taken is a part of what the peer sent, and its decoder has followed it. */
  ghost predicate Follows(x: Endpoint, y: Endpoint) {
    Legal(y.Sent()) && x.taken <= |y.Sent()| && x.decoder == After(y.Sent()[..x.taken])
  }

  function Taken(x: Endpoint, y: Endpoint): seq<Piece>
    requires x.taken <= |y.Sent()|
  {
    y.Sent()[..x.taken]
  }

  ghost predicate InitiatorFine(a: Endpoint, b: Endpoint, code: nat, reason: seq<byte>)
    requires a.taken <= |b.Sent()|
  {
    if Closes(a.Sent()) == [] then a.line.control == OPENED && a.listening && Closes(Taken(a, b)) == []
    else
      && Closes(a.Sent()) == [ClosePiece(code, reason)]
      && if a.State() == CLOSED
         then
           && Reported(a.Reports(), code, reason, false)
           && (a.listening ==> Closes(Taken(a, b)) == Closes(b.Sent()) != [])
         else
           && a.State() == CLOSING && a.listening && a.Reports() == [] && Closes(Taken(a, b)) == []
           && a.line.control.pending.code == code && a.line.control.pending.reason == reason
           && !a.line.control.pending.remote
  }

  ghost predicate PeerFine(a: Endpoint, b: Endpoint, code: nat, reason: seq<byte>)
    requires b.taken <= |a.Sent()|
  {
    && Closes(b.Sent()) == Closes(Taken(b, a))
    && if Closes(Taken(b, a)) == [] then b.line.control == OPENED && b.listening
       else b.State() == CLOSED && Reported(b.Reports(), code, reason, true)
  }

  ghost predicate Inv(s: Pair, code: nat, reason: seq<byte>) {
    && Follows(s.a, s.b) && Follows(s.b, s.a)
    && InitiatorFine(s.a, s.b, code, reason) && PeerFine(s.a, s.b, code, reason)
  }

  function ClosePiece(code: nat, reason: seq<byte>): Piece { Piece(true, CLOSE, ClosePayload(code, reason)) }

  // ---- Taking a frame ----

  predicate OnlyDeliveries(events: seq<Event>) {
    forall i :: 0 <= i < |events| ==> events[i].Deliver?
  }

  lemma {:induction false} DeliveriesAreSilent(l: Line, events: seq<Event>, size: nat)
    requires OnlyDeliveries(events)
    ensures ReactAll(l, events, size) == l
    decreases |events|
  {
    if events != [] {
      DeliveriesAreSilent(l, events[1..], size);
    }
  }

  /** The PONG that answers a PING. */
  function Answer(l: Line, p: Piece, pong: bool): seq<Piece> {
    if p.opcode == PING && pong && Sends(l.control.readyState) then [Piece(true, PONG, p.payload)] else []
  }

  lemma DataDelivers(d: Decoder, p: Piece)
    requires NoFailure(ConsumeData(d, p).events)
    ensures OnlyDeliveries(ConsumeData(d, p).events)
  {
  }

  /** A frame that is no violation and no CLOSE changes nothing but for the PONG that is sent. */
  lemma QuietReaction(l: Line, d: Decoder, p: Piece, pong: bool, size: nat)
    requires Readable(p) && NoFailure(Consume(d, p, false).events) && p.opcode != CLOSE
    ensures Consume(d, p, pong).decoder == Consume(d, p, false).decoder
    ensures ReactAll(l, Consume(d, p, pong).events, size) == Line(l.control, l.sent + Answer(l, p, pong))
  {
    assert l.sent + [] == l.sent;
    if IsData(p.opcode) {
      DataDelivers(d, p);
      DeliveriesAreSilent(l, ConsumeData(d, p).events, size);
    } else if p.opcode == PING {
      PingReaction(l, p, pong, size);
    } else {
      DeliveriesAreSilent(l, Consume(d, p, pong).events, size);
    }
  }

  lemma PingReaction(l: Line, p: Piece, pong: bool, size: nat)
    requires p.opcode == PING && |p.payload| <= 125
    ensures ReactAll(l, (if pong then [Reply(p.payload)] else []) + [Deliver(Ping, p.payload)], size)
         == Line(l.control, l.sent + Answer(l, p, pong))
  {
    var first := if pong then [Reply(p.payload)] else [];
    assert l.sent + [] == l.sent;
    assert AllPieces(PONG, p.payload) == [Piece(true, PONG, p.payload)];
    ReactConcat(l, first, [Deliver(Ping, p.payload)], size);
    if pong {
      ReactOne(l, Reply(p.payload), size);
    }
    DeliveriesAreSilent(ReactAll(l, first, size), [Deliver(Ping, p.payload)], size);
  }

  /** A CLOSE frame whose status was read as it was announced. */
  lemma CloseReaction(l: Line, d: Decoder, code: nat, reason: seq<byte>, pong: bool, size: nat)
    requires code < 0x1_0000 && Survives(code, reason)
    ensures Consume(d, ClosePiece(code, reason), pong).decoder == d
    ensures ReactAll(l, Consume(d, ClosePiece(code, reason), pong).events, size)
         == React(l, PeerClose(code, reason), size)
  {
    StatusRoundTrip(code, reason);
    ReactOne(l, PeerClose(code, reason), size);
  }

  /** The dispatch of a transport takes the frames of its buffer in the same way, one after the other. */
  lemma DispatchTakes(x: Endpoint, f: Frame, rest: seq<byte>)
    requires Readable(f.piece)
    ensures var buf := EncodeFrame(f) + rest;
      var x' := Take(x, f.piece, |buf|);
      Settle(x.line, x.decoder, buf, x.pong) == Settle(x'.line, x'.decoder, rest, x.pong)
  {
    FrontOfEncoded(f, rest);
    var buf := EncodeFrame(f) + rest;
    assert buf[|EncodeFrame(f)|..] == rest;
  }

  // ---- How often the close callback runs ----

  /** The CLOSE frames from the first one with this status on. */
  function Completing(status: Status, closes: seq<Piece>): seq<Piece> {
    if closes == [] then []
    else if ReadStatus(closes[0].payload) == status then closes
    else Completing(status, closes[1..])
  }

  /** The status of the closure under way. */
  function Pending(c: ControlState): Status { Status(c.pending.code, c.pending.reason) }

  /** The CLOSE frames that are reported: all of them, or all from the one that completes a closure under way. */
  function Reporting(c: ControlState, closes: seq<Piece>): seq<Piece> {
    if c.readyState == CLOSING then Completing(Pending(c), closes) else closes
  }

  lemma TakeCloses(x: Endpoint, p: Piece, size: nat)
    requires p.opcode == CLOSE
    ensures var y := Take(x, p, size);
      && y.decoder == x.decoder && y.pong == x.pong
      && if x.State() != CLOSING || Pending(x.line.control) == ReadStatus(p.payload)
         then y.State() == CLOSED && |y.Reports()| == |x.Reports()| + 1
         else y.line.control == x.line.control
  {
    ReactOne(x.line, CloseEvent(p.payload), size);
  }

  lemma SettleNothing(x: Endpoint)
    ensures Settle(x.line, x.decoder, [], x.pong) == x.line
  {
    assert FrontOf([]).Short?;
  }

  lemma TakeFirstClose(x: Endpoint, p: Piece, rest: seq<Piece>, size: nat)
    requires p.opcode == CLOSE
    ensures var y := Take(x, p, size);
      |x.Reports()| + |Reporting(x.line.control, [p] + rest)| == |y.Reports()| + |Reporting(y.line.control, rest)|
  {
    TakeCloses(x, p, size);
    TailOfConcat([p], rest);
  }

  /** One frame of a stream without violations, taken before the others. */
  lemma TakeFirst(x: Endpoint, p: Piece, rest: seq<Piece>, size: nat)
    requires Readable(p) && NoFailure(Consume(x.decoder, p, false).events)
    ensures var y := Take(x, p, size);
      && y.pong == x.pong && y.decoder == Consume(x.decoder, p, false).decoder
      && |x.Reports()| + |Reporting(x.line.control, Closes([p] + rest))|
         == |y.Reports()| + |Reporting(y.line.control, Closes(rest))|
  {
    FlatMapCons(CloseOf, p, rest);
    if p.opcode == CLOSE {
      TakeFirstClose(x, p, Closes(rest), size);
    } else {
      QuietReaction(x.line, x.decoder, p, x.pong, size);
      EmptyInFront(Closes(rest));
    }
  }

  /**
    * In one dispatch of any frames without a violation the close callback runs once for every CLOSE frame; when a
    * closure of the transport's own is under way, once for every one from the first with that closure's status on.
    */
  lemma {:induction false} CloseReports(x: Endpoint, frames: seq<Frame>)
    requires AllReadable(PiecesOf(frames))
    requires NoFailure(Interpret(Consumer(false), x.decoder, PiecesOf(frames)).events)
    ensures |Settle(x.line, x.decoder, EncodeAll(frames), x.pong).control.reports|
         == |x.Reports()| + |Reporting(x.line.control, Closes(PiecesOf(frames)))|
    decreases |frames|
  {
    if frames == [] {
      SettleNothing(x);
    } else {
      var f, rest := frames[0], frames[1..];
      var size := |EncodeFrame(f) + EncodeAll(rest)|;
      assert PiecesOf(frames) == [f.piece] + PiecesOf(rest);
      NoFailureFirst(x.decoder, f.piece, PiecesOf(rest));
      TakeFirst(x, f.piece, PiecesOf(rest), size);
      DispatchTakes(x, f, EncodeAll(rest));
      CloseReports(Take(x, f.piece, size), rest);
    }
  }

  /** Unless a closure of its own is under way, the callback runs at most once exactly if at most one CLOSE came. */
  lemma ReportsOnce(x: Endpoint, frames: seq<Frame>)
    requires AllReadable(PiecesOf(frames)) && x.State() != CLOSING
    requires NoFailure(Interpret(Consumer(false), x.decoder, PiecesOf(frames)).events)
    ensures |Settle(x.line, x.decoder, EncodeAll(frames), x.pong).control.reports| <= |x.Reports()| + 1
       <==> |Closes(PiecesOf(frames))| <= 1
  {
    CloseReports(x, frames);
  }

  lemma NoFailureFirst(d: Decoder, p: Piece, rest: seq<Piece>)
    requires NoFailure(Interpret(Consumer(false), d, [p] + rest).events)
    ensures var c := Consume(d, p, false);
      NoFailure(c.events) && NoFailure(Interpret(Consumer(false), c.decoder, rest).events)
  {
    var c := Consume(d, p, false);
    InterpretCons(Consumer(false), d, p, rest);
    NoFailureConcat(c.events, Interpret(Consumer(false), c.decoder, rest).events);
  }

  lemma ClosesDoNotFail(d: Decoder, p: Piece, q: Piece)
    requires p.opcode == CLOSE && q.opcode == CLOSE
    ensures NoFailure(Interpret(Consumer(false), d, [p, q]).events)
  {
    InterpretCons(Consumer(false), d, q, []);
    InterpretCons(Consumer(false), d, p, [q]);
    assert [p] + [q] == [p, q] && [q] + [] == [q];
  }

  lemma TwoFrames(f: Frame, g: Frame)
    ensures EncodeAll([f, g]) == EncodeFrame(f) + EncodeFrame(g) && PiecesOf([f, g]) == [f.piece, g.piece]
  {
    assert [f] + [g] == [f, g];
    FlatMapCons(EncodeFrame, f, [g]);
    FlatMapOne(EncodeFrame, g);
  }

  lemma TwoCloses(p: Piece, q: Piece)
    requires p.opcode == CLOSE && q.opcode == CLOSE
    ensures Closes([p, q]) == [p, q]
  {
    assert [p] + [q] == [p, q];
    FlatMapCons(CloseOf, p, [q]);
    FlatMapOne(CloseOf, q);
  }

  /** Two CLOSE frames in one buffer make the callback of an open transport run twice. */
  lemma SecondCloseReportsAgain(x: Endpoint, first: Frame, second: Frame)
    requires first.piece.opcode == CLOSE && first.piece.fin && second.piece.opcode == CLOSE && second.piece.fin
    requires x.State() == OPEN
    ensures |Settle(x.line, x.decoder, EncodeFrame(first) + EncodeFrame(second), x.pong).control.reports|
         == |x.Reports()| + 2
  {
    TwoFrames(first, second);
    ClosesDoNotFail(x.decoder, first.piece, second.piece);
    TwoCloses(first.piece, second.piece);
    CloseReports(x, [first, second]);
  }

  // ---- Every step keeps the invariant ----

  lemma ControlFollows(sent: seq<Piece>, p: Piece)
    requires (p.opcode == PONG || p.opcode == CLOSE) && p.fin
    ensures MayFollow(sent, p)
  {
  }

  /** One endpoint has sent one more frame, or none: nothing changes for what the other has taken. */
  lemma SentGrows(x: Endpoint, y: Endpoint, y': Endpoint, more: seq<Piece>)
    requires Follows(x, y) && y'.Sent() == y.Sent() + more && |more| <= 1
    requires more != [] ==> MayFollow(y.Sent(), more[0])
    ensures Follows(x, y') && Taken(x, y') == Taken(x, y)
    ensures Closes(y'.Sent()) == Closes(y.Sent()) + Closes(more)
  {
    if more != [] {
      assert more == [more[0]];
      LegalSnoc(y.Sent(), more[0]);
    } else {
      assert y.Sent() + more == y.Sent();
    }
    FlatMapConcat(CloseOf, y.Sent(), more);
    assert y'.Sent()[..x.taken] == y.Sent()[..x.taken];
  }

  lemma SayKeeps(x: Endpoint, y: Endpoint, p: Piece)
    requires Follows(x, y) && MaySay(y, p)
    ensures Follows(x, Say(y, p)) && Taken(x, Say(y, p)) == Taken(x, y) && Closes(Say(y, p).Sent()) == Closes(y.Sent())
  {
    SentGrows(x, y, Say(y, p), [p]);
    FlatMapOne(CloseOf, p);
  }

  /** Taking a frame that is not CLOSE. */
  lemma TakeQuiet(x: Endpoint, y: Endpoint, size: nat)
    requires Follows(x, y) && Follows(y, x) && x.taken < |y.Sent()| && y.Sent()[x.taken].opcode != CLOSE
    ensures var x' := Take(x, y.Sent()[x.taken], size);
      && x'.line.control == x.line.control
      && Follows(x', y) && Follows(y, x') && Taken(y, x') == Taken(y, x)
      && Closes(x'.Sent()) == Closes(x.Sent()) && Closes(Taken(x', y)) == Closes(Taken(x, y))
  {
    var p := y.Sent()[x.taken];
    var x' := Take(x, p, size);
    LegalAt(y.Sent(), x.taken);
    QuietReaction(x.line, x.decoder, p, x.pong, size);
    var answer := Answer(x.line, p, x.pong);
    if answer != [] {
      ControlFollows(x.Sent(), answer[0]);
      FlatMapOne(CloseOf, answer[0]);
    }
    SentGrows(y, x, x', answer);
    OnlyClose(y.Sent(), x.taken);
  }

  /** Taking the one CLOSE frame there is. */
  lemma TakeClose(x: Endpoint, y: Endpoint, size: nat, code: nat, reason: seq<byte>)
    requires code < 0x1_0000 && Survives(code, reason) && |reason| + 2 < 2 * CHUNK_SIZE
    requires Follows(x, y) && Follows(y, x) && x.taken < |y.Sent()| && y.Sent()[x.taken].opcode == CLOSE
    requires Closes(y.Sent()) == [ClosePiece(code, reason)]
    ensures Closes(Taken(x, y)) == []
    ensures var x' := Take(x, y.Sent()[x.taken], size);
      && x'.line == React(x.line, PeerClose(code, reason), size)
      && Follows(x', y) && Follows(y, x') && Taken(y, x') == Taken(y, x)
      && Closes(Taken(x', y)) == [ClosePiece(code, reason)]
      && Closes(x'.Sent()) == Closes(x.Sent()) + if x.State() == CLOSING then [] else [ClosePiece(code, reason)]
  {
    OnlyClose(y.Sent(), x.taken);
    LegalAt(y.Sent(), x.taken);
    CloseReaction(x.line, x.decoder, code, reason, x.pong, size);
    var x' := Take(x, y.Sent()[x.taken], size);
    AnnouncementIsOneFrame(ClosePayload(code, reason));
    var answer := if x.State() == CLOSING then [] else [ClosePiece(code, reason)];
    ControlFollows(x.Sent(), ClosePiece(code, reason));
    FlatMapOne(CloseOf, ClosePiece(code, reason));
    assert x'.Sent() == x.Sent() + answer;
    SentGrows(y, x, x', answer);
  }

  /** Closures that the handshake carries: they survive the wire, in one frame. */
  predicate Carried(code: nat, reason: seq<byte>) {
    code < 0x1_0000 && Survives(code, reason) && |reason| + 2 < 2 * CHUNK_SIZE
  }

  lemma TakeAKeeps(s: Pair, size: nat, t: Pair, code: nat, reason: seq<byte>)
    requires Carried(code, reason) && Inv(s, code, reason) && Next(s, TakeA(size), t, code, reason)
    ensures Inv(t, code, reason)
  {
    if s.b.Sent()[s.a.taken].opcode == CLOSE {
      OnlyClose(s.b.Sent(), s.a.taken);
      OnlyCloseOfPrefix(s.a.Sent(), s.b.taken);
      TakeClose(s.a, s.b, size, code, reason);
    } else {
      TakeQuiet(s.a, s.b, size);
    }
  }

  lemma TakeBQuietKeeps(s: Pair, size: nat, t: Pair, code: nat, reason: seq<byte>)
    requires Carried(code, reason) && Inv(s, code, reason) && Next(s, TakeB(size), t, code, reason)
    requires s.a.Sent()[s.b.taken].opcode != CLOSE
    ensures Inv(t, code, reason)
  {
    TakeQuiet(s.b, s.a, size);
  }

  lemma TakeBKeeps(s: Pair, size: nat, t: Pair, code: nat, reason: seq<byte>)
    requires Carried(code, reason) && Inv(s, code, reason) && Next(s, TakeB(size), t, code, reason)
    ensures Inv(t, code, reason)
  {
    if s.a.Sent()[s.b.taken].opcode == CLOSE {
      OnlyClose(s.a.Sent(), s.b.taken);
      TakeClose(s.b, s.a, size, code, reason);
    } else {
      TakeBQuietKeeps(s, size, t, code, reason);
    }
  }

  lemma OnlyCloseOfPrefix(sent: seq<Piece>, k: nat)
    requires k <= |sent|
    ensures |Closes(sent[..k])| <= |Closes(sent)|
    ensures |Closes(sent[..k])| == |Closes(sent)| ==> Closes(sent[..k]) == Closes(sent)
  {
    assert sent == sent[..k] + sent[k..];
    FlatMapConcat(CloseOf, sent[..k], sent[k..]);
  }

  lemma CloseAKeeps(s: Pair, t: Pair, code: nat, reason: seq<byte>)
    requires Carried(code, reason) && Inv(s, code, reason) && Next(s, CloseA, t, code, reason)
    ensures Inv(t, code, reason)
  {
    var c := ClosePiece(code, reason);
    AnnouncementIsOneFrame(ClosePayload(code, reason));
    ControlFollows(s.a.Sent(), c);
    FlatMapOne(CloseOf, c);
    assert t.a.Sent() == s.a.Sent() + [c];
    SentGrows(s.b, s.a, t.a, [c]);
  }

  lemma SayKeepsAll(s: Pair, step: Step, t: Pair, code: nat, reason: seq<byte>)
    requires Inv(s, code, reason) && Next(s, step, t, code, reason) && (step.SayA? || step.SayB?)
    ensures Inv(t, code, reason)
  {
    if step.SayA? {
      SayKeeps(s.b, s.a, step.p);
    } else {
      SayKeeps(s.a, s.b, step.p);
    }
  }

  lemma EndKeeps(s: Pair, step: Step, t: Pair, code: nat, reason: seq<byte>)
    requires Inv(s, code, reason) && Next(s, step, t, code, reason) && (step.ExpireA? || step.BreakA? || step.BreakB?)
    ensures Inv(t, code, reason)
  {
    if step.BreakB? {
      OnlyCloseOfPrefix(s.b.Sent(), s.a.taken);
      assert Taken(s.b, s.a) == s.a.Sent();
    } else {
      OnlyCloseOfPrefix(s.a.Sent(), s.b.taken);
    }
  }

  lemma StepKeeps(s: Pair, step: Step, t: Pair, code: nat, reason: seq<byte>)
    requires Carried(code, reason) && Inv(s, code, reason) && Next(s, step, t, code, reason)
    ensures Inv(t, code, reason)
  {
    match step {
      case TakeA(size) => TakeAKeeps(s, size, t, code, reason);
      case TakeB(size) => TakeBKeeps(s, size, t, code, reason);
      case CloseA => CloseAKeeps(s, t, code, reason);
      case SayA(_) => SayKeepsAll(s, step, t, code, reason);
      case SayB(_) => SayKeepsAll(s, step, t, code, reason);
      case _ => EndKeeps(s, step, t, code, reason);
    }
  }

  // ---- Whole runs ----

  ghost predicate IsRun(run: seq<Pair>, steps: seq<Step>, code: nat, reason: seq<byte>) {
    && |run| == |steps| + 1
    && run[0].a == Opened(run[0].a.pong) && run[0].b == Opened(run[0].b.pong)
    && forall i :: 0 <= i < |steps| ==> Next(run[i], steps[i], run[i + 1], code, reason)
  }

  lemma StartIsFine(s: Pair, code: nat, reason: seq<byte>)
    requires s.a == Opened(s.a.pong) && s.b == Opened(s.b.pong)
    ensures Inv(s, code, reason)
  {
    assert Closes([]) == [];
  }

  lemma {:induction false} RunKeeps(run: seq<Pair>, steps: seq<Step>, code: nat, reason: seq<byte>, n: nat)
    requires Carried(code, reason) && IsRun(run, steps, code, reason) && n <= |steps|
    ensures Inv(run[n], code, reason)
    decreases n
  {
    if n == 0 {
      StartIsFine(run[0], code, reason);
    } else {
      RunKeeps(run, steps, code, reason, n - 1);
      StepKeeps(run[n - 1], steps[n - 1], run[n], code, reason);
    }
  }

  /** Neither endpoint can take another frame. */
  predicate Settled(s: Pair) {
    && !(s.a.listening && s.a.taken < |s.b.Sent()|)
    && !(s.b.listening && s.b.taken < |s.a.Sent()|)
  }

  /**
    * Section 7.1 of RFC 6455. In every run in which one endpoint closes with a closure that is carried, whatever
    * legal frames both send before, between and after: no close callback runs twice; an endpoint that is closed
    * has reported exactly that code and reason, as its own closure at the one that closed and as remote at the
    * other; and once nothing is left to be taken, both are closed.
    */
  lemma ClosingAgreement(run: seq<Pair>, steps: seq<Step>, code: nat, reason: seq<byte>)
    requires Carried(code, reason) && IsRun(run, steps, code, reason)
    ensures var s := run[|steps|];
      && |s.a.Reports()| <= 1 && |s.b.Reports()| <= 1
      && (s.a.State() == CLOSED ==> Reported(s.a.Reports(), code, reason, false))
      && (s.b.State() == CLOSED ==> Reported(s.b.Reports(), code, reason, true))
      && (Settled(s) && s.a.State() != OPEN ==> s.a.State() == CLOSED && s.b.State() == CLOSED)
  {
    RunKeeps(run, steps, code, reason, |steps|);
    var s := run[|steps|];
    if s.a.taken == |s.b.Sent()| {
      assert Taken(s.a, s.b) == s.b.Sent();
    }
    if s.b.taken == |s.a.Sent()| {
      assert Taken(s.b, s.a) == s.a.Sent();
    }
  }
}
