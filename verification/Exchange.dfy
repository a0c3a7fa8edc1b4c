/** Two transports: what one has sent, and what the other makes of the octets that reach it. */
module Exchange {
  import opened Bytes
  import opened Control
  import opened Frames
  import opened Messages
  import opened ReceiveGate
  import opened Receiver
  import opened RoundTrip
  import opened Transport
  import Utf8
  import Wire

  lemma {:induction false} DataIsKept(pieces: seq<Piece>)
    requires forall i :: 0 <= i < |pieces| ==> IsData(pieces[i].opcode)
    ensures FlatMap(DataOf, pieces) == pieces
    decreases |pieces|
  {
    if pieces != [] {
      DataIsKept(pieces[1..]);
      assert pieces == [pieces[0]] + pieces[1..];
    }
  }

  /** A transport that has sent some messages, between any PING and PONG frames, and sends one more. */
  lemma OneMoreMessage(pieces: seq<Piece>, messages: seq<Message>, m: Message)
    requires Traffic(pieces, messages)
    ensures Traffic(pieces + DataPieces(m), messages + [m])
  {
    DataIsKept(DataPieces(m));
    FlatMapConcat(DataOf, pieces, DataPieces(m));
    FlatMapSnoc(DataPieces, messages, m);
  }

  lemma OneMoreControl(pieces: seq<Piece>, messages: seq<Message>, p: Piece)
    requires Traffic(pieces, messages) && IsPingPong(p)
    ensures Traffic(pieces + [p], messages)
  {
    FlatMapSnoc(DataOf, pieces, p);
    assert FlatMap(DataOf, pieces) + [] == FlatMap(DataOf, pieces);
  }

  /** The connection of the threads' model that a transport is in when no message is under way. */
  ghost function ConnectionOf(sender: WebSocketTransport, messages: seq<Message>): Wire.Connection
    reads sender
  {
    Wire.Connection(sender.wire, sender.txbuf, sender.frames, None,
                    seq(|messages|, i requires 0 <= i < |messages| => Wire.Sent(0, messages[i])), map[])
  }

  lemma TrafficIsNotInterleaved(sender: WebSocketTransport, messages: seq<Message>)
    requires sender.Valid() && Traffic(sender.pieces, messages)
    ensures var s := ConnectionOf(sender, messages);
      Wire.Conserved(s) && Wire.NotInterleaved(s) && Wire.Begun(s) == messages
  {
    var s := ConnectionOf(sender, messages);
    assert Wire.MessagesOf(s.done) == messages;
    sender.LoggedOctets();
    forall i | 0 <= i < |s.frames| ensures IsData(s.frames[i].piece.opcode) || IsPingPong(s.frames[i].piece) {
      assert PiecesOf(s.frames)[i] == s.frames[i].piece;
    }
  }

  // ---- Sending ----

  /** What the client of a transport asks for. */
  datatype Call = Say(message: Message) | Ping(payload: seq<byte>)

  function MessageOf(call: Call): seq<Message> {
    match call
    case Say(m) => [m]
    case Ping(_) => []
  }

  /** A text that is not UTF-8 would end the connection. */
  predicate Allowed(call: Call) { call.Say? && call.message.text ==> Utf8.Accepts(call.message.data) }

  method SendCall(sender: WebSocketTransport, call: Call, ghost sent: seq<Message>)
    requires sender.Valid() && Allowed(call)
    modifies sender
    ensures sender.Valid() && sender.sendFailures >= old(sender.sendFailures)
    ensures (sender.sendFailures == old(sender.sendFailures) && old(sender.readyState) == OPEN
             && Traffic(old(sender.pieces), sent)) ==>
      sender.readyState == OPEN && Traffic(sender.pieces, sent + MessageOf(call))
  {
    ghost var before := sender.pieces;
    match call {
      case Say(m) =>
        var success; ghost var k;
        if m.text {
          Utf8.AutomatonExact(m.data);
          success, k := sender.SendText(m.data, false);
        } else {
          success, k := sender.SendMessage(m, false);
        }
        if Traffic(before, sent) {
          OneMoreMessage(before, sent, m);
        }
      case Ping(payload) =>
        var success := sender.SendPing(payload);
        assert sent + [] == sent;
        if |payload| <= 125 && Traffic(before, sent) {
          ControlIsOneFrame(PING, payload);
          OneMoreControl(before, sent, Piece(true, PING, payload));
        }
    }
  }

  lemma ControlIsOneFrame(opcode: nat, payload: seq<byte>)
    ensures |payload| <= 125 ==> AllPieces(opcode, payload) == [Piece(true, opcode, payload)]
  {
  }

  /** Calls one after the other. Unless sending fails, what was sent is their messages, whole and in order. */
  method SendCalls(sender: WebSocketTransport, calls: seq<Call>, ghost before: seq<Message>)
    requires sender.Valid() && sender.readyState == OPEN && Traffic(sender.pieces, before)
    requires forall i :: 0 <= i < |calls| ==> Allowed(calls[i])
    modifies sender
    ensures sender.Valid() && sender.sendFailures >= old(sender.sendFailures)
    ensures sender.sendFailures == old(sender.sendFailures) ==>
      sender.readyState == OPEN && Traffic(sender.pieces, before + FlatMap(MessageOf, calls))
  {
    var i := 0;
    assert before + FlatMap(MessageOf, calls[..0]) == before;
    while i < |calls|
      invariant 0 <= i <= |calls| && sender.Valid() && sender.sendFailures >= old(sender.sendFailures)
      invariant sender.sendFailures == old(sender.sendFailures) ==>
        sender.readyState == OPEN && Traffic(sender.pieces, before + FlatMap(MessageOf, calls[..i]))
    {
      ghost var sent := FlatMap(MessageOf, calls[..i]);
      SendCall(sender, calls[i], before + sent);
      assert calls[..i + 1] == calls[..i] + [calls[i]];
      FlatMapSnoc(MessageOf, calls[..i], calls[i]);
      ConcatAssociative(before, sent, MessageOf(calls[i]));
      i := i + 1;
    }
    assert calls[..i] == calls;
  }

  // ---- Receiving ----

  /**
    * End to end, between two transports. One has sent messages, whole, between any PING and PONG frames. What the
    * other one's socket has to give is a part of what the first one's socket took, and it has been fed the octets
    * it read, in some cuts. Its callbacks were given the first of the messages, in order, unchanged and of their
    * kind; and all of them once everything has been written and read.
    */
  lemma SentIsReceived(
    sender: WebSocketTransport, receiver: WebSocketTransport, messages: seq<Message>, kind: DataKind,
    cuts: seq<seq<byte>>)
    requires sender.Valid() && Traffic(sender.pieces, messages) && AllValid(messages)
    requires receiver.taken <= |receiver.stream| && receiver.stream <= sender.wire
    requires Flatten(cuts) <= receiver.stream[..receiver.taken]
    requires receiver.events == Feed(Consumer(receiver.enablePong), Decoder([], kind), [], cuts).events
    ensures FlatMap(MessageIn, receiver.events) <= messages
    ensures sender.txbuf == [] && Flatten(cuts) == sender.wire ==> FlatMap(MessageIn, receiver.events) == messages
  {
    var s := ConnectionOf(sender, messages);
    TrafficIsNotInterleaved(sender, messages);
    forall i | 0 <= i < |s.frames| ensures s.frames[i].piece.opcode != CLOSE {
      assert PiecesOf(s.frames)[i] == s.frames[i].piece;
    }
    assert Flatten(cuts) <= s.wire;
    Wire.DeliveredInOrder(s, cuts, kind, receiver.enablePong);
    assert sender.wire + [] == sender.wire;
  }

  /** A transport at the beginning of its first session. */
  ghost predicate IsFresh(t: WebSocketTransport)
    reads t
  {
    && t.taken == 0 && t.events == [] && t.rxbuf == [] && t.rxbufWanted == 0 && t.chunks == []
  }

  predicate AreHeartbeats(schedule: seq<(Polled, Option<(nat, seq<byte>)>)>) {
    forall i :: 0 <= i < |schedule| && schedule[i].1.Some? ==>
      schedule[i].1.value.0 in {PING, TEXT_FRAME, BINARY_FRAME}
  }

  /** The loop of a fresh transport: its events are those of the octets it has read. */
  method Listen(t: WebSocketTransport, schedule: seq<(Polled, Option<(nat, seq<byte>)>)>)
    returns (ghost cuts: seq<seq<byte>>)
    requires t.Valid() && IsFresh(t) && AreHeartbeats(schedule)
    modifies t
    ensures t.Valid() && t.stream == old(t.stream) && t.taken <= |t.stream|
    ensures t.events == Feed(Consumer(t.enablePong), Decoder([], old(t.fragmentedMessageKind)), [], cuts).events
    ensures Flatten(cuts) <= t.stream[..t.taken]
    ensures t.readyState != CLOSED ==> Flatten(cuts) == t.stream[..t.taken]
  {
    NothingIsWanted();
    cuts := t.Run(schedule);
  }

  /** The same for the loop of a fresh receiver. */
  method Receive(
    sender: WebSocketTransport, receiver: WebSocketTransport, ghost messages: seq<Message>,
    schedule: seq<(Polled, Option<(nat, seq<byte>)>)>)
    requires sender != receiver && sender.Valid() && Traffic(sender.pieces, messages) && AllValid(messages)
    requires receiver.Valid() && IsFresh(receiver) && receiver.stream <= sender.wire && AreHeartbeats(schedule)
    modifies receiver
    ensures receiver.Valid() && FlatMap(MessageIn, receiver.events) <= messages
    ensures (sender.txbuf == [] && receiver.taken == |sender.wire| && receiver.readyState != CLOSED) ==>
      FlatMap(MessageIn, receiver.events) == messages
  {
    ghost var kind := receiver.fragmentedMessageKind;
    var cuts := Listen(receiver, schedule);
    SentIsReceived(sender, receiver, messages, kind, cuts);
  }
}
