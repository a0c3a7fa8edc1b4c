/** Sending and receiving undo each other: what a receiver reports of a stream of encoded frames. */
module RoundTrip {
  import opened Bytes
  import opened Frames
  import opened Receiver
  import opened Messages
  import Utf8

  // ---- Traffic: the pieces of messages, with PING and PONG frames between them ----

  predicate IsPingPong(p: Piece) { (p.opcode == PING || p.opcode == PONG) && p.fin && |p.payload| <= 125 }

  function DataOf(p: Piece): seq<Piece> { if IsData(p.opcode) then [p] else [] }

  function ControlEventsOf(pong: bool): Piece -> seq<Event> {
    (p: Piece) => if p.opcode == PING then (if pong then [Reply(p.payload)] else []) + [Deliver(Ping, p.payload)]
         else if p.opcode == PONG then [Deliver(Pong, p.payload)]
         else []
  }

  predicate FromControl(e: Event) { e.Reply? || (e.Deliver? && (e.kind == Ping || e.kind == Pong)) }

  function DataEvent(e: Event): seq<Event> { if FromControl(e) then [] else [e] }

  function ControlEvent(e: Event): seq<Event> { if FromControl(e) then [e] else [] }

  /** The messages in order, and any PING and PONG frames anywhere between their fragments. */
  predicate Traffic(pieces: seq<Piece>, messages: seq<Message>) {
    && (forall i :: 0 <= i < |pieces| ==> IsData(pieces[i].opcode) || IsPingPong(pieces[i]))
    && FlatMap(DataOf, pieces) == FlatMap(DataPieces, messages)
  }

  predicate AllValid(messages: seq<Message>) {
    forall i :: 0 <= i < |messages| && messages[i].text ==> Utf8.Accepts(messages[i].data)
  }

  // ---- Interpreting traffic ----

  ghost predicate OnlyData(events: seq<Event>) {
    FlatMap(DataEvent, events) == events && FlatMap(ControlEvent, events) == []
  }

  lemma {:induction false} DataConsumeEvents(events: seq<Event>)
    requires NoneFromControl(events)
    ensures OnlyData(events)
  {
    if events != [] {
      DataConsumeEvents(events[1..]);
    }
  }

  predicate NoneFromControl(events: seq<Event>) {
    forall i :: 0 <= i < |events| ==> !FromControl(events[i])
  }

  lemma ConsumeDataEvents(d: Decoder, p: Piece, pong: bool)
    requires IsData(p.opcode)
    ensures OnlyData(Consume(d, p, pong).events)
  {
    assert NoneFromControl(OutOfSequence(d, p.opcode));
    forall kind: DataKind, message ensures NoneFromControl(Emit(kind, message)) {
    }
    assert NoneFromControl(ConsumeData(d, p).events);
    DataConsumeEvents(ConsumeData(d, p).events);
  }

  lemma ConsumeControlEvents(d: Decoder, p: Piece, pong: bool)
    requires IsPingPong(p)
    ensures var c := Consume(d, p, pong);
      && c.decoder == d && FlatMap(DataEvent, c.events) == []
      && FlatMap(ControlEvent, c.events) == ControlEventsOf(pong)(p)
  {
    if p.opcode == PING && pong {
      assert Consume(d, p, pong).events == [Reply(p.payload)] + [Deliver(Ping, p.payload)];
      FlatMapCons(DataEvent, Reply(p.payload), [Deliver(Ping, p.payload)]);
      FlatMapCons(ControlEvent, Reply(p.payload), [Deliver(Ping, p.payload)]);
    }
    var last := Deliver(if p.opcode == PING then Ping else Pong, p.payload);
    FlatMapOne(DataEvent, last);
    FlatMapOne(ControlEvent, last);
  }

  lemma InterpretCons<D>(step: (D, Piece) -> Consumed<D>, d: D, p: Piece, rest: seq<Piece>)
    ensures var c := step(d, p);
      var r := Interpret(step, c.decoder, rest);
      Interpret(step, d, [p] + rest) == Consumed(r.decoder, c.events + r.events)
  {
    assert ([p] + rest)[1..] == rest;
  }

  /** What the data events and the control events of some pieces are, in terms of the data pieces alone. */
  ghost predicate Separated(d: Decoder, pieces: seq<Piece>, pong: bool) {
    var full := Interpret(Consumer(pong), d, pieces);
    var data := Interpret(Consumer(pong), d, FlatMap(DataOf, pieces));
    && full.decoder == data.decoder
    && FlatMap(DataEvent, full.events) == data.events
    && FlatMap(ControlEvent, full.events) == FlatMap(ControlEventsOf(pong), pieces)
  }

  lemma SeparatedEvents(d: Decoder, p: Piece, rest: seq<Piece>, pong: bool)
    ensures var c := Consume(d, p, pong);
      var later := Interpret(Consumer(pong), c.decoder, rest);
      var full := Interpret(Consumer(pong), d, [p] + rest);
      && full.decoder == later.decoder
      && FlatMap(DataEvent, full.events) == FlatMap(DataEvent, c.events) + FlatMap(DataEvent, later.events)
      && FlatMap(ControlEvent, full.events) == FlatMap(ControlEvent, c.events) + FlatMap(ControlEvent, later.events)
  {
    var c := Consume(d, p, pong);
    var later := Interpret(Consumer(pong), c.decoder, rest);
    InterpretCons(Consumer(pong), d, p, rest);
    FlatMapConcat(DataEvent, c.events, later.events);
    FlatMapConcat(ControlEvent, c.events, later.events);
  }

  lemma DataSeparated(d: Decoder, p: Piece, rest: seq<Piece>, pong: bool)
    requires IsData(p.opcode) && Separated(Consume(d, p, pong).decoder, rest, pong)
    ensures Separated(d, [p] + rest, pong)
  {
    ConsumeDataEvents(d, p, pong);
    SeparatedEvents(d, p, rest, pong);
    FlatMapCons(DataOf, p, rest);
    FlatMapCons(ControlEventsOf(pong), p, rest);
    InterpretCons(Consumer(pong), d, p, FlatMap(DataOf, rest));
  }

  lemma ControlSeparated(d: Decoder, p: Piece, rest: seq<Piece>, pong: bool)
    requires IsPingPong(p) && Separated(d, rest, pong)
    ensures Separated(d, [p] + rest, pong)
  {
    ConsumeControlEvents(d, p, pong);
    SeparatedEvents(d, p, rest, pong);
    FlatMapCons(DataOf, p, rest);
    FlatMapCons(ControlEventsOf(pong), p, rest);
    EmptyInFront(FlatMap(DataOf, rest));
    EmptyInFront(FlatMap(DataEvent, Interpret(Consumer(pong), d, rest).events));
  }

  /** Control frames leave the decoding of the data frames around them alone, and the other way around. */
  lemma {:induction false} InterpretTraffic(d: Decoder, pieces: seq<Piece>, pong: bool)
    requires forall i :: 0 <= i < |pieces| ==> IsData(pieces[i].opcode) || IsPingPong(pieces[i])
    ensures Separated(d, pieces, pong)
    decreases |pieces|
  {
    if pieces != [] {
      var p, rest := pieces[0], pieces[1..];
      assert pieces == [p] + rest;
      if IsData(p.opcode) {
        InterpretTraffic(Consume(d, p, pong).decoder, rest, pong);
        DataSeparated(d, p, rest, pong);
      } else {
        InterpretTraffic(d, rest, pong);
        ControlSeparated(d, p, rest, pong);
      }
    }
  }

  lemma {:induction false} InterpretMessages(d: Decoder, messages: seq<Message>, pong: bool)
    requires d.chunks == []
    ensures var c := Interpret(Consumer(pong), d, FlatMap(DataPieces, messages));
      c.decoder.chunks == [] && c.events == FlatMap(EventsOf, messages)
    decreases |messages|
  {
    if messages != [] {
      var m, rest := messages[0], messages[1..];
      InterpretMessage(m, d, pong);
      InterpretMessages(Decoder([], m.Kind()), rest, pong);
      InterpretConcat(Consumer(pong), d, DataPieces(m), FlatMap(DataPieces, rest));
    }
  }

  // ---- The round trip ----

  lemma {:induction false} TrafficReadable(frames: seq<Frame>, messages: seq<Message>)
    requires Traffic(PiecesOf(frames), messages)
    ensures AllReadable(PiecesOf(frames))
  {
  }

  lemma DispatchEmpty<D>(step: (D, Piece) -> Consumed<D>, d: D)
    ensures DispatchWith(step, d, []) == Dispatched(d, [], [])
  {
  }

  /**
    * Sections 5.2 to 5.5 of RFC 6455. Frames that carry any messages, fragmented as they are sent, under
    * any masks and keys, with any PING and PONG frames between any of the fragments: one dispatch of their
    * octets delivers exactly the messages, in order and of their kind, one FRAGMENT event per fragment that
    * is not final, and exactly the control payloads in order; it leaves an empty buffer and no fragments.
    */
  lemma FrameRoundTrip(frames: seq<Frame>, messages: seq<Message>, kind: DataKind, pong: bool)
    requires Traffic(PiecesOf(frames), messages)
    ensures var r := Dispatch(Decoder([], kind), EncodeAll(frames), pong);
      && r.buf == [] && r.decoder.chunks == []
      && FlatMap(DataEvent, r.events) == FlatMap(EventsOf, messages)
      && FlatMap(ControlEvent, r.events) == FlatMap(ControlEventsOf(pong), PiecesOf(frames))
  {
    var d := Decoder([], kind);
    var step := Consumer(pong);
    TrafficReadable(frames, messages);
    DispatchEncoded(step, d, frames, []);
    var c := Interpret(step, d, PiecesOf(frames));
    DispatchEmpty(step, c.decoder);
    assert EncodeAll(frames) + [] == EncodeAll(frames);
    assert c.events + [] == c.events;
    InterpretTraffic(d, PiecesOf(frames), pong);
    InterpretMessages(d, messages, pong);
  }

  function MessageIn(e: Event): seq<Message> {
    if e.Deliver? && e.kind == MsgText then [Message(true, e.data)]
    else if e.Deliver? && e.kind == MsgBinary then [Message(false, e.data)]
    else []
  }

  lemma {:induction false} MessagesAmongData(events: seq<Event>)
    ensures FlatMap(MessageIn, events) == FlatMap(MessageIn, FlatMap(DataEvent, events))
  {
    if events != [] {
      MessagesAmongData(events[1..]);
      FlatMapConcat(MessageIn, DataEvent(events[0]), FlatMap(DataEvent, events[1..]));
      if !FromControl(events[0]) {
        FlatMapOne(MessageIn, events[0]);
      }
    }
  }

  lemma {:induction false} NoMessageInFragments(n: nat)
    ensures FlatMap(MessageIn, FragmentEvents(n)) == []
  {
    if n > 0 {
      NoMessageInFragments(n - 1);
      FlatMapSnoc(MessageIn, FragmentEvents(n - 1), Deliver(Kind.Fragment, []));
    }
  }

  lemma MessageInEvents(m: Message)
    requires m.text ==> Utf8.Accepts(m.data)
    ensures FlatMap(MessageIn, EventsOf(m)) == [m]
  {
    var n := Steps(|m.data|) - 1;
    NoMessageInFragments(n);
    FlatMapConcat(MessageIn, FragmentEvents(n), [Deliver(m.Kind(), m.data)]);
    FlatMapOne(MessageIn, Deliver(m.Kind(), m.data));
  }

  lemma {:induction false} MessagesInEvents(messages: seq<Message>)
    requires AllValid(messages)
    ensures FlatMap(MessageIn, FlatMap(EventsOf, messages)) == messages
  {
    if messages != [] {
      var m, rest := messages[0], messages[1..];
      MessagesInEvents(rest);
      FlatMapConcat(MessageIn, EventsOf(m), FlatMap(EventsOf, rest));
      MessageInEvents(m);
    }
  }

  /** When the text messages are valid UTF-8, what is delivered is exactly what was sent. */
  lemma SentIsDelivered(frames: seq<Frame>, messages: seq<Message>, kind: DataKind, pong: bool)
    requires Traffic(PiecesOf(frames), messages) && AllValid(messages)
    ensures FlatMap(MessageIn, Dispatch(Decoder([], kind), EncodeAll(frames), pong).events) == messages
  {
    FrameRoundTrip(frames, messages, kind, pong);
    MessagesAmongData(Dispatch(Decoder([], kind), EncodeAll(frames), pong).events);
    MessagesInEvents(messages);
  }

  // ---- Any part of the stream, in any cuts ----

  /** A frame that is not there completely is waited for. */
  lemma FrontOfIncomplete(f: Frame, part: seq<byte>)
    requires part <= EncodeFrame(f) && part != EncodeFrame(f)
    ensures FrontOf(part).Short? || FrontOf(part) == Partial(|EncodeFrame(f)|)
  {
    if ParseHeader(part).Some? {
      var more := EncodeFrame(f)[|part|..];
      assert part + more == EncodeFrame(f) + [];
      ParseHeaderStable(part, more);
      HeaderOfEncoded(f, []);
      ParseEncodedHeader(f);
    }
  }

  lemma DispatchArrived<D(!new)>(
    step: (D, Piece) -> Consumed<D>, d: D, frames: seq<Frame>, s: seq<byte>, k: nat, rest: seq<byte>)
    requires AllReadable(PiecesOf(frames)) && CutAt(EncodeFrame, frames, s, k, rest)
    ensures var c := Interpret(step, d, PiecesOf(frames[..k]));
      DispatchWith(step, d, s) == Dispatched(c.decoder, rest, c.events)
    ensures !Dead(rest) && !FrontOf(rest).Whole?
  {
    assert PiecesOf(frames[..k]) == PiecesOf(frames)[..k];
    DispatchEncoded(step, d, frames[..k], rest);
    if k < |frames| {
      FrontOfIncomplete(frames[k], rest);
    }
    var c := Interpret(step, d, PiecesOf(frames[..k]));
    DispatchWaits(step, c.decoder, rest);
    assert c.events + [] == c.events;
  }

  lemma DispatchWaits<D>(step: (D, Piece) -> Consumed<D>, d: D, buf: seq<byte>)
    requires !FrontOf(buf).Whole? && !Dead(buf)
    ensures DispatchWith(step, d, buf) == Dispatched(d, buf, [])
  {
  }

  /**
    * The whole of the receiving side. Whatever part of a stream of readable frames has arrived, in whatever
    * receives, each followed by a dispatch: the frames that are complete have been consumed, in order and
    * once, the incomplete one is the buffer, and the stream is not blocked.
    */
  lemma StreamedFrames<D(!new)>(
    step: (D, Piece) -> Consumed<D>, d: D, frames: seq<Frame>, s: seq<byte>, cuts: seq<seq<byte>>)
    returns (k: nat, rest: seq<byte>)
    requires AllReadable(PiecesOf(frames)) && s <= EncodeAll(frames) && Flatten(cuts) == s
    ensures CutAt(EncodeFrame, frames, s, k, rest)
    ensures var c := Interpret(step, d, PiecesOf(frames[..k]));
      Feed(step, d, [], cuts) == Dispatched(c.decoder, rest, c.events)
    ensures !Dead(rest) && !FrontOf(rest).Whole?
  {
    k, rest := FindCut(EncodeFrame, frames, s);
    DispatchArrived(step, d, frames, s, k, rest);
    assert [] + Flatten(cuts) == s;
    StreamingInvariance(step, d, [], cuts);
  }
}
