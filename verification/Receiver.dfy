/**
  * The receiving half of the transport as functions on buffers: what one dispatch does with the octets
  * it finds, independently of how they arrived.
  */
module Receiver {
  import opened Bytes
  import opened Frames
  import Text
  import Utf8

  // ---- Close codes and messages ----

  const PROTOCOL_ERROR: nat := 1002
  const NO_STATUS_CODE: nat := 1005
  const INVALID_PAYLOAD: nat := 1007

  const RESERVED_BIT_USED := Text.Ascii("Reserved bit used")
  const CONTROL_FRAGMENTED := Text.Ascii("Control message fragmented")
  const DATA_OUT_OF_SEQUENCE := Text.Ascii("Fragmentation: data message out of sequence")
  const CONTINUATION_OUT_OF_SEQUENCE := Text.Ascii("Fragmentation: continuation opcode out of sequence")
  const PING_OVERSIZED := Text.Ascii("Ping reason control frame with payload length > 125 octets")
  const PROTOCOL_ERROR_MESSAGE := Text.Ascii("Protocol error")
  const INVALID_PAYLOAD_MESSAGE := Text.Ascii("Invalid frame payload data")
  const NO_STATUS_CODE_MESSAGE := Text.Ascii("No status code")
  const INVALID_CLOSE_CODE := "Invalid close code"

  // ---- Events ----

  datatype Kind = MsgText | MsgBinary | Ping | Pong | Fragment

  datatype Event =
    | Deliver(kind: Kind, data: seq<byte>)                 // the message callback runs
    | Reply(data: seq<byte>)                               // a PONG frame is sent back
    | Fail(code: nat, reason: seq<byte>, measured: bool)   // close() is called, with the buffer's size or with none
    | PeerClose(code: nat, reason: seq<byte>)              // a CLOSE frame was read, with this status

  /** The kinds a message can have; the program assigns no other to the message being assembled. */
  type DataKind = k: Kind | k == MsgText || k == MsgBinary witness MsgText

  /** The fragments of the message being assembled, and the kind its first frame announced. */
  datatype Decoder = Decoder(chunks: seq<seq<byte>>, kind: DataKind)

  /** A text message has to be UTF-8. */
  predicate Wholesome(kind: Kind, message: seq<byte>) { kind == MsgText ==> Utf8.Accepts(message) }

  function Emit(kind: Kind, message: seq<byte>): seq<Event> {
    if Wholesome(kind, message) then [Deliver(kind, message)]
    else [Fail(INVALID_PAYLOAD, INVALID_PAYLOAD_MESSAGE, false)]
  }

  predicate IsControl(opcode: nat) { opcode == PING || opcode == PONG || opcode == CLOSE }

  predicate IsData(opcode: nat) { opcode == TEXT_FRAME || opcode == BINARY_FRAME || opcode == CONTINUATION }

  // ---- Reading a CLOSE payload ----

  predicate InvalidCode(code: nat) { code < 1000 || code == 1004 || code == 1006 || (1013 < code < 3000) }

  datatype Status = Status(code: nat, reason: seq<byte>)

  function ReadStatus(payload: seq<byte>): (s: Status)
    ensures s.code < 0x1_0000
  {
    if |payload| < 2 then Status(NO_STATUS_CODE, NO_STATUS_CODE_MESSAGE)
    else
      var high: nat := payload[0];
      var code := high * 256 + payload[1];
      var reason := payload[2..];
      var checked := if Utf8.Accepts(reason) then Status(code, reason)
                     else Status(INVALID_PAYLOAD, INVALID_PAYLOAD_MESSAGE);
      if InvalidCode(checked.code)
      then Status(PROTOCOL_ERROR, Text.Ascii(INVALID_CLOSE_CODE + ": " + Text.Decimal(checked.code)))
      else checked
  }

  /** The payload that announces a status: nothing at all for code 1005. */
  function ClosePayload(code: nat, reason: seq<byte>): seq<byte> {
    if code == NO_STATUS_CODE then [] else [code / 256 % 256, code % 256] + reason
  }

  // ---- One whole frame ----

  datatype Consumed<D> = Consumed(decoder: D, events: seq<Event>)

  function OutOfSequence(d: Decoder, opcode: nat): seq<Event> {
    if opcode != CONTINUATION && d.chunks != [] then [Fail(PROTOCOL_ERROR, DATA_OUT_OF_SEQUENCE, false)]
    else if opcode == CONTINUATION && d.chunks == [] then [Fail(PROTOCOL_ERROR, CONTINUATION_OUT_OF_SEQUENCE, false)]
    else []
  }

  function KindAfter(d: Decoder, opcode: nat): DataKind {
    if opcode == TEXT_FRAME then MsgText else if opcode == BINARY_FRAME then MsgBinary else d.kind
  }

  /** A fragment joins the message being assembled, or completes it. */
  function Assemble(d: Decoder, fin: bool, payload: seq<byte>): Consumed<Decoder> {
    if fin && d.chunks == [] then Consumed(d, Emit(d.kind, payload))
    else
      var chunks := d.chunks + [payload];
      if fin then Consumed(Decoder([], d.kind), Emit(d.kind, Flatten(chunks)))
      else Consumed(Decoder(chunks, d.kind), [Deliver(Fragment, [])])
  }

  function ConsumeData(d: Decoder, p: Piece): Consumed<Decoder> {
    var c := Assemble(Decoder(d.chunks, KindAfter(d, p.opcode)), p.fin, p.payload);
    Consumed(c.decoder, OutOfSequence(d, p.opcode) + c.events)
  }

  function CloseEvent(payload: seq<byte>): Event {
    var status := ReadStatus(payload);
    PeerClose(status.code, status.reason)
  }

  function Consume(d: Decoder, p: Piece, pong: bool): Consumed<Decoder> {
    if IsData(p.opcode) then ConsumeData(d, p)
    else if p.opcode == PING then
      Consumed(d, (if pong then [Reply(p.payload)] else []) + [Deliver(Ping, p.payload)])
    else if p.opcode == PONG then Consumed(d, [Deliver(Pong, p.payload)])
    else if p.opcode == CLOSE then Consumed(d, [CloseEvent(p.payload)])
    else Consumed(d, [Fail(PROTOCOL_ERROR, PROTOCOL_ERROR_MESSAGE, true)])
  }

  // ---- The front of the buffer ----

  datatype Front =
    | Short                                                // the header is not complete
    | Reserved                                             // a reserved bit is set
    | Oversized                                            // announced length above the maximum
    | Partial(total: nat)                                  // the payload is not complete
    | BrokenControl                                        // a control frame without FIN
    | BrokenPing(header: Header, payload: seq<byte>)       // a PING of more than 125 octets
    | Whole(piece: Piece, total: nat)

  /** The payload behind a header, unmasked. */
  function PayloadOf(h: Header, buf: seq<byte>): (payload: seq<byte>)
    requires h.Valid() && h.size + h.length <= |buf|
    ensures |payload| == h.length
  {
    var raw := buf[h.size..h.size + h.length];
    if h.mask then Mask(raw, h.key) else raw
  }

  /** The front is not longer than the buffer it is in front of. */
  predicate FrontFits(f: Front, buf: seq<byte>) {
    && (f.Whole? ==> 2 <= f.total <= |buf|)
    && (f.BrokenPing? ==> |f.payload| == f.header.length && f.header.size + f.header.length <= |buf|)
  }

  function FrontOf(buf: seq<byte>): (f: Front)
    ensures FrontFits(f, buf)
  {
    match ParseHeader(buf)
    case None => Short
    case Some(h) => FrontWith(h, buf)
  }

  function FrontWith(h: Header, buf: seq<byte>): (f: Front)
    requires h.Valid()
    ensures FrontFits(f, buf)
  {
    if h.rsv1 || h.rsv2 || h.rsv3 then Reserved
    else if h.length > MAX_FRAME_SIZE then Oversized
    else if |buf| < h.size + h.length then Partial(h.size + h.length)
    else if !h.fin && IsControl(h.opcode) then BrokenControl
    else if h.opcode == PING && h.length > 125 then BrokenPing(h, PayloadOf(h, buf))
    else Whole(Piece(h.fin, h.opcode, PayloadOf(h, buf)), h.size + h.length)
  }

  /** Nothing behind such a front is ever read. */
  predicate Blocked(f: Front) { f.Reserved? || f.Oversized? || f.BrokenControl? || f.BrokenPing? }

  function BlockedEvents(f: Front): seq<Event>
    requires Blocked(f)
  {
    match f
    case Reserved => [Fail(PROTOCOL_ERROR, RESERVED_BIT_USED, true)]
    case Oversized => []
    case BrokenControl => [Fail(PROTOCOL_ERROR, CONTROL_FRAGMENTED, false)]
    case BrokenPing(_, _) => [Fail(PROTOCOL_ERROR, PING_OVERSIZED, false)]
  }

  /** The buffer a blocked dispatch leaves: a refused PING has been unmasked in place. */
  function BlockedBuffer(f: Front, buf: seq<byte>): (r: seq<byte>)
    requires Blocked(f) && FrontFits(f, buf)
    ensures |r| == |buf|
  {
    if f.BrokenPing? then buf[..f.header.size] + f.payload + buf[f.header.size + f.header.length..] else buf
  }

  // ---- A dispatch ----

  datatype Dispatched<D> = Dispatched(decoder: D, buf: seq<byte>, events: seq<Event>)

  function Prefixed<D>(c: Consumed<D>, r: Dispatched<D>): Dispatched<D> {
    Dispatched(r.decoder, r.buf, c.events + r.events)
  }

  /** The loop of a dispatch, for any way of consuming one whole frame. */
  function DispatchWith<D>(step: (D, Piece) -> Consumed<D>, d: D, buf: seq<byte>): (r: Dispatched<D>)
    ensures |r.buf| <= |buf|
    decreases |buf|
  {
    var f := FrontOf(buf);
    if f.Whole? then
      var c := step(d, f.piece);
      Prefixed(c, DispatchWith(step, c.decoder, buf[f.total..]))
    else if Blocked(f) then Dispatched(d, BlockedBuffer(f, buf), BlockedEvents(f))
    else Dispatched(d, buf, [])
  }

  function Consumer(pong: bool): (Decoder, Piece) -> Consumed<Decoder> {
    (d, p) => Consume(d, p, pong)
  }

  function Dispatch(d: Decoder, buf: seq<byte>, pong: bool): (r: Dispatched<Decoder>) {
    DispatchWith(Consumer(pong), d, buf)
  }

  // ---- Streaming invariance ----

  lemma PayloadStable(h: Header, buf: seq<byte>, more: seq<byte>)
    requires h.Valid() && h.size + h.length <= |buf|
    ensures PayloadOf(h, buf + more) == PayloadOf(h, buf)
  {
    assert (buf + more)[h.size..h.size + h.length] == buf[h.size..h.size + h.length];
  }

  /** More octets never change a front that is whole or blocked. */
  lemma FrontStable(buf: seq<byte>, more: seq<byte>)
    requires FrontOf(buf).Whole? || Blocked(FrontOf(buf))
    ensures FrontOf(buf + more) == FrontOf(buf)
  {
    ParseHeaderStable(buf, more);
    var h := ParseHeader(buf).value;
    if h.size + h.length <= |buf| {
      PayloadStable(h, buf, more);
    }
  }

  /** A dispatch after which the front of the buffer is blocked: the stream is dead. */
  predicate Dead(buf: seq<byte>) { Blocked(FrontOf(buf)) }

  lemma BlockedBufferDead(buf: seq<byte>)
    requires Dead(buf)
    ensures Dead(BlockedBuffer(FrontOf(buf), buf))
  {
    var f := FrontOf(buf);
    if f.BrokenPing? {
      var h := f.header;
      var r := BlockedBuffer(f, buf);
      assert r == buf[..h.size] + (f.payload + buf[h.size + h.length..]);
      assert buf == buf[..h.size] + buf[h.size..];
      HeaderOfPrefix(buf[..h.size], buf[h.size..]);
      HeaderOfPrefix(buf[..h.size], f.payload + buf[h.size + h.length..]);
    }
  }

  /** A header depends on its own octets only. */
  lemma HeaderOfPrefix(header: seq<byte>, rest: seq<byte>)
    requires ParseHeader(header + rest).Some? && ParseHeader(header + rest).value.size == |header|
    ensures ParseHeader(header) == ParseHeader(header + rest)
  {
    assert (header + rest)[1] == header[1];
    ParseHeaderStable(header, rest);
  }

  lemma DispatchWhole<D>(step: (D, Piece) -> Consumed<D>, d: D, buf: seq<byte>, f: Front, rest: seq<byte>)
    requires f == FrontOf(buf) && f.Whole? && rest == buf[f.total..]
    ensures var c := step(d, f.piece);
      DispatchWith(step, d, buf) == Prefixed(c, DispatchWith(step, c.decoder, rest))
  {
  }

  lemma DispatchBlocked<D>(step: (D, Piece) -> Consumed<D>, d: D, buf: seq<byte>)
    requires Dead(buf)
    ensures var f := FrontOf(buf);
      DispatchWith(step, d, buf) == Dispatched(d, BlockedBuffer(f, buf), BlockedEvents(f))
    ensures Dead(DispatchWith(step, d, buf).buf)
  {
    BlockedBufferDead(buf);
  }

  /** The second dispatch goes on where the first one stopped. */
  ghost predicate Continues<D(!new)>(step: (D, Piece) -> Consumed<D>, d: D, a: seq<byte>, b: seq<byte>) {
    var first := DispatchWith(step, d, a);
    var whole := DispatchWith(step, d, a + b);
    if Dead(first.buf) then whole.decoder == first.decoder && whole.events == first.events && Dead(whole.buf)
    else
      var second := DispatchWith(step, first.decoder, first.buf + b);
      whole == Dispatched(second.decoder, second.buf, first.events + second.events)
  }

  /** Dispatching a buffer in two halves is dispatching it whole. */
  lemma {:induction false} DispatchSplit<D(!new)>(step: (D, Piece) -> Consumed<D>, d: D, a: seq<byte>, b: seq<byte>)
    ensures Continues(step, d, a, b)
    decreases |a|
  {
    var f := FrontOf(a);
    if f.Whole? {
      DispatchSplit(step, step(d, f.piece).decoder, a[f.total..], b);
      ContinuesAfter(step, d, a, b);
    } else if Blocked(f) {
      ContinuesBlocked(step, d, a, b);
    } else {
      ContinuesWaiting(step, d, a, b);
    }
  }

  lemma ContinuesBlocked<D(!new)>(step: (D, Piece) -> Consumed<D>, d: D, a: seq<byte>, b: seq<byte>)
    requires Dead(a)
    ensures Continues(step, d, a, b)
  {
    FrontStable(a, b);
    DispatchBlocked(step, d, a);
    DispatchBlocked(step, d, a + b);
  }

  lemma ContinuesWaiting<D(!new)>(step: (D, Piece) -> Consumed<D>, d: D, a: seq<byte>, b: seq<byte>)
    requires !FrontOf(a).Whole? && !Dead(a)
    ensures Continues(step, d, a, b)
  {
    assert DispatchWith(step, d, a) == Dispatched(d, a, []);
    var second := DispatchWith(step, d, a + b);
    assert [] + second.events == second.events;
  }

  lemma ContinuesAfter<D(!new)>(step: (D, Piece) -> Consumed<D>, d: D, a: seq<byte>, b: seq<byte>)
    requires FrontOf(a).Whole?
    requires Continues(step, step(d, FrontOf(a).piece).decoder, a[FrontOf(a).total..], b)
    ensures Continues(step, d, a, b)
  {
    var f := FrontOf(a);
    BothWhole(step, d, a, b, f);
    ContinuesPrefixed(step, d, a, b, step(d, f.piece), a[f.total..]);
  }

  lemma BothWhole<D>(step: (D, Piece) -> Consumed<D>, d: D, a: seq<byte>, b: seq<byte>, f: Front)
    requires f == FrontOf(a) && f.Whole?
    ensures var c := step(d, f.piece);
      && DispatchWith(step, d, a) == Prefixed(c, DispatchWith(step, c.decoder, a[f.total..]))
      && DispatchWith(step, d, a + b) == Prefixed(c, DispatchWith(step, c.decoder, a[f.total..] + b))
  {
    DispatchWhole(step, d, a, f, a[f.total..]);
    WholeWithMore(a, b, f);
    DispatchWhole(step, d, a + b, f, a[f.total..] + b);
  }

  lemma WholeWithMore(a: seq<byte>, b: seq<byte>, f: Front)
    requires f == FrontOf(a) && f.Whole?
    ensures FrontOf(a + b) == f && f.total <= |a + b| && (a + b)[f.total..] == a[f.total..] + b
  {
    FrontStable(a, b);
  }

  lemma ContinuesPrefixed<D(!new)>(
    step: (D, Piece) -> Consumed<D>, d: D, a: seq<byte>, b: seq<byte>, c: Consumed<D>, rest: seq<byte>)
    requires Continues(step, c.decoder, rest, b)
    requires DispatchWith(step, d, a) == Prefixed(c, DispatchWith(step, c.decoder, rest))
    requires DispatchWith(step, d, a + b) == Prefixed(c, DispatchWith(step, c.decoder, rest + b))
    ensures Continues(step, d, a, b)
  {
    var first := DispatchWith(step, c.decoder, rest);
    if !Dead(first.buf) {
      ConcatAssociative(c.events, first.events, DispatchWith(step, first.decoder, first.buf + b).events);
    }
  }

  /** Receives that are each followed by a dispatch. */
  function Feed<D>(step: (D, Piece) -> Consumed<D>, d: D, buf: seq<byte>, cuts: seq<seq<byte>>): Dispatched<D>
    decreases |cuts|
  {
    if cuts == [] then Dispatched(d, buf, [])
    else
      var r := DispatchWith(step, d, buf + cuts[0]);
      Prefixed(Consumed(r.decoder, r.events), Feed(step, r.decoder, r.buf, cuts[1..]))
  }

  lemma {:induction false} FeedSnoc<D>(
    step: (D, Piece) -> Consumed<D>, d: D, buf: seq<byte>, cuts: seq<seq<byte>>, last: seq<byte>)
    ensures var fed := Feed(step, d, buf, cuts);
      Feed(step, d, buf, cuts + [last])
      == Prefixed(Consumed(fed.decoder, fed.events), DispatchWith(step, fed.decoder, fed.buf + last))
    decreases |cuts|
  {
    if cuts == [] {
      var r := DispatchWith(step, d, buf + last);
      assert ([] + [last])[1..] == [];
      assert r.events + [] == r.events;
      assert [] + r.events == r.events;
    } else {
      var r := DispatchWith(step, d, buf + cuts[0]);
      FeedSnoc(step, r.decoder, r.buf, cuts[1..], last);
      assert (cuts + [last])[1..] == cuts[1..] + [last];
      var fed := Feed(step, r.decoder, r.buf, cuts[1..]);
      ConcatAssociative(r.events, fed.events, DispatchWith(step, fed.decoder, fed.buf + last).events);
    }
  }

  function EffectOf(e: Event): seq<Event> {
    if e.Fail? then [] else [e]
  }

  /** The events without the close() calls, which a dead stream repeats at every dispatch. */
  function Effects(events: seq<Event>): seq<Event> {
    FlatMap(EffectOf, events)
  }

  lemma {:induction false} DispatchSettles<D>(step: (D, Piece) -> Consumed<D>, d: D, buf: seq<byte>)
    ensures !FrontOf(DispatchWith(step, d, buf).buf).Whole?
    decreases |buf|
  {
    var f := FrontOf(buf);
    if f.Whole? {
      DispatchSettles(step, step(d, f.piece).decoder, buf[f.total..]);
    } else if Blocked(f) {
      BlockedBufferDead(buf);
    }
  }

  lemma {:induction false} FeedDead<D>(step: (D, Piece) -> Consumed<D>, d: D, buf: seq<byte>, cuts: seq<seq<byte>>)
    requires Dead(buf)
    ensures var fed := Feed(step, d, buf, cuts); fed.decoder == d && Effects(fed.events) == [] && Dead(fed.buf)
    decreases |cuts|
  {
    if cuts != [] {
      FrontStable(buf, cuts[0]);
      DispatchBlocked(step, d, buf + cuts[0]);
      var r := DispatchWith(step, d, buf + cuts[0]);
      FeedDead(step, d, r.buf, cuts[1..]);
      FlatMapConcat(EffectOf, r.events, Feed(step, d, r.buf, cuts[1..]).events);
      BlockedHasNoEffect(FrontOf(buf + cuts[0]));
    }
  }

  lemma BlockedHasNoEffect(f: Front)
    requires Blocked(f)
    ensures Effects(BlockedEvents(f)) == []
  {
    var events := BlockedEvents(f);
    if events != [] {
      assert events == [events[0]] + [];
      FlatMapCons(EffectOf, events[0], []);
    }
  }

  /** How a stream fed in cuts relates to one dispatch of all of it. */
  ghost predicate SameAsWhole<D(!new)>(fed: Dispatched<D>, whole: Dispatched<D>) {
    if Dead(whole.buf)
    then fed.decoder == whole.decoder && Effects(fed.events) == Effects(whole.events) && Dead(fed.buf)
    else fed == whole
  }

  /**
    * Streaming invariance, on every octet stream. However the stream is cut into receives, the callbacks,
    * the fragments and the message kind are those of one dispatch of the whole; so is the buffer, unless
    * the stream ran into a frame that blocks it.
    */
  lemma {:induction false} StreamingInvariance<D(!new)>(
    step: (D, Piece) -> Consumed<D>, d: D, buf: seq<byte>, cuts: seq<seq<byte>>)
    requires !FrontOf(buf).Whole? && !Dead(buf)
    ensures SameAsWhole(Feed(step, d, buf, cuts), DispatchWith(step, d, buf + Flatten(cuts)))
    decreases |cuts|
  {
    if cuts == [] {
      assert buf + Flatten(cuts) == buf;
    } else {
      var first := DispatchWith(step, d, buf + cuts[0]);
      var tail := Flatten(cuts[1..]);
      DispatchSplit(step, d, buf + cuts[0], tail);
      ConcatAssociative(buf, cuts[0], tail);
      DispatchSettles(step, d, buf + cuts[0]);
      var later := Feed(step, first.decoder, first.buf, cuts[1..]);
      FlatMapConcat(EffectOf, first.events, later.events);
      if Dead(first.buf) {
        FeedDead(step, first.decoder, first.buf, cuts[1..]);
      } else {
        StreamingInvariance(step, first.decoder, first.buf, cuts[1..]);
        FlatMapConcat(EffectOf, first.events, DispatchWith(step, first.decoder, first.buf + tail).events);
      }
    }
  }

  // ---- Decoding what was encoded ----

  /** Frames a dispatch takes: control frames are final, and a PING carries at most 125 octets. */
  predicate Readable(p: Piece) {
    (IsControl(p.opcode) ==> p.fin) && (p.opcode == PING ==> |p.payload| <= 125)
  }

  predicate AllReadable(pieces: seq<Piece>) {
    forall i :: 0 <= i < |pieces| ==> Readable(pieces[i])
  }

  /** The consuming of whole frames, one after the other. */
  function Interpret<D>(step: (D, Piece) -> Consumed<D>, d: D, pieces: seq<Piece>): Consumed<D> {
    if pieces == [] then Consumed(d, [])
    else
      var c := step(d, pieces[0]);
      var r := Interpret(step, c.decoder, pieces[1..]);
      Consumed(r.decoder, c.events + r.events)
  }

  lemma {:induction false} InterpretConcat<D>(step: (D, Piece) -> Consumed<D>, d: D, a: seq<Piece>, b: seq<Piece>)
    ensures var x := Interpret(step, d, a);
      var y := Interpret(step, x.decoder, b);
      Interpret(step, d, a + b) == Consumed(y.decoder, x.events + y.events)
    decreases |a|
  {
    if a == [] {
      assert a + b == b;
    } else {
      var c := step(d, a[0]);
      InterpretConcat(step, c.decoder, a[1..], b);
      assert (a + b)[1..] == a[1..] + b;
      var x := Interpret(step, c.decoder, a[1..]);
      ConcatAssociative(c.events, x.events, Interpret(step, x.decoder, b).events);
    }
  }

  lemma EncodedPayload(f: Frame, rest: seq<byte>, h: Header)
    requires h == ParseHeader(EncodeHeader(f)).value
    requires ParseHeader(EncodeHeader(f)).Some? && h.size == |EncodeHeader(f)| && h.length == |f.piece.payload|
    requires h.mask == f.mask && (f.mask ==> h.key == f.key)
    ensures h.size + h.length <= |EncodeFrame(f) + rest|
    ensures PayloadOf(h, EncodeFrame(f) + rest) == f.piece.payload
  {
    var s := EncodeFrame(f) + rest;
    assert s == EncodeHeader(f) + (EncodeBody(f) + rest);
    assert s[h.size..h.size + h.length] == EncodeBody(f);
    if f.mask {
      MaskInvolutive(f.piece.payload, f.key);
    }
  }

  lemma HeaderOfEncoded(f: Frame, rest: seq<byte>)
    ensures ParseHeader(EncodeHeader(f)).Some?
    ensures ParseHeader(EncodeFrame(f) + rest) == ParseHeader(EncodeHeader(f))
  {
    ParseEncodedHeader(f);
    assert EncodeFrame(f) + rest == EncodeHeader(f) + (EncodeBody(f) + rest);
    ParseHeaderStable(EncodeHeader(f), EncodeBody(f) + rest);
  }

  /** The front of a buffer that begins with an encoded frame is that frame, unmasked. */
  lemma FrontOfEncoded(f: Frame, rest: seq<byte>)
    requires Readable(f.piece)
    ensures FrontOf(EncodeFrame(f) + rest) == Whole(f.piece, |EncodeFrame(f)|)
  {
    HeaderOfEncoded(f, rest);
    var h := ParseHeader(EncodeHeader(f)).value;
    ParseEncodedHeader(f);
    EncodedPayload(f, rest, h);
    FrontWithPayload(h, EncodeFrame(f) + rest, f.piece);
  }

  lemma FrontWithPayload(h: Header, buf: seq<byte>, p: Piece)
    requires h.Valid() && !h.rsv1 && !h.rsv2 && !h.rsv3 && h.length <= MAX_FRAME_SIZE && h.size + h.length <= |buf|
    requires Readable(p) && p == Piece(h.fin, h.opcode, PayloadOf(h, buf))
    ensures FrontWith(h, buf) == Whole(p, h.size + h.length)
  {
  }

  /** Dispatching encoded frames: masks, keys and length forms are gone, the pieces are consumed in order. */
  lemma {:induction false} DispatchEncoded<D>(
    step: (D, Piece) -> Consumed<D>, d: D, frames: seq<Frame>, tail: seq<byte>)
    requires AllReadable(PiecesOf(frames))
    ensures var c := Interpret(step, d, PiecesOf(frames));
      DispatchWith(step, d, EncodeAll(frames) + tail) == Prefixed(c, DispatchWith(step, c.decoder, tail))
    decreases |frames|
  {
    if frames == [] {
      assert EncodeAll(frames) + tail == tail;
    } else {
      var f, rest := frames[0], frames[1..];
      var pieces := PiecesOf(frames);
      assert pieces[1..] == PiecesOf(rest);
      var c := step(d, f.piece);
      DispatchEncoded(step, c.decoder, rest, tail);
      var s := EncodeAll(frames) + tail;
      var behind := EncodeAll(rest) + tail;
      ConcatAssociative(EncodeFrame(f), EncodeAll(rest), tail);
      FrontOfEncoded(f, behind);
      assert s[|EncodeFrame(f)|..] == behind;
      DispatchWhole(step, d, s, FrontOf(s), behind);
      var x := Interpret(step, c.decoder, PiecesOf(rest));
      ConcatAssociative(c.events, x.events, DispatchWith(step, x.decoder, tail).events);
    }
  }
}
