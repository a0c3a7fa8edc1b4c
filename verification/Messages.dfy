/** Messages as they are cut into frames for sending, and put together again by a receiver. */
module Messages {
  import opened Bytes
  import opened Frames
  import opened Receiver
  import Utf8

  /** Fragments are 32K long. */
  const CHUNK_SIZE: nat := 0x8000

  /** A data message: text or binary. */
  datatype Message = Message(text: bool, data: seq<byte>) {
    function Opcode(): nat { if text then TEXT_FRAME else BINARY_FRAME }
    function Kind(): DataKind { if text then MsgText else MsgBinary }
  }

  // ---- Cutting ----

  function Steps(size: nat): (n: nat)
    ensures n >= 1
  {
    if size < CHUNK_SIZE then 1 else size / CHUNK_SIZE
  }

  /** Octets of fragment i: a whole chunk, and for the last fragment everything that is left. */
  function FragmentOf(data: seq<byte>, i: nat): (part: seq<byte>)
    requires i < Steps(|data|)
  {
    if i + 1 == Steps(|data|) then data[i * CHUNK_SIZE..] else data[i * CHUNK_SIZE..(i + 1) * CHUNK_SIZE]
  }

  function FragmentPiece(opcode: nat, data: seq<byte>, i: nat): Piece
    requires i < Steps(|data|)
  {
    Piece(i + 1 == Steps(|data|), if i == 0 then opcode else CONTINUATION, FragmentOf(data, i))
  }

  /** The first k pieces of a payload sent with an opcode. */
  function Pieces(opcode: nat, data: seq<byte>, k: nat): (pieces: seq<Piece>)
    requires k <= Steps(|data|)
    ensures |pieces| == k
  {
    seq(k, i requires 0 <= i < k => FragmentPiece(opcode, data, i))
  }

  lemma OneMorePiece(opcode: nat, data: seq<byte>, k: nat)
    requires k < Steps(|data|)
    ensures Pieces(opcode, data, k + 1) == Pieces(opcode, data, k) + [FragmentPiece(opcode, data, k)]
  {
  }

  function AllPieces(opcode: nat, data: seq<byte>): seq<Piece> {
    Pieces(opcode, data, Steps(|data|))
  }

  /** Only the last fragment is longer than a chunk, and no fragment needs the 64-bit length form. */
  lemma FragmentSizes(data: seq<byte>, i: nat)
    requires i < Steps(|data|)
    ensures i + 1 < Steps(|data|) ==> |FragmentOf(data, i)| == CHUNK_SIZE
    ensures |FragmentOf(data, i)| < 65536
    ensures |ExtendedLength(|FragmentOf(data, i)|)| <= 2
  {
  }

  function PayloadsOf(pieces: seq<Piece>): seq<seq<byte>> {
    if pieces == [] then [] else PayloadsOf(pieces[..|pieces| - 1]) + [pieces[|pieces| - 1].payload]
  }

  lemma SplitAt<T>(s: seq<T>, i: nat, j: nat)
    requires i <= j <= |s|
    ensures s[..j] == s[..i] + s[i..j]
  {
  }

  lemma {:induction false} PrefixConcatenates(opcode: nat, data: seq<byte>, k: nat)
    requires k < Steps(|data|)
    ensures k * CHUNK_SIZE <= |data|
    ensures Flatten(PayloadsOf(Pieces(opcode, data, k))) == data[..k * CHUNK_SIZE]
  {
    if k > 0 {
      PrefixConcatenates(opcode, data, k - 1);
      var pieces := Pieces(opcode, data, k);
      OneMorePiece(opcode, data, k - 1);
      assert pieces[..k - 1] == Pieces(opcode, data, k - 1);
      FlattenSnoc(PayloadsOf(pieces[..k - 1]), pieces[k - 1].payload);
      SplitAt(data, (k - 1) * CHUNK_SIZE, k * CHUNK_SIZE);
    }
  }

  /** The fragments of a message, put together, are the message. */
  lemma FragmentsConcatenate(opcode: nat, data: seq<byte>)
    ensures Flatten(PayloadsOf(AllPieces(opcode, data))) == data
  {
    var last := Steps(|data|) - 1;
    PrefixConcatenates(opcode, data, last);
    var pieces := AllPieces(opcode, data);
    OneMorePiece(opcode, data, last);
    assert pieces[..last] == Pieces(opcode, data, last);
    FlattenSnoc(PayloadsOf(pieces[..last]), pieces[last].payload);
    assert data == data[..last * CHUNK_SIZE] + data[last * CHUNK_SIZE..];
  }

  /**
    * Section 5.4 of RFC 6455. The frames of a message carry it piece by piece: together the payload, the opcode on
    * the first only, FIN on the last only, and in none of them a payload that needs the 64-bit length form.
    */
  lemma Fragmentation(opcode: nat, data: seq<byte>)
    ensures var pieces := AllPieces(opcode, data);
      && Flatten(PayloadsOf(pieces)) == data && |pieces| == Steps(|data|)
      && forall i :: 0 <= i < |pieces| ==>
           && (pieces[i].fin <==> i == |pieces| - 1)
           && pieces[i].opcode == (if i == 0 then opcode else CONTINUATION)
           && |pieces[i].payload| < 65536
  {
    var pieces := AllPieces(opcode, data);
    FragmentsConcatenate(opcode, data);
    forall i | 0 <= i < |pieces| ensures |pieces[i].payload| < 65536 {
      FragmentSizes(data, i);
    }
  }

  // ---- Putting together ----

  function FragmentEvents(n: nat): seq<Event> {
    if n == 0 then [] else FragmentEvents(n - 1) + [Deliver(Kind.Fragment, [])]
  }

  /** What a receiver's callback sees of one message: an event a fragment, then the message. */
  function EventsOf(m: Message): seq<Event> {
    FragmentEvents(Steps(|m.data|) - 1) + Emit(m.Kind(), m.data)
  }

  function DataPieces(m: Message): seq<Piece> {
    AllPieces(m.Opcode(), m.data)
  }

  lemma ConsumeFirst(m: Message, d: Decoder, p: Piece, pong: bool)
    requires d.chunks == [] && p.opcode == m.Opcode() && !p.fin
    ensures Consume(d, p, pong) == Consumed(Decoder([p.payload], m.Kind()), [Deliver(Kind.Fragment, [])])
  {
    assert [] + [p.payload] == [p.payload];
    assert [] + [Deliver(Kind.Fragment, [])] == [Deliver(Kind.Fragment, [])];
  }

  lemma ConsumeOnly(m: Message, d: Decoder, p: Piece, pong: bool)
    requires d.chunks == [] && p.opcode == m.Opcode() && p.fin
    ensures Consume(d, p, pong) == Consumed(Decoder([], m.Kind()), Emit(m.Kind(), p.payload))
  {
    assert [] + Emit(m.Kind(), p.payload) == Emit(m.Kind(), p.payload);
  }

  lemma ConsumeMiddle(d: Decoder, p: Piece, pong: bool)
    requires d.chunks != [] && p.opcode == CONTINUATION && !p.fin
    ensures Consume(d, p, pong) == Consumed(Decoder(d.chunks + [p.payload], d.kind), [Deliver(Kind.Fragment, [])])
  {
    assert [] + [Deliver(Kind.Fragment, [])] == [Deliver(Kind.Fragment, [])];
  }

  lemma ConsumeLast(d: Decoder, p: Piece, pong: bool)
    requires d.chunks != [] && p.opcode == CONTINUATION && p.fin
    ensures Consume(d, p, pong) == Consumed(Decoder([], d.kind), Emit(d.kind, Flatten(d.chunks + [p.payload])))
  {
    var message := Emit(d.kind, Flatten(d.chunks + [p.payload]));
    assert [] + message == message;
  }

  lemma {:induction false} InterpretPrefix(m: Message, k: nat, d: Decoder, pong: bool)
    requires 0 < k < Steps(|m.data|) && d.chunks == []
    ensures Interpret(Consumer(pong), d, Pieces(m.Opcode(), m.data, k))
         == Consumed(Decoder(PayloadsOf(Pieces(m.Opcode(), m.data, k)), m.Kind()), FragmentEvents(k))
  {
    var step := Consumer(pong);
    var before, last := Pieces(m.Opcode(), m.data, k - 1), FragmentPiece(m.Opcode(), m.data, k - 1);
    OneMorePiece(m.Opcode(), m.data, k - 1);
    InterpretSnoc(step, d, before, last);
    PayloadsSnoc(before, last);
    if k > 1 {
      InterpretPrefix(m, k - 1, d, pong);
      PayloadsNonempty(before);
      ConsumeMiddle(Decoder(PayloadsOf(before), m.Kind()), last, pong);
    } else {
      ConsumeFirst(m, d, last, pong);
    }
  }

  lemma PayloadsSnoc(before: seq<Piece>, last: Piece)
    ensures PayloadsOf(before + [last]) == PayloadsOf(before) + [last.payload]
  {
    assert (before + [last])[..|before|] == before;
  }

  lemma PayloadsNonempty(pieces: seq<Piece>)
    requires pieces != []
    ensures PayloadsOf(pieces) != []
  {
  }

  lemma InterpretSnoc<D>(step: (D, Piece) -> Consumed<D>, d: D, before: seq<Piece>, last: Piece)
    ensures var x := Interpret(step, d, before);
      var y := step(x.decoder, last);
      Interpret(step, d, before + [last]) == Consumed(y.decoder, x.events + y.events)
  {
    InterpretConcat(step, d, before, [last]);
    var x := Interpret(step, d, before);
    assert [last][1..] == [];
    assert step(x.decoder, last).events + [] == step(x.decoder, last).events;
  }

  /** A receiver between messages turns the pieces of one message into exactly that message. */
  lemma InterpretMessage(m: Message, d: Decoder, pong: bool)
    requires d.chunks == []
    ensures Interpret(Consumer(pong), d, DataPieces(m)) == Consumed(Decoder([], m.Kind()), EventsOf(m))
  {
    var k := Steps(|m.data|) - 1;
    var before, last := Pieces(m.Opcode(), m.data, k), FragmentPiece(m.Opcode(), m.data, k);
    OneMorePiece(m.Opcode(), m.data, k);
    InterpretSnoc(Consumer(pong), d, before, last);
    if k > 0 {
      InterpretPrefix(m, k, d, pong);
      PayloadsNonempty(before);
      ConsumeLast(Decoder(PayloadsOf(before), m.Kind()), last, pong);
      PayloadsSnoc(before, last);
      FragmentsConcatenate(m.Opcode(), m.data);
    } else {
      ConsumeOnly(m, d, last, pong);
      assert last.payload == m.data;
    }
  }
}
