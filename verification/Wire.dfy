/**
  * Sending threads on one connection. Data messages are sent under the write lock, fragment by fragment;
  * control frames are sent by the connection's own thread at any time, without it; and the socket takes what
  * it likes of the send buffer, whenever it likes.
  */
module Wire {
  import opened Bytes
  import opened Frames
  import opened Messages
  import opened Receiver
  import opened RoundTrip
  import Utf8

  /** The message a thread is sending under the write lock, and how many of its fragments are appended. */
  datatype Job = Job(thread: nat, message: Message, sent: nat)

  datatype Sent = Sent(thread: nat, message: Message)

  datatype Connection = Connection(
    wire: seq<byte>,                      // octets the socket has taken
    txbuf: seq<byte>,                     // the send buffer
    frames: seq<Frame>,                   // frames appended to it
    lock: Option<Job>,                    // the holder of the write lock
    done: seq<Sent>,                      // messages sent, in the order of the lock
    queues: map<nat, seq<Message>>)       // what each thread still has to send

  datatype Step =
    | Acquire(thread: nat)                // a thread begins its next message
    | Append(mask: bool, key: seq<byte>)  // the next fragment is appended
    | Release                             // the message is complete
    | Interject(frame: Frame)             // a control frame is appended
    | Write(count: nat)                   // the socket takes a part of the buffer

  function Appended(s: Connection, f: Frame): Connection {
    s.(txbuf := s.txbuf + EncodeFrame(f), frames := s.frames + [f])
  }

  /** Control frames as they are sent: PING and PONG of at most 125 octets, and CLOSE in one frame. */
  predicate IsInterjection(p: Piece) {
    IsPingPong(p) || (p.opcode == CLOSE && p.fin && |p.payload| < 2 * CHUNK_SIZE)
  }

  ghost predicate Next(s: Connection, step: Step, t: Connection) {
    match step
    case Acquire(thread) =>
      && s.lock == None && thread in s.queues && s.queues[thread] != []
      && var queue := s.queues[thread];
         t == s.(lock := Some(Job(thread, queue[0], 0)), queues := s.queues[thread := queue[1..]])
    case Append(mask, key) =>
      && s.lock.Some? && s.lock.value.sent < Steps(|s.lock.value.message.data|) && |key| == 4
      && var job := s.lock.value;
         FragmentSizes(job.message.data, job.sent);
         var p := FragmentPiece(job.message.Opcode(), job.message.data, job.sent);
         t == Appended(s, Frame(p, mask, key)).(lock := Some(Job(job.thread, job.message, job.sent + 1)))
    case Release =>
      && s.lock.Some? && s.lock.value.sent == Steps(|s.lock.value.message.data|)
      && t == s.(lock := None, done := s.done + [Sent(s.lock.value.thread, s.lock.value.message)])
    case Interject(frame) => IsInterjection(frame.piece) && t == Appended(s, frame)
    case Write(count) =>
      && 0 < count <= |s.txbuf|
      && t == s.(wire := s.wire + s.txbuf[..count], txbuf := s.txbuf[count..])
  }

  // ---- What every step keeps ----

  function MessagesOf(done: seq<Sent>): seq<Message> {
    seq(|done|, i requires 0 <= i < |done| => done[i].message)
  }

  /** The fragments of the message under way. */
  function Current(lock: Option<Job>): seq<Piece>
    requires lock.Some? ==> lock.value.sent <= Steps(|lock.value.message.data|)
  {
    if lock == None then []
    else Pieces(lock.value.message.Opcode(), lock.value.message.data, lock.value.sent)
  }

  function By(thread: nat): Sent -> seq<Message> {
    (s: Sent) => if s.thread == thread then [s.message] else []
  }

  function Holding(lock: Option<Job>, thread: nat): seq<Message> {
    if lock.Some? && lock.value.thread == thread then [lock.value.message] else []
  }

  /** Section 5.4 of RFC 6455: the data frames are whole messages, then a part of one; nothing is interleaved. */
  ghost predicate NotInterleaved(s: Connection) {
    && (s.lock.Some? ==> s.lock.value.sent <= Steps(|s.lock.value.message.data|))
    && (forall i :: 0 <= i < |s.frames| ==> IsData(s.frames[i].piece.opcode) || IsInterjection(s.frames[i].piece))
    && FlatMap(DataOf, PiecesOf(s.frames)) == FlatMap(DataPieces, MessagesOf(s.done)) + Current(s.lock)
  }

  /** Every octet of every frame is on the wire or in the buffer, in order and once. */
  ghost predicate Conserved(s: Connection) {
    s.wire + s.txbuf == EncodeAll(s.frames)
  }

  /** No thread's message is lost, repeated or overtaken by another of the same thread. */
  ghost predicate Accounted(s: Connection, queues: map<nat, seq<Message>>) {
    && s.queues.Keys == queues.Keys
    && forall thread :: thread in queues ==>
         FlatMap(By(thread), s.done) + Holding(s.lock, thread) + s.queues[thread] == queues[thread]
  }

  ghost predicate Inv(s: Connection, queues: map<nat, seq<Message>>) {
    Conserved(s) && NotInterleaved(s) && Accounted(s, queues)
  }

  lemma AppendedConserves(s: Connection, f: Frame)
    requires Conserved(s)
    ensures Conserved(Appended(s, f))
    ensures PiecesOf(Appended(s, f).frames) == PiecesOf(s.frames) + [f.piece]
    ensures FlatMap(DataOf, PiecesOf(Appended(s, f).frames)) == FlatMap(DataOf, PiecesOf(s.frames)) + DataOf(f.piece)
  {
    EncodeAllSnoc(s.frames, f);
    ConcatAssociative(s.wire, s.txbuf, EncodeFrame(f));
    assert PiecesOf(s.frames + [f]) == PiecesOf(s.frames) + [f.piece];
    FlatMapSnoc(DataOf, PiecesOf(s.frames), f.piece);
  }

  lemma WriteConserves(s: Connection, count: nat)
    requires Conserved(s) && count <= |s.txbuf|
    ensures Conserved(s.(wire := s.wire + s.txbuf[..count], txbuf := s.txbuf[count..]))
  {
    ConcatAssociative(s.wire, s.txbuf[..count], s.txbuf[count..]);
    assert s.txbuf[..count] + s.txbuf[count..] == s.txbuf;
  }

  lemma AppendKeeps(s: Connection, step: Step, t: Connection, queues: map<nat, seq<Message>>)
    requires Inv(s, queues) && step.Append? && Next(s, step, t)
    ensures Inv(t, queues)
  {
    var job := s.lock.value;
    FragmentSizes(job.message.data, job.sent);
    var p := FragmentPiece(job.message.Opcode(), job.message.data, job.sent);
    AppendedConserves(s, Frame(p, step.mask, step.key));
    OneMorePiece(job.message.Opcode(), job.message.data, job.sent);
    ConcatAssociative(FlatMap(DataPieces, MessagesOf(s.done)), Current(s.lock), [p]);
  }

  lemma ReleaseKeeps(s: Connection, t: Connection, queues: map<nat, seq<Message>>)
    requires Inv(s, queues) && Next(s, Release, t)
    ensures Inv(t, queues)
  {
    var job := s.lock.value;
    var last := Sent(job.thread, job.message);
    assert MessagesOf(t.done) == MessagesOf(s.done) + [job.message];
    FlatMapSnoc(DataPieces, MessagesOf(s.done), job.message);
    assert FlatMap(DataPieces, MessagesOf(t.done)) + [] == FlatMap(DataPieces, MessagesOf(t.done));
    forall thread | thread in queues
      ensures FlatMap(By(thread), t.done) + Holding(t.lock, thread) + t.queues[thread] == queues[thread]
    {
      FlatMapSnoc(By(thread), s.done, last);
      assert FlatMap(By(thread), t.done) + [] == FlatMap(By(thread), t.done);
    }
  }

  lemma AcquireKeeps(s: Connection, step: Step, t: Connection, queues: map<nat, seq<Message>>)
    requires Inv(s, queues) && step.Acquire? && Next(s, step, t)
    ensures Inv(t, queues)
  {
    var queue := s.queues[step.thread];
    assert Pieces(queue[0].Opcode(), queue[0].data, 0) == [];
    forall thread | thread in queues
      ensures FlatMap(By(thread), t.done) + Holding(t.lock, thread) + t.queues[thread] == queues[thread]
    {
      var before := FlatMap(By(thread), s.done);
      assert before + [] == before;
      if thread == step.thread {
        ConcatAssociative(before, [queue[0]], queue[1..]);
        assert [queue[0]] + queue[1..] == queue;
      }
    }
  }

  lemma StepKeeps(s: Connection, step: Step, t: Connection, queues: map<nat, seq<Message>>)
    requires Inv(s, queues) && Next(s, step, t)
    ensures Inv(t, queues)
  {
    match step {
      case Acquire(_) => AcquireKeeps(s, step, t, queues);
      case Append(_, _) => AppendKeeps(s, step, t, queues);
      case Release => ReleaseKeeps(s, t, queues);
      case Interject(frame) =>
        AppendedConserves(s, frame);
        assert FlatMap(DataOf, PiecesOf(s.frames)) + [] == FlatMap(DataOf, PiecesOf(s.frames));
      case Write(count) => WriteConserves(s, count);
    }
  }

  // ---- Whole runs ----

  function Start(queues: map<nat, seq<Message>>): Connection { Connection([], [], [], None, [], queues) }

  ghost predicate IsRun(run: seq<Connection>, steps: seq<Step>, queues: map<nat, seq<Message>>) {
    && |run| == |steps| + 1 && run[0] == Start(queues)
    && forall i :: 0 <= i < |steps| ==> Next(run[i], steps[i], run[i + 1])
  }

  /**
    * In every interleaving of any number of sending threads, control frames and partial writes: the wire and
    * the buffer hold the frames in the order they were appended; the data frames among them are whole messages
    * in the order of the write lock, then a part of the one under way; and each thread's messages are those it
    * had to send, in its own order.
    */
  lemma {:induction false} WireConservation(
    run: seq<Connection>, steps: seq<Step>, queues: map<nat, seq<Message>>, n: nat)
    requires IsRun(run, steps, queues) && n <= |steps|
    ensures Conserved(run[n]) && NotInterleaved(run[n]) && Accounted(run[n], queues)
    decreases n
  {
    if n == 0 {
      assert FlatMap(DataOf, PiecesOf([])) == [];
    } else {
      WireConservation(run, steps, queues, n - 1);
      StepKeeps(run[n - 1], steps[n - 1], run[n], queues);
    }
  }

  // ---- What the peer receives of it ----

  /** The messages sent, and the one under way. */
  function Begun(s: Connection): seq<Message> {
    MessagesOf(s.done) + if s.lock.Some? then [s.lock.value.message] else []
  }

  lemma CurrentIsPart(s: Connection) returns (more: seq<Piece>)
    requires NotInterleaved(s)
    ensures s.lock == None ==> more == []
    ensures FlatMap(DataOf, PiecesOf(s.frames)) + more == FlatMap(DataPieces, Begun(s))
  {
    if s.lock == None {
      more := [];
      assert Begun(s) == MessagesOf(s.done);
    } else {
      var m := s.lock.value.message;
      var all := DataPieces(m);
      assert Current(s.lock) == all[..s.lock.value.sent];
      more := all[s.lock.value.sent..];
      FlatMapSnoc(DataPieces, MessagesOf(s.done), m);
      ConcatAssociative(FlatMap(DataPieces, MessagesOf(s.done)), Current(s.lock), more);
      assert Current(s.lock) + more == all;
    }
  }

  lemma InterjectionsReadable(s: Connection)
    requires NotInterleaved(s)
    ensures AllReadable(PiecesOf(s.frames))
  {
  }

  /** A part of the data frames, interpreted by the peer, gives the first of the messages. */
  lemma PartDelivers(d: Decoder, part: seq<Piece>, more: seq<Piece>, messages: seq<Message>, pong: bool)
    requires d.chunks == [] && AllValid(messages) && part + more == FlatMap(DataPieces, messages)
    ensures var delivered := FlatMap(MessageIn, Interpret(Consumer(pong), d, part).events);
      delivered <= messages && (more == [] ==> delivered == messages)
  {
    InterpretConcat(Consumer(pong), d, part, more);
    InterpretMessages(d, messages, pong);
    MessagesInEvents(messages);
    var x := Interpret(Consumer(pong), d, part);
    var y := Interpret(Consumer(pong), x.decoder, more);
    FlatMapConcat(MessageIn, x.events, y.events);
  }

  /**
    * End to end. Whatever part of the wire has reached the peer, in whatever receives: the peer has been
    * delivered the first of the messages in the order of the write lock, each once and unchanged, and all of
    * them when everything has arrived and no message is under way.
    */
  lemma DeliveredInOrder(s: Connection, cuts: seq<seq<byte>>, kind: DataKind, pong: bool)
    requires Conserved(s) && NotInterleaved(s) && AllValid(Begun(s))
    requires forall i :: 0 <= i < |s.frames| ==> s.frames[i].piece.opcode != CLOSE
    requires Flatten(cuts) <= s.wire
    ensures var delivered := FlatMap(MessageIn, Feed(Consumer(pong), Decoder([], kind), [], cuts).events);
      && delivered <= Begun(s)
      && (Flatten(cuts) == EncodeAll(s.frames) && s.lock == None ==> delivered == Begun(s))
  {
    var d := Decoder([], kind);
    InterjectionsReadable(s);
    assert s.wire <= s.wire + s.txbuf;
    var k, rest := StreamedFrames(Consumer(pong), d, s.frames, Flatten(cuts), cuts);
    assert PiecesOf(s.frames[..k]) == PiecesOf(s.frames)[..k];
    TakenDelivers(s, k, d, pong);
    if Flatten(cuts) == EncodeAll(s.frames) && s.lock == None {
      EverythingArrived(s.frames, k, rest);
    }
  }

  /** The first k frames, interpreted by the peer. */
  lemma TakenDelivers(s: Connection, k: nat, d: Decoder, pong: bool)
    requires NotInterleaved(s) && AllValid(Begun(s)) && d.chunks == [] && k <= |s.frames|
    requires forall i :: 0 <= i < |s.frames| ==> s.frames[i].piece.opcode != CLOSE
    ensures var delivered := FlatMap(MessageIn, Interpret(Consumer(pong), d, PiecesOf(s.frames)[..k]).events);
      delivered <= Begun(s) && (k == |s.frames| && s.lock == None ==> delivered == Begun(s))
  {
    var pieces := PiecesOf(s.frames);
    InterpretTraffic(d, pieces[..k], pong);
    MessagesAmongData(Interpret(Consumer(pong), d, pieces[..k]).events);
    assert pieces == pieces[..k] + pieces[k..];
    FlatMapConcat(DataOf, pieces[..k], pieces[k..]);
    var more := CurrentIsPart(s);
    var part, later := FlatMap(DataOf, pieces[..k]), FlatMap(DataOf, pieces[k..]);
    ConcatAssociative(part, later, more);
    PartDelivers(d, part, later + more, Begun(s), pong);
  }

  lemma EverythingArrived(frames: seq<Frame>, k: nat, rest: seq<byte>)
    requires CutAt(EncodeFrame, frames, EncodeAll(frames), k, rest)
    ensures k == |frames|
  {
    if k < |frames| {
      assert frames == frames[..k] + frames[k..];
      FlatMapConcat(EncodeFrame, frames[..k], frames[k..]);
    }
  }

  // ---- Messages that are sent without the lock ----

  lemma OutOfSequenceFails(d: Decoder, p: Piece, pong: bool)
    requires d.chunks != [] && (p.opcode == TEXT_FRAME || p.opcode == BINARY_FRAME)
    ensures Fail(PROTOCOL_ERROR, DATA_OUT_OF_SEQUENCE, false) in Consume(d, p, pong).events
  {
    assert Consume(d, p, pong).events[0] == Fail(PROTOCOL_ERROR, DATA_OUT_OF_SEQUENCE, false);
  }

  /**
    * A text or binary heartbeat does not take the write lock, and a progress callback can end a message
    * early. A message that begins after k fragments of another is out of sequence for the peer exactly when
    * those k fragments are neither none nor all of it.
    */
  lemma OutOfTurn(m: Message, k: nat, late: Message, d: Decoder, pong: bool)
    requires d.chunks == [] && k <= Steps(|m.data|)
    ensures var x := Interpret(Consumer(pong), d, Pieces(m.Opcode(), m.data, k));
      var p := FragmentPiece(late.Opcode(), late.data, 0);
      Fail(PROTOCOL_ERROR, DATA_OUT_OF_SEQUENCE, false) in Consume(x.decoder, p, pong).events
      <==> 0 < k < Steps(|m.data|)
  {
    if k == 0 {
      assert Pieces(m.Opcode(), m.data, 0) == [];
    } else if k == Steps(|m.data|) {
      InterpretMessage(m, d, pong);
    } else {
      InterpretPrefix(m, k, d, pong);
      PayloadsNonempty(Pieces(m.Opcode(), m.data, k));
      OutOfSequenceFails(
        Decoder(PayloadsOf(Pieces(m.Opcode(), m.data, k)), m.Kind()), FragmentPiece(late.Opcode(), late.data, 0), pong);
    }
  }
}
