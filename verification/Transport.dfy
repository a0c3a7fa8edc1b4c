/** The transport: its buffers, its ready state, and the methods that work on them in place. */
module Transport {
  import opened Bytes
  import opened Control
  import opened Frames
  import opened Messages
  import opened ReceiveGate
  import opened Receiver
  import Text
  import Utf8

  datatype PollResult = Succeeded | AbnormalClose | CannotFlushSendBuffer

  /** What isReadyToRead reports; Broken stands for an error and for a request to close. */
  datatype Polled = SendRequest(polls: seq<WritePoll>) | ReadyForRead | Broken | Nothing

  /** What isReadyToWrite reports. */
  datatype WritePoll = WriteError | ReadyForWrite | TimedOut | TimeoutExceeded

  /** A failed send closes the connection, unless a closure is under way. */
  function AfterSendFailure(c: ControlState): ControlState {
    if c.readyState == CLOSING then c else Control.SetReadyState(c, CLOSED)
  }

  /** One more fragment of a message, after the first k. */
  lemma AfterOneMore(before: seq<Piece>, opcode: nat, message: seq<byte>, k: nat)
    requires k < Steps(|message|)
    ensures (before + Pieces(opcode, message, k)) + [FragmentPiece(opcode, message, k)]
         == before + Pieces(opcode, message, k + 1)
  {
    OneMorePiece(opcode, message, k);
  }

  /** The size of a header with its extended length, and of the masking key behind it. */
  function KeyOffset(size: nat): nat {
    if size < 126 then 2 else if size < 65536 then 4 else 10
  }

  /** How one turn of the dispatch loop ends. */
  datatype Turn = Again | LeaveLoop | LeaveDispatch

  /** What one turn of the loop does to decoder and buffer, by the front it finds. */
  ghost predicate TurnTaken(f: Front, turn: Turn, d: Decoder, d': Decoder, buf: seq<byte>, buf': seq<byte>, pong: bool)
    requires FrontFits(f, buf)
  {
    if f.Whole? then turn == Again && d' == Consume(d, f.piece, pong).decoder && buf' == buf[f.total..]
    else
      && turn == (if f.Short? then LeaveLoop else LeaveDispatch)
      && d' == d
      && buf' == if Blocked(f) then BlockedBuffer(f, buf) else buf
  }

  /** A turn is one step of the dispatch it belongs to. */
  lemma TurnOfDispatch(turn: Turn, d: Decoder, d': Decoder, buf: seq<byte>, buf': seq<byte>, pong: bool)
    requires TurnTaken(FrontOf(buf), turn, d, d', buf, buf', pong)
    ensures var es := TurnEvents(FrontOf(buf), d, pong);
      if turn == Again then
        && |buf'| < |buf|
        && Receiver.Dispatch(d, buf, pong) == Prefixed(Consumed(d', es), Receiver.Dispatch(d', buf', pong))
      else
        && Receiver.Dispatch(d, buf, pong) == Dispatched(d', buf', es)
        && (turn == LeaveLoop <==> HeaderMissing(buf'))
  {
    var f := FrontOf(buf);
    if f.Whole? {
      DispatchWhole(Consumer(pong), d, buf, f, buf');
    } else if Blocked(f) {
      BlockedBufferDead(buf);
      DispatchBlocked(Consumer(pong), d, buf);
    }
  }

  lemma TurnOfSettle(
    l: Line, wanted: nat, turn: Turn, d: Decoder, d': Decoder, buf: seq<byte>, buf': seq<byte>, pong: bool)
    requires TurnTaken(FrontOf(buf), turn, d, d', buf, buf', pong)
    ensures var after := ReactAll(l, TurnEvents(FrontOf(buf), d, pong), |buf|);
      var w := WantedAfter(wanted, FrontOf(buf));
      && Settle(l, d, buf, pong) == (if turn == Again then Settle(after, d', buf', pong) else after)
      && WantedThrough(wanted, buf) == (if turn == Again then WantedThrough(w, buf') else w)
  {
  }

  lemma WholeTurn(f: Front, d: Decoder, buf: seq<byte>, pong: bool)
    requires FrontFits(f, buf) && f.Whole?
    ensures TurnTaken(f, Again, d, Consume(d, f.piece, pong).decoder, buf, buf[f.total..], pong)
  {
  }

  lemma BlockedTurn(f: Front, d: Decoder, buf: seq<byte>, pong: bool)
    requires FrontFits(f, buf) && Blocked(f)
    ensures TurnTaken(f, LeaveDispatch, d, d, buf, BlockedBuffer(f, buf), pong)
  {
  }

  /** Octets of a stream that are read in two goes. */
  lemma ReadOn(buf: seq<byte>, stream: seq<byte>, i: nat, j: nat, k: nat)
    requires i <= j <= k <= |stream|
    ensures (buf + stream[i..j]) + stream[j..k] == buf + stream[i..k]
    ensures stream[i..j] <= stream[i..k] && stream[i..j] + stream[j..k] == stream[i..k]
  {
  }

  lemma NothingRead(buf: seq<byte>, stream: seq<byte>, i: nat)
    requires i <= |stream|
    ensures buf + stream[i..i] == buf
  {
  }

  predicate HeaderMissing(buf: seq<byte>) { ParseHeader(buf).None? }

  predicate BreaksOff(poll: PollResult, buf: seq<byte>) { poll != Succeeded && HeaderMissing(buf) }

  function AfterDispatch(l: Line, d: Decoder, buf: seq<byte>, pong: bool, poll: PollResult): Line {
    var end := Settle(l, d, buf, pong);
    if BreaksOff(poll, Receiver.Dispatch(d, buf, pong).buf) then Line(Break(end.control), end.sent) else end
  }

  lemma DispatchNothing(l: Line, d: Decoder, pong: bool, poll: PollResult)
    ensures Receiver.Dispatch(d, [], pong) == Dispatched(d, [], [])
    ensures l.control.readyState == CLOSED ==> AfterDispatch(l, d, [], pong, poll) == l
  {
    assert FrontOf([]).Short?;
  }

  class WebSocketTransport {
    // Configuration, settled before the connection is used
    const useMask: bool
    const blockingSend: bool
    const enablePong: bool

    // Receiving
    var rxbuf: seq<byte>
    var rxbufWanted: nat
    var chunks: seq<seq<byte>>
    var fragmentedMessageKind: DataKind
    var pongReceived: bool

    // Sending
    var txbuf: seq<byte>

    // Closing
    var readyState: ReadyState
    var closeCode: nat
    var closeReason: seq<byte>
    var closeWireSize: nat
    var closeRemote: bool
    var requestInitCancellation: bool

    // The socket
    var socketOpen: bool
    var stream: seq<byte>                     // octets the peer has for it
    var taken: nat                            // how many of them have been read

    // What the outside has seen
    ghost var sendFailures: nat               // how often sending has failed in this session
    ghost var wire: seq<byte>                 // octets the socket has taken
    ghost var frames: seq<Frame>              // frames appended to the send buffer
    ghost var encoded: seq<seq<byte>>         // the octets of each
    ghost var pieces: seq<Piece>              // those frames without masks
    ghost var events: seq<Event>              // what dispatching has caused
    ghost var reports: seq<CloseReport>       // runs of the close callback
    ghost var sessions: nat                   // how often the state has left CLOSED

    /** Every octet of every frame is on the wire or in the send buffer, in order and once. */
    ghost predicate Conserved()
      reads `wire, `txbuf, `encoded
    {
      wire + txbuf == Flatten(encoded)
    }

    /** What was appended is the frames. */
    ghost predicate Logged()
      reads `encoded, `frames, `pieces
    {
      && |encoded| == |pieces| == |frames|
      && forall i {:trigger frames[i]} :: 0 <= i < |frames| ==>
           encoded[i] == EncodeFrame(frames[i]) && pieces[i] == frames[i].piece
    }

    lemma LoggedOctets()
      requires Logged()
      ensures Flatten(encoded) == EncodeAll(frames) && pieces == PiecesOf(frames)
    {
      FlattenIsFlatMap(EncodeFrame, frames, encoded);
    }

    ghost function Ctl(): ControlState
      reads `readyState, `closeCode, `closeReason, `closeWireSize, `closeRemote, `reports, `sessions
    {
      ControlState(readyState, CloseReport(closeCode, closeReason, closeWireSize, closeRemote), reports, sessions)
    }

    /** The transport as its peer sees it. */
    ghost function Line(): Line
      reads `readyState, `closeCode, `closeReason, `closeWireSize, `closeRemote, `reports, `sessions, `pieces
    {
      Control.Line(Ctl(), pieces)
    }

    ghost predicate Valid()
      reads `wire, `txbuf, `encoded, `frames, `pieces
      reads `readyState, `closeCode, `closeReason, `closeWireSize, `closeRemote, `reports, `sessions, `sendFailures
    {
      && Conserved() && Logged() && Ctl().Consistent()
      && (sendFailures > 0 ==> readyState == CLOSING || readyState == CLOSED)
    }

    ghost function Dec(): Decoder
      reads `chunks, `fragmentedMessageKind
    {
      Decoder(chunks, fragmentedMessageKind)
    }

    constructor (useMask: bool, blockingSend: bool, enablePong: bool)
      ensures Valid() && Ctl() == INITIAL && rxbuf == [] && rxbufWanted == 0 && chunks == [] && events == []
      ensures txbuf == [] && wire == [] && pieces == [] && stream == [] && taken == 0
      ensures this.useMask == useMask && this.blockingSend == blockingSend && this.enablePong == enablePong
    {
      this.useMask, this.blockingSend, this.enablePong := useMask, blockingSend, enablePong;
      rxbuf, rxbufWanted, chunks, fragmentedMessageKind, pongReceived := [], 0, [], MsgText, false;
      txbuf := [];
      readyState, closeCode, closeReason, closeWireSize, closeRemote :=
        CLOSED, INTERNAL_ERROR, INTERNAL_ERROR_MESSAGE, 0, false;
      requestInitCancellation, socketOpen, stream, taken := false, false, [], 0;
      wire, encoded, frames, pieces, events, reports, sessions := [], [], [], [], [], [], 0;
      sendFailures := 0;
    }

    // ---- Ready state ----

    method CloseSocket()
      modifies `socketOpen
      ensures !socketOpen
    {
      socketOpen := false;
    }

    method SetReadyState(s: ReadyState)
      modifies `readyState, `closeCode, `closeReason, `closeWireSize, `closeRemote, `pongReceived, `reports, `sessions
      ensures Ctl() == Control.SetReadyState(old(Ctl()), s)
      ensures old(Ctl()).Consistent() ==> Ctl().Consistent()
      ensures s != OPEN ==> pongReceived == old(pongReceived)
    {
      if readyState == s {
        return;
      }
      if readyState == CLOSED {
        sessions := sessions + 1;
      }
      if s == CLOSED {
        reports := reports + [CloseReport(closeCode, closeReason, closeWireSize, closeRemote)];
        closeReason := INTERNAL_ERROR_MESSAGE;
        closeCode := INTERNAL_ERROR;
        closeWireSize := 0;
        closeRemote := false;
      } else if s == OPEN {
        pongReceived := false;
      }
      readyState := s;
    }

    // ---- Sending ----

    method AppendToSendBuffer(header: seq<byte>, payload: seq<byte>, key: seq<byte>)
      requires |key| == 4
      modifies `txbuf
      ensures txbuf == old(txbuf) + header + (if useMask then Mask(payload, key) else payload)
    {
      txbuf := txbuf + header + payload;
      if useMask {
        ghost var front := old(txbuf) + header;
        var start := |txbuf| - |payload|;
        MaskedEnds(front, payload, key, []);
        var i := 0;
        while i != |payload|
          invariant 0 <= i <= |payload| && start == |front|
          invariant txbuf == PartlyMasked(front, payload, key, i, [])
        {
          MaskOneMore(front, payload, key, i, []);
          txbuf := txbuf[start + i := Xor(txbuf[start + i], key[i % 4])];
          i := i + 1;
        }
      }
    }

    /** The masking key is derived from the clock: any four octets. */
    method GetMaskingKey() returns (key: seq<byte>)
      ensures |key| == 4
    {
      var a: byte, b: byte, c: byte, d: byte := *, *, *, *;
      key := [a, b, c, d];
    }

    /** Hands the buffer to the socket, which takes any part of it, asks to wait, or fails. */
    method SendOnSocket() returns (ok: bool)
      requires Conserved()
      modifies `txbuf, `wire, `socketOpen, `sendFailures
      modifies `readyState, `closeCode, `closeReason, `closeWireSize, `closeRemote, `pongReceived, `reports, `sessions
      ensures Conserved() && old(wire) <= wire
      ensures ok ==> Ctl() == old(Ctl()) && socketOpen == old(socketOpen)
      ensures if ok then sendFailures == old(sendFailures) else sendFailures > old(sendFailures)
      ensures !ok ==> !socketOpen
      ensures !ok ==> Ctl() == AfterSendFailure(old(Ctl()))
      ensures pongReceived == old(pongReceived)
    {
      while txbuf != []
        invariant pongReceived == old(pongReceived)
        invariant Conserved() && old(wire) <= wire
        invariant Ctl() == old(Ctl()) && socketOpen == old(socketOpen) && sendFailures == old(sendFailures)
        decreases |txbuf|
      {
        var taken: int :| taken <= |txbuf|;
        var waitNeeded: bool := *;
        if taken < 0 && waitNeeded {
          break;
        } else if taken <= 0 {
          sendFailures := sendFailures + 1;
          CloseSocket();
          if readyState != CLOSING {
            SetReadyState(CLOSED);
          }
          return false;
        } else {
          ConcatAssociative(wire, txbuf[..taken], txbuf[taken..]);
          assert txbuf == txbuf[..taken] + txbuf[taken..];
          wire := wire + txbuf[..taken];
          txbuf := txbuf[taken..];
        }
      }
      return true;
    }

    method WriteLength(header: array<byte>, size: nat, maskBit: nat)
      requires size <= MAX_FRAME_SIZE && maskBit < 129 && KeyOffset(size) <= header.Length
      modifies header
      ensures header[..KeyOffset(size)] == [old(header[0]), maskBit + ShortLength(size)] + ExtendedLength(size)
    {
      if size < 126 {
        header[1] := size + maskBit;
      } else if size < 65536 {
        TwoOctets(size);
        header[1] := 126 + maskBit;
        header[2] := size / 0x100 % 256;
        header[3] := size % 256;
      } else {
        EightOctets(size);
        header[1] := 127 + maskBit;
        header[2] := size / 0x100_0000_0000_0000 % 256;
        header[3] := size / 0x1_0000_0000_0000 % 256;
        header[4] := size / 0x100_0000_0000 % 256;
        header[5] := size / 0x1_0000_0000 % 256;
        header[6] := size / 0x100_0000 % 256;
        header[7] := size / 0x1_0000 % 256;
        header[8] := size / 0x100 % 256;
        header[9] := size % 256;
      }
    }

    method MakeHeader(opcode: nat, fin: bool, size: nat, key: seq<byte>) returns (header: array<byte>)
      requires opcode < 16 && size <= MAX_FRAME_SIZE && |key| == 4
      ensures fresh(header) && header[..] == HeaderOctets(fin, opcode, useMask, key, size)
    {
      header := new byte[2 + (if size >= 126 then 2 else 0) + (if size >= 65536 then 6 else 0)
                           + (if useMask then 4 else 0)](_ => 0);
      header[0] := opcode;
      if fin {
        header[0] := header[0] + 0x80;
      }
      WriteLength(header, size, if useMask then 0x80 else 0);
      var at := KeyOffset(size);
      ghost var start := header[..at];
      if useMask {
        WriteKey(header, at, key);
      }
      assert header[..] == start + if useMask then key else [];
    }

    method WriteKey(header: array<byte>, at: nat, key: seq<byte>)
      requires |key| == 4 && at + 4 == header.Length
      modifies header
      ensures header[..at] == old(header[..at]) && header[at..] == key
    {
      header[at], header[at + 1], header[at + 2], header[at + 3] := key[0], key[1], key[2], key[3];
    }

    /** One frame goes to the end of the send buffer. */
    method BufferFrame(opcode: nat, fin: bool, payload: seq<byte>)
      requires Conserved() && Logged() && opcode < 16 && |payload| <= MAX_FRAME_SIZE
      modifies `txbuf, `encoded, `frames, `pieces
      ensures Conserved() && Logged()
      ensures pieces == old(pieces) + [Piece(fin, opcode, payload)]
      ensures |frames| == |old(frames)| + 1 && old(frames) <= frames && frames[|old(frames)|].mask == useMask
    {
      var key := GetMaskingKey();
      var header := MakeHeader(opcode, fin, |payload|, key);
      ghost var f: Frame := Frame(Piece(fin, opcode, payload), useMask, key);
      AppendToSendBuffer(header[..], payload, key);
      ghost var body := if useMask then Mask(payload, key) else payload;
      FlattenSnoc(encoded, header[..] + body);
      FourParts(wire, old(txbuf), header[..], body);
      encoded, frames, pieces := encoded + [header[..] + body], frames + [f], pieces + [f.piece];
    }

    method SendFragment(opcode: nat, fin: bool, payload: seq<byte>) returns (ok: bool)
      requires Conserved() && Logged() && opcode < 16 && |payload| <= MAX_FRAME_SIZE
      modifies `txbuf, `wire, `encoded, `frames, `pieces, `socketOpen, `sendFailures
      modifies `readyState, `closeCode, `closeReason, `closeWireSize, `closeRemote, `pongReceived, `reports, `sessions
      ensures Conserved() && Logged() && old(wire) <= wire
      ensures pieces == old(pieces) + [Piece(fin, opcode, payload)]
      ensures ok ==> Ctl() == old(Ctl()) && socketOpen == old(socketOpen)
      ensures if ok then sendFailures == old(sendFailures) else sendFailures > old(sendFailures)
      ensures !ok ==> !socketOpen && Ctl() == AfterSendFailure(old(Ctl()))
      ensures pongReceived == old(pongReceived)
    {
      BufferFrame(opcode, fin, payload);
      ok := SendOnSocket();
    }

    /** Waits until the buffer is on the wire; gives up on errors, on the send timeout, and on cancellation. */
    method FlushSendBuffer(polls: seq<WritePoll>) returns (ok: bool)
      requires Conserved()
      modifies `txbuf, `wire, `socketOpen, `sendFailures
      modifies `readyState, `closeCode, `closeReason, `closeWireSize, `closeRemote, `pongReceived, `reports, `sessions
      modifies `requestInitCancellation
      ensures Conserved() && old(wire) <= wire
      ensures old(Ctl()).Consistent() ==> Ctl().Consistent()
      ensures ok ==> Ctl() == old(Ctl()) && socketOpen == old(socketOpen)
      ensures if ok then sendFailures == old(sendFailures) else sendFailures > old(sendFailures)
      ensures ok ==> txbuf == [] || requestInitCancellation
      ensures !ok ==> !socketOpen && (readyState == CLOSED || (readyState == CLOSING && old(readyState) == CLOSING))
      ensures old(requestInitCancellation) ==> ok && requestInitCancellation
      ensures pongReceived == old(pongReceived)
    {
      var i := 0;
      while txbuf != [] && !requestInitCancellation
        invariant pongReceived == old(pongReceived)
        invariant 0 <= i <= |polls| && Conserved() && old(wire) <= wire
        invariant Ctl() == old(Ctl()) && socketOpen == old(socketOpen) && sendFailures == old(sendFailures)
        invariant old(requestInitCancellation) ==> requestInitCancellation
        decreases |polls| - i, if requestInitCancellation then 0 else 1
      {
        if i == |polls| {
          // another thread asks for cancellation
          requestInitCancellation := true;
        } else {
          match polls[i] {
            case WriteError =>
              sendFailures := sendFailures + 1;
              CloseSocket();
              SetReadyState(CLOSED);
              return false;
            case ReadyForWrite =>
              var sent := SendOnSocket();
              if !sent {
                return false;
              }
            case TimeoutExceeded =>
              sendFailures := sendFailures + 1;
              CloseSocketAndSwitchToClosedState(ABNORMAL_CLOSE, SEND_TIMEOUT_MESSAGE, 0, false);
              return false;
            case TimedOut =>
          }
          i := i + 1;
        }
      }
      return true;
    }

    method CloseSocketAndSwitchToClosedState(code: nat, reason: seq<byte>, wireSize: nat, remote: bool)
      modifies `socketOpen, `requestInitCancellation
      modifies `readyState, `closeCode, `closeReason, `closeWireSize, `closeRemote, `pongReceived, `reports, `sessions
      ensures Ctl() == SwitchToClosed(old(Ctl()), CloseReport(code, reason, wireSize, remote))
      ensures old(Ctl()).Consistent() ==> Ctl().Consistent()
      ensures !socketOpen && !requestInitCancellation
      ensures pongReceived == old(pongReceived)
    {
      CloseSocket();
      closeReason, closeCode, closeWireSize, closeRemote := reason, code, wireSize, remote;
      SetReadyState(CLOSED);
      requestInitCancellation := false;
    }

    /** Step i of a large message: the chunk from begin, or everything that is left. */
    method SendStep(opcode: nat, message: seq<byte>, i: nat, begin: nat) returns (ok: bool)
      requires Conserved() && Logged() && opcode < 16 && CHUNK_SIZE <= |message|
      requires i < |message| / CHUNK_SIZE && begin == i * CHUNK_SIZE
      modifies `txbuf, `wire, `encoded, `frames, `pieces, `socketOpen, `sendFailures
      modifies `readyState, `closeCode, `closeReason, `closeWireSize, `closeRemote, `pongReceived, `reports, `sessions
      ensures Conserved() && Logged() && old(wire) <= wire
      ensures pieces == old(pieces) + [FragmentPiece(opcode, message, i)]
      ensures ok ==> Ctl() == old(Ctl()) && socketOpen == old(socketOpen)
      ensures if ok then sendFailures == old(sendFailures) else sendFailures > old(sendFailures)
      ensures !ok ==> Ctl() == AfterSendFailure(old(Ctl()))
      ensures pongReceived == old(pongReceived)
    {
      var steps := |message| / CHUNK_SIZE;
      var lastStep := i + 1 == steps;
      var end := if lastStep then |message| else begin + CHUNK_SIZE;
      var opcodeType := if i == 0 then opcode else CONTINUATION;
      assert message[begin..end] == FragmentOf(message, i);
      FragmentSizes(message, i);
      ok := SendFragment(opcodeType, lastStep, message[begin..end]);
    }

    /** The fragments of a large message; k of them are sent. */
    method SendFragments(opcode: nat, message: seq<byte>, progress: bool) returns (ok: bool, k: nat)
      requires Conserved() && Logged() && opcode < 16 && CHUNK_SIZE <= |message|
      modifies `txbuf, `wire, `encoded, `frames, `pieces, `socketOpen, `sendFailures
      modifies `readyState, `closeCode, `closeReason, `closeWireSize, `closeRemote, `pongReceived, `reports, `sessions
      ensures Conserved() && Logged() && old(wire) <= wire
      ensures 1 <= k <= Steps(|message|) && pieces == old(pieces) + Pieces(opcode, message, k)
      ensures ok && !progress ==> k == Steps(|message|)
      ensures ok ==> Ctl() == old(Ctl()) && socketOpen == old(socketOpen)
      ensures if ok then sendFailures == old(sendFailures) else sendFailures > old(sendFailures)
      ensures !ok ==> Ctl() == AfterSendFailure(old(Ctl()))
      ensures pongReceived == old(pongReceived)
    {
      var steps := |message| / CHUNK_SIZE;
      var begin := 0;
      k := 0;
      ok := true;
      var goOn := true;
      while ok && goOn && k < steps
        invariant pongReceived == old(pongReceived)
        invariant 0 <= k <= steps && begin == k * CHUNK_SIZE
        invariant Conserved() && Logged() && old(wire) <= wire
        invariant pieces == old(pieces) + Pieces(opcode, message, k)
        invariant Ctl() == if ok then old(Ctl()) else AfterSendFailure(old(Ctl()))
        invariant ok ==> socketOpen == old(socketOpen)
        invariant if ok then sendFailures == old(sendFailures) else sendFailures > old(sendFailures)
        invariant !goOn ==> progress
        invariant k == 0 ==> ok && goOn
      {
        ok := SendStep(opcode, message, k, begin);
        AfterOneMore(old(pieces), opcode, message, k);
        k := k + 1;
        begin := begin + CHUNK_SIZE;
        if ok && progress {
          goOn := *;
        }
      }
    }

    /**
      * Sends a message: cut into fragments that are appended and offered to the socket one by one. A failing
      * socket, or a progress callback that says stop, ends the message after k of its fragments.
      */
    method SendData(opcode: nat, message: seq<byte>, progress: bool) returns (success: bool, ghost k: nat)
      requires Valid() && opcode < 16
      modifies `txbuf, `wire, `encoded, `frames, `pieces, `socketOpen, `sendFailures, `requestInitCancellation
      modifies `readyState, `closeCode, `closeReason, `closeWireSize, `closeRemote, `pongReceived, `reports, `sessions
      ensures Valid() && old(wire) <= wire
      ensures if old(readyState) == OPEN || old(readyState) == CLOSING then 1 <= k else k == 0 && !success
      ensures k <= Steps(|message|) && pieces == old(pieces) + Pieces(opcode, message, k)
      ensures success && !progress ==> k == Steps(|message|)
      ensures success ==> sendFailures == old(sendFailures)
      ensures sendFailures >= old(sendFailures)
      ensures sendFailures == old(sendFailures) ==> Ctl() == old(Ctl()) && (k > 0 ==> success)
      ensures old(readyState) == CLOSING && (!blockingSend || old(requestInitCancellation)) ==> Ctl() == old(Ctl())
      ensures old(requestInitCancellation) ==> requestInitCancellation
      ensures pongReceived == old(pongReceived)
    {
      if readyState != OPEN && readyState != CLOSING {
        assert pieces + Pieces(opcode, message, 0) == pieces;
        return false, 0;
      }
      success, k := SendPieces(opcode, message, progress);
      if success || |message| < CHUNK_SIZE {
        var flushed := FlushIfBlocking();
        success := success && flushed;
      }
    }

    method SendPieces(opcode: nat, message: seq<byte>, progress: bool) returns (ok: bool, k: nat)
      requires Conserved() && Logged() && opcode < 16
      modifies `txbuf, `wire, `encoded, `frames, `pieces, `socketOpen, `sendFailures
      modifies `readyState, `closeCode, `closeReason, `closeWireSize, `closeRemote, `pongReceived, `reports, `sessions
      ensures Conserved() && Logged() && old(wire) <= wire
      ensures 1 <= k <= Steps(|message|) && pieces == old(pieces) + Pieces(opcode, message, k)
      ensures ok && !progress ==> k == Steps(|message|)
      ensures ok ==> Ctl() == old(Ctl()) && socketOpen == old(socketOpen)
      ensures if ok then sendFailures == old(sendFailures) else sendFailures > old(sendFailures)
      ensures !ok ==> Ctl() == AfterSendFailure(old(Ctl()))
      ensures pongReceived == old(pongReceived)
    {
      if |message| < CHUNK_SIZE {
        ok := SendWhole(opcode, message);
        k := 1;
      } else {
        ok, k := SendFragments(opcode, message, progress);
      }
    }

    method SendWhole(opcode: nat, message: seq<byte>) returns (ok: bool)
      requires Conserved() && Logged() && opcode < 16 && |message| < CHUNK_SIZE
      modifies `txbuf, `wire, `encoded, `frames, `pieces, `socketOpen, `sendFailures
      modifies `readyState, `closeCode, `closeReason, `closeWireSize, `closeRemote, `pongReceived, `reports, `sessions
      ensures Conserved() && Logged() && old(wire) <= wire
      ensures pieces == old(pieces) + Pieces(opcode, message, 1)
      ensures ok ==> Ctl() == old(Ctl()) && socketOpen == old(socketOpen)
      ensures if ok then sendFailures == old(sendFailures) else sendFailures > old(sendFailures)
      ensures !ok ==> Ctl() == AfterSendFailure(old(Ctl()))
      ensures pongReceived == old(pongReceived)
    {
      ok := SendFragment(opcode, true, message);
      assert Pieces(opcode, message, 1) == [Piece(true, opcode, message)];
    }

    method FlushIfBlocking() returns (ok: bool)
      requires Conserved()
      modifies `txbuf, `wire, `socketOpen, `sendFailures
      modifies `readyState, `closeCode, `closeReason, `closeWireSize, `closeRemote, `pongReceived, `reports, `sessions
      modifies `requestInitCancellation
      ensures Conserved() && old(wire) <= wire
      ensures old(Ctl()).Consistent() ==> Ctl().Consistent()
      ensures ok ==> Ctl() == old(Ctl()) && socketOpen == old(socketOpen)
      ensures if ok then sendFailures == old(sendFailures) else sendFailures > old(sendFailures)
      ensures !ok ==> readyState == CLOSED || readyState == CLOSING
      ensures !blockingSend || old(requestInitCancellation) ==> ok
      ensures old(requestInitCancellation) ==> requestInitCancellation
      ensures pongReceived == old(pongReceived)
    {
      ok := true;
      if txbuf != [] && blockingSend {
        var polls: seq<WritePoll> := *;
        ok := FlushSendBuffer(polls);
      }
    }

    // ---- Closing ----

    /** The payload of a CLOSE frame: the code in two octets and the reason, or nothing for code 1005. */
    method SendCloseFrame(code: nat, reason: seq<byte>)
      requires Valid() && code < 0x1_0000 && readyState == CLOSING
      modifies `txbuf, `wire, `encoded, `frames, `pieces, `socketOpen, `sendFailures, `requestInitCancellation
      modifies `readyState, `closeCode, `closeReason, `closeWireSize, `closeRemote, `pongReceived, `reports, `sessions
      ensures Valid() && old(wire) <= wire && sendFailures >= old(sendFailures)
      ensures sendFailures == old(sendFailures) ==> Ctl() == old(Ctl())
      ensures old(requestInitCancellation) ==> Ctl() == old(Ctl())
      ensures sendFailures == old(sendFailures) ==> pieces == old(pieces) + AllPieces(CLOSE, ClosePayload(code, reason))
      ensures pongReceived == old(pongReceived)
    {
      var closure: seq<byte> := [];
      if code != NO_STATUS_CODE {
        closure := [code / 256, code % 256] + reason;
      }
      assert closure == ClosePayload(code, reason);
      var success; ghost var k;
      success, k := SendData(CLOSE, closure, false);
    }

    method AnnounceClose(code: nat, reason: seq<byte>, wireSize: nat, remote: bool)
      requires Announced(readyState)
      modifies `readyState, `closeCode, `closeReason, `closeWireSize, `closeRemote, `pongReceived, `reports, `sessions
      ensures Ctl() == BeginClose(old(Ctl()), CloseReport(code, reason, wireSize, remote)) && readyState == CLOSING
      ensures old(Ctl()).Consistent() ==> Ctl().Consistent()
      ensures pongReceived == old(pongReceived)
    {
      closeReason, closeCode := reason, code;
      closeWireSize := if wireSize == 0 then |reason| else wireSize;
      closeRemote := remote;
      SetReadyState(CLOSING);
    }

    method Close(code: nat, reason: seq<byte>, wireSize: nat, remote: bool)
      requires Valid() && code < 0x1_0000
      modifies `txbuf, `wire, `encoded, `frames, `pieces, `socketOpen, `sendFailures, `requestInitCancellation
      modifies `readyState, `closeCode, `closeReason, `closeWireSize, `closeRemote, `pongReceived, `reports, `sessions
      ensures Valid() && old(wire) <= wire && sendFailures >= old(sendFailures)
      ensures Ctl() == BeginClose(old(Ctl()), CloseReport(code, reason, wireSize, remote))
      ensures sendFailures == old(sendFailures) ==>
        Line() == Announce(old(Line()), CloseReport(code, reason, wireSize, remote))
      ensures pongReceived == old(pongReceived)
    {
      requestInitCancellation := true;
      if Announced(readyState) {
        CloseNow(code, reason, wireSize, remote);
      }
    }

    method CloseNow(code: nat, reason: seq<byte>, wireSize: nat, remote: bool)
      requires Valid() && code < 0x1_0000 && Announced(readyState) && requestInitCancellation
      modifies `txbuf, `wire, `encoded, `frames, `pieces, `socketOpen, `sendFailures, `requestInitCancellation
      modifies `readyState, `closeCode, `closeReason, `closeWireSize, `closeRemote, `pongReceived, `reports, `sessions
      ensures Valid() && old(wire) <= wire && sendFailures >= old(sendFailures)
      ensures Ctl() == BeginClose(old(Ctl()), CloseReport(code, reason, wireSize, remote))
      ensures sendFailures == old(sendFailures) ==> pieces == old(pieces) + AllPieces(CLOSE, ClosePayload(code, reason))
      ensures pongReceived == old(pongReceived)
    {
      AnnounceClose(code, reason, wireSize, remote);
      SendCloseFrame(code, reason);
    }

    /** The status in the payload of a CLOSE frame. */
    method DecodeStatus(payload: seq<byte>) returns (code: nat, reason: seq<byte>)
      ensures Status(code, reason) == ReadStatus(payload) && code < 0x1_0000
    {
      code, reason := NO_STATUS_CODE, NO_STATUS_CODE_MESSAGE;
      if |payload| >= 2 {
        var high: nat := payload[0];
        code := high * 256 + payload[1];
        reason := payload[2..];
        var isUtf8 := Utf8.ValidateUtf8(reason);
        if !isUtf8 {
          code, reason := INVALID_PAYLOAD, INVALID_PAYLOAD_MESSAGE;
        }
        if InvalidCode(code) {
          reason := Text.Ascii(INVALID_CLOSE_CODE + ": " + Text.Decimal(code));
          code := PROTOCOL_ERROR;
        }
      }
    }

    /** A CLOSE frame has been read while no closure was under way. */
    method AnswerFirstClose(code: nat, reason: seq<byte>)
      requires Valid() && code < 0x1_0000 && readyState != CLOSING
      modifies `txbuf, `wire, `encoded, `frames, `pieces, `socketOpen, `sendFailures, `requestInitCancellation
      modifies `readyState, `closeCode, `closeReason, `closeWireSize, `closeRemote, `pongReceived, `reports, `sessions
      ensures Valid() && sendFailures >= old(sendFailures)
      ensures sendFailures == old(sendFailures) ==> Ctl() == ReceiveClose(old(Ctl()), Status(code, reason), |rxbuf|)
      ensures sendFailures == old(sendFailures) ==> pieces == old(pieces) + AllPieces(CLOSE, ClosePayload(code, reason))
    {
      SetReadyState(CLOSING);
      SendCloseFrame(code, reason);
      CloseSocketAndSwitchToClosedState(code, reason, |rxbuf|, true);
    }

    /** A CLOSE frame with this status has been read. */
    method AnswerClose(code: nat, reason: seq<byte>)
      requires Valid() && code < 0x1_0000
      modifies `txbuf, `wire, `encoded, `frames, `pieces, `socketOpen, `sendFailures, `requestInitCancellation
      modifies `readyState, `closeCode, `closeReason, `closeWireSize, `closeRemote, `pongReceived, `reports, `sessions
      ensures Valid() && sendFailures >= old(sendFailures)
      ensures sendFailures == old(sendFailures) ==> Line() == React(old(Line()), PeerClose(code, reason), |rxbuf|)
    {
      if readyState != CLOSING {
        AnswerFirstClose(code, reason);
      } else if closeCode == code && closeReason == reason {
        CloseSocketAndSwitchToClosedState(code, reason, |rxbuf|, false);
      }
    }

    // ---- What a client of the socket calls ----

    /** Under the write lock: a data message, while the connection is open. */
    method SendMessage(m: Message, progress: bool) returns (success: bool, ghost k: nat)
      requires Valid()
      modifies `txbuf, `wire, `encoded, `frames, `pieces, `socketOpen, `sendFailures, `requestInitCancellation
      modifies `readyState, `closeCode, `closeReason, `closeWireSize, `closeRemote, `pongReceived, `reports, `sessions
      ensures Valid() && sendFailures >= old(sendFailures)
      ensures k <= Steps(|m.data|) && pieces == old(pieces) + Pieces(m.Opcode(), m.data, k)
      ensures old(readyState) != OPEN ==> !success && k == 0 && Ctl() == old(Ctl())
      ensures old(readyState) == OPEN ==> 1 <= k && (success && !progress ==> k == Steps(|m.data|))
      ensures sendFailures == old(sendFailures) ==> Ctl() == old(Ctl()) && success == (readyState == OPEN)
    {
      if readyState != OPEN {
        assert pieces + Pieces(m.Opcode(), m.data, 0) == pieces;
        return false, 0;
      }
      success, k := SendData(m.Opcode(), m.data, progress);
    }

    /** A text that is not UTF-8 is not sent: it ends the connection. */
    method SendText(text: seq<byte>, progress: bool) returns (success: bool, ghost k: nat)
      requires Valid()
      modifies `txbuf, `wire, `encoded, `frames, `pieces, `socketOpen, `sendFailures, `requestInitCancellation
      modifies `readyState, `closeCode, `closeReason, `closeWireSize, `closeRemote, `pongReceived, `reports, `sessions
      ensures Valid() && sendFailures >= old(sendFailures)
      ensures success ==> old(readyState) == OPEN && Utf8.IsUtf8(text)
      ensures success && !progress ==> pieces == old(pieces) + DataPieces(Message(true, text))
      ensures sendFailures == old(sendFailures) && !Utf8.IsUtf8(text) ==>
        Line() == Announce(old(Line()), CloseReport(INVALID_PAYLOAD, INVALID_PAYLOAD_MESSAGE, 0, false))
      ensures sendFailures == old(sendFailures) && Utf8.IsUtf8(text) ==>
        Ctl() == old(Ctl()) && success == (readyState == OPEN)
    {
      var valid := Utf8.ValidateUtf8(text);
      if !valid {
        Close(INVALID_PAYLOAD, INVALID_PAYLOAD_MESSAGE, 0, false);
        return false, 0;
      }
      success, k := SendMessage(Message(true, text), progress);
    }

    /** A PING of the client's own; one that is too long is not sent. */
    method SendPing(text: seq<byte>) returns (success: bool)
      requires Valid()
      modifies `txbuf, `wire, `encoded, `frames, `pieces, `socketOpen, `sendFailures, `requestInitCancellation
      modifies `readyState, `closeCode, `closeReason, `closeWireSize, `closeRemote, `pongReceived, `reports, `sessions
      ensures Valid() && sendFailures >= old(sendFailures)
      ensures success ==> old(readyState) == OPEN && |text| <= 125 && pieces == old(pieces) + AllPieces(PING, text)
      ensures sendFailures == old(sendFailures) ==>
        Ctl() == old(Ctl()) && success == (readyState == OPEN && |text| <= 125) && (!success ==> pieces == old(pieces))
    {
      if |text| > 125 || readyState != OPEN {
        return false;
      }
      ghost var k;
      success, k := SendData(PING, text, false);
    }

    // ---- Receiving ----

    /** The header at the front of the receive buffer, read without consuming it. */
    method ReadHeader() returns (h: Option<Header>)
      ensures h == ParseHeader(rxbuf)
    {
      if |rxbuf| < 2 {
        return None;
      }
      var fin := rxbuf[0] >= 128;
      var rsv1, rsv2, rsv3 := rxbuf[0] / 64 % 2 == 1, rxbuf[0] / 32 % 2 == 1, rxbuf[0] / 16 % 2 == 1;
      var opcode := rxbuf[0] % 16;
      var mask := rxbuf[1] >= 128;
      var n0 := rxbuf[1] % 128;
      var size := 2 + (if n0 == 126 then 2 else 0) + (if n0 == 127 then 8 else 0) + (if mask then 4 else 0);
      if |rxbuf| < size {
        return None;
      }
      var n: nat := n0;
      var i := 2;
      if n0 == 126 {
        n := rxbuf[2] as int * 0x100 + rxbuf[3];
        i := 4;
        FromTwoOctets(rxbuf[2..4]);
      } else if n0 == 127 {
        n := rxbuf[2] as int * 0x100_0000_0000_0000 + rxbuf[3] as int * 0x1_0000_0000_0000
          + rxbuf[4] as int * 0x100_0000_0000 + rxbuf[5] as int * 0x1_0000_0000
          + rxbuf[6] as int * 0x100_0000 + rxbuf[7] as int * 0x1_0000 + rxbuf[8] as int * 0x100 + rxbuf[9];
        i := 10;
        FromEightOctets(rxbuf[2..10]);
      }
      var key: seq<byte> := if mask then rxbuf[i..i + 4] else [0, 0, 0, 0];
      return Some(Header(size, fin, rsv1, rsv2, rsv3, opcode, mask, n, key));
    }

    /** Removes the mask of the payload behind a header, in place. */
    method UnmaskReceiveBuffer(h: Header)
      requires h.Valid() && h.size + h.length <= |rxbuf|
      modifies `rxbuf
      ensures rxbuf == old(rxbuf[..h.size]) + PayloadOf(h, old(rxbuf)) + old(rxbuf[h.size + h.length..])
    {
      ThreeParts(rxbuf, h.size, h.size + h.length);
      if h.mask {
        ghost var front, raw, tail := rxbuf[..h.size], rxbuf[h.size..h.size + h.length], rxbuf[h.size + h.length..];
        MaskedEnds(front, raw, h.key, tail);
        var j := 0;
        while j != h.length
          invariant 0 <= j <= h.length
          invariant rxbuf == PartlyMasked(front, raw, h.key, j, tail)
        {
          MaskOneMore(front, raw, h.key, j, tail);
          rxbuf := rxbuf[j + h.size := Xor(rxbuf[j + h.size], h.key[j % 4])];
          j := j + 1;
        }
      }
    }

    method GetMergedChunks() returns (message: seq<byte>)
      ensures message == Flatten(chunks)
    {
      message := [];
      var i := 0;
      while i < |chunks|
        invariant 0 <= i <= |chunks|
        invariant message == Flatten(chunks[..i])
      {
        assert chunks[..i + 1] == chunks[..i] + [chunks[i]];
        FlattenSnoc(chunks[..i], chunks[i]);
        message := message + chunks[i];
        i := i + 1;
      }
      assert chunks[..i] == chunks;
    }

    /** A violation: the connection is asked to close, and dispatching goes on. */
    method Complain(code: nat, reason: seq<byte>, measured: bool)
      requires Valid() && code < 0x1_0000
      modifies `events
      modifies `txbuf, `wire, `encoded, `frames, `pieces, `socketOpen, `sendFailures, `requestInitCancellation
      modifies `readyState, `closeCode, `closeReason, `closeWireSize, `closeRemote, `pongReceived, `reports, `sessions
      ensures Valid() && sendFailures >= old(sendFailures)
      ensures events == old(events) + [Fail(code, reason, measured)]
      ensures sendFailures == old(sendFailures) ==>
        Line() == ReactAll(old(Line()), [Fail(code, reason, measured)], |rxbuf|)
      ensures pongReceived == old(pongReceived)
    {
      ReactOne(Line(), Fail(code, reason, measured), |rxbuf|);
      events := events + [Fail(code, reason, measured)];
      Close(code, reason, if measured then |rxbuf| else 0, false);
    }

    /** Runs the message callback, unless the message is a text that is not UTF-8. */
    method EmitMessage(kind: Kind, message: seq<byte>)
      requires Valid()
      modifies `events
      modifies `txbuf, `wire, `encoded, `frames, `pieces, `socketOpen, `sendFailures, `requestInitCancellation
      modifies `readyState, `closeCode, `closeReason, `closeWireSize, `closeRemote, `pongReceived, `reports, `sessions
      ensures Valid() && sendFailures >= old(sendFailures)
      ensures events == old(events) + Emit(kind, message)
      ensures sendFailures == old(sendFailures) ==> Line() == ReactAll(old(Line()), Emit(kind, message), |rxbuf|)
      ensures pongReceived == old(pongReceived)
    {
      var valid := true;
      if kind == MsgText {
        valid := Utf8.ValidateUtf8(message);
      }
      if !valid {
        Complain(INVALID_PAYLOAD, INVALID_PAYLOAD_MESSAGE, false);
      } else {
        ReactOne(Line(), Deliver(kind, message), |rxbuf|);
        events := events + [Deliver(kind, message)];
      }
    }

    method CheckSequence(opcode: nat)
      requires Valid()
      modifies `events
      modifies `txbuf, `wire, `encoded, `frames, `pieces, `socketOpen, `sendFailures, `requestInitCancellation
      modifies `readyState, `closeCode, `closeReason, `closeWireSize, `closeRemote, `pongReceived, `reports, `sessions
      ensures Valid() && sendFailures >= old(sendFailures)
      ensures events == old(events) + OutOfSequence(Dec(), opcode)
      ensures sendFailures == old(sendFailures) ==>
        Line() == ReactAll(old(Line()), OutOfSequence(Dec(), opcode), |rxbuf|)
    {
      if opcode != CONTINUATION {
        if chunks != [] {
          Complain(PROTOCOL_ERROR, DATA_OUT_OF_SEQUENCE, false);
        }
      } else if chunks == [] {
        Complain(PROTOCOL_ERROR, CONTINUATION_OUT_OF_SEQUENCE, false);
      }
    }

    method OnOpcode(opcode: nat)
      requires Valid() && IsData(opcode)
      modifies `events, `fragmentedMessageKind
      modifies `txbuf, `wire, `encoded, `frames, `pieces, `socketOpen, `sendFailures, `requestInitCancellation
      modifies `readyState, `closeCode, `closeReason, `closeWireSize, `closeRemote, `pongReceived, `reports, `sessions
      ensures Dec() == Decoder(chunks, KindAfter(old(Dec()), opcode))
      ensures Valid() && sendFailures >= old(sendFailures)
      ensures events == old(events) + OutOfSequence(old(Dec()), opcode)
      ensures sendFailures == old(sendFailures) ==>
        Line() == ReactAll(old(Line()), OutOfSequence(old(Dec()), opcode), |rxbuf|)
    {
      CheckSequence(opcode);
      if opcode != CONTINUATION {
        fragmentedMessageKind := if opcode == TEXT_FRAME then MsgText else MsgBinary;
      }
    }

    method OnDataFrame(p: Piece)
      requires Valid() && IsData(p.opcode)
      modifies `events, `chunks, `fragmentedMessageKind
      modifies `txbuf, `wire, `encoded, `frames, `pieces, `socketOpen, `sendFailures, `requestInitCancellation
      modifies `readyState, `closeCode, `closeReason, `closeWireSize, `closeRemote, `pongReceived, `reports, `sessions
      ensures Dec() == ConsumeData(old(Dec()), p).decoder
      ensures Valid() && sendFailures >= old(sendFailures)
      ensures events == old(events) + ConsumeData(old(Dec()), p).events
      ensures sendFailures == old(sendFailures) ==>
        Line() == ReactAll(old(Line()), ConsumeData(old(Dec()), p).events, |rxbuf|)
    {
      ghost var d := Decoder(chunks, KindAfter(Dec(), p.opcode));
      ghost var first, second := OutOfSequence(Dec(), p.opcode), Receiver.Assemble(d, p.fin, p.payload).events;
      ConcatAssociative(events, first, second);
      ReactConcat(Line(), first, second, |rxbuf|);
      assert ConsumeData(Dec(), p).events == first + second;
      OnOpcode(p.opcode);
      assert unchanged(`chunks, `rxbuf) && Dec() == d;
      Assemble(p.fin, p.payload);
      assert unchanged(`rxbuf);
    }

    method Assemble(fin: bool, payload: seq<byte>)
      requires Valid()
      modifies `events, `chunks
      modifies `txbuf, `wire, `encoded, `frames, `pieces, `socketOpen, `sendFailures, `requestInitCancellation
      modifies `readyState, `closeCode, `closeReason, `closeWireSize, `closeRemote, `pongReceived, `reports, `sessions
      ensures Dec() == Receiver.Assemble(old(Dec()), fin, payload).decoder
      ensures Valid() && sendFailures >= old(sendFailures)
      ensures events == old(events) + Receiver.Assemble(old(Dec()), fin, payload).events
      ensures sendFailures == old(sendFailures) ==>
        Line() == ReactAll(old(Line()), Receiver.Assemble(old(Dec()), fin, payload).events, |rxbuf|)
    {
      if fin && chunks == [] {
        EmitMessage(fragmentedMessageKind, payload);
      } else {
        chunks := chunks + [payload];
        if fin {
          EmitChunks();
        } else {
          EmitMessage(Kind.Fragment, []);
        }
      }
    }

    /** The last fragment has arrived. */
    method EmitChunks()
      requires Valid()
      modifies `events, `chunks
      modifies `txbuf, `wire, `encoded, `frames, `pieces, `socketOpen, `sendFailures, `requestInitCancellation
      modifies `readyState, `closeCode, `closeReason, `closeWireSize, `closeRemote, `pongReceived, `reports, `sessions
      ensures chunks == []
      ensures Valid() && sendFailures >= old(sendFailures)
      ensures events == old(events) + Emit(fragmentedMessageKind, Flatten(old(chunks)))
      ensures sendFailures == old(sendFailures) ==>
        Line() == ReactAll(old(Line()), Emit(fragmentedMessageKind, Flatten(old(chunks))), |rxbuf|)
    {
      var message := GetMergedChunks();
      EmitMessage(fragmentedMessageKind, message);
      chunks := [];
    }

    method SendPong(payload: seq<byte>)
      requires Valid()
      modifies `events
      modifies `txbuf, `wire, `encoded, `frames, `pieces, `socketOpen, `sendFailures, `requestInitCancellation
      modifies `readyState, `closeCode, `closeReason, `closeWireSize, `closeRemote, `pongReceived, `reports, `sessions
      ensures Valid() && sendFailures >= old(sendFailures)
      ensures events == old(events) + [Reply(payload)]
      ensures sendFailures == old(sendFailures) ==> Line() == ReactAll(old(Line()), [Reply(payload)], |rxbuf|)
    {
      ReactOne(Line(), Reply(payload), |rxbuf|);
      events := events + [Reply(payload)];
      var success; ghost var k;
      success, k := SendData(PONG, payload, false);
    }

    method OnPing(payload: seq<byte>)
      requires Valid() && |payload| <= 125
      modifies `events
      modifies `txbuf, `wire, `encoded, `frames, `pieces, `socketOpen, `sendFailures, `requestInitCancellation
      modifies `readyState, `closeCode, `closeReason, `closeWireSize, `closeRemote, `pongReceived, `reports, `sessions
      ensures Valid() && sendFailures >= old(sendFailures)
      ensures events == old(events) + (if enablePong then [Reply(payload)] else []) + [Deliver(Ping, payload)]
      ensures sendFailures == old(sendFailures) ==>
        Line() == ReactAll(
          old(Line()), (if enablePong then [Reply(payload)] else []) + [Deliver(Ping, payload)], |rxbuf|)
    {
      ghost var first := if enablePong then [Reply(payload)] else [];
      ConcatAssociative(events, first, [Deliver(Ping, payload)]);
      ReactConcat(Line(), first, [Deliver(Ping, payload)], |rxbuf|);
      if enablePong {
        SendPong(payload);
      }
      EmitMessage(Ping, payload);
    }

    method OnClose(payload: seq<byte>)
      requires Valid()
      modifies `events
      modifies `txbuf, `wire, `encoded, `frames, `pieces, `socketOpen, `sendFailures, `requestInitCancellation
      modifies `readyState, `closeCode, `closeReason, `closeWireSize, `closeRemote, `pongReceived, `reports, `sessions
      ensures Valid() && sendFailures >= old(sendFailures)
      ensures events == old(events) + [CloseEvent(payload)]
      ensures sendFailures == old(sendFailures) ==> Line() == ReactAll(old(Line()), [CloseEvent(payload)], |rxbuf|)
    {
      var code, reason := DecodeStatus(payload);
      OnStatus(code, reason);
    }

    method OnStatus(code: nat, reason: seq<byte>)
      requires Valid() && code < 0x1_0000
      modifies `events
      modifies `txbuf, `wire, `encoded, `frames, `pieces, `socketOpen, `sendFailures, `requestInitCancellation
      modifies `readyState, `closeCode, `closeReason, `closeWireSize, `closeRemote, `pongReceived, `reports, `sessions
      ensures Valid() && sendFailures >= old(sendFailures)
      ensures events == old(events) + [PeerClose(code, reason)]
      ensures sendFailures == old(sendFailures) ==> Line() == ReactAll(old(Line()), [PeerClose(code, reason)], |rxbuf|)
    {
      ReactOne(Line(), PeerClose(code, reason), |rxbuf|);
      events := events + [PeerClose(code, reason)];
      AnswerClose(code, reason);
    }

    /** One whole frame that carries no part of a message. */
    method OnOtherFrame(p: Piece)
      requires Valid() && !IsData(p.opcode) && (p.opcode == PING ==> |p.payload| <= 125)
      modifies `events
      modifies `txbuf, `wire, `encoded, `frames, `pieces, `socketOpen, `sendFailures, `requestInitCancellation
      modifies `readyState, `closeCode, `closeReason, `closeWireSize, `closeRemote, `pongReceived, `reports, `sessions
      ensures Valid() && sendFailures >= old(sendFailures)
      ensures events == old(events) + Consume(Dec(), p, enablePong).events
      ensures sendFailures == old(sendFailures) ==>
        Line() == ReactAll(old(Line()), Consume(Dec(), p, enablePong).events, |rxbuf|)
      ensures p.opcode == PONG ==> pongReceived
    {
      if p.opcode == PING {
        OnPing(p.payload);
      } else if p.opcode == PONG {
        pongReceived := true;
        EmitMessage(Pong, p.payload);
      } else if p.opcode == CLOSE {
        OnClose(p.payload);
      } else {
        Complain(PROTOCOL_ERROR, PROTOCOL_ERROR_MESSAGE, true);
      }
    }

    /** One whole frame, unmasked. */
    method ConsumeFrame(p: Piece)
      requires Valid() && (p.opcode == PING ==> |p.payload| <= 125)
      modifies `events, `chunks, `fragmentedMessageKind
      modifies `txbuf, `wire, `encoded, `frames, `pieces, `socketOpen, `sendFailures, `requestInitCancellation
      modifies `readyState, `closeCode, `closeReason, `closeWireSize, `closeRemote, `pongReceived, `reports, `sessions
      ensures Dec() == Consume(old(Dec()), p, enablePong).decoder
      ensures Valid() && sendFailures >= old(sendFailures)
      ensures events == old(events) + Consume(old(Dec()), p, enablePong).events
      ensures sendFailures == old(sendFailures) ==>
        Line() == ReactAll(old(Line()), Consume(old(Dec()), p, enablePong).events, |rxbuf|)
      ensures p.opcode == PONG ==> pongReceived
    {
      if IsData(p.opcode) {
        OnDataFrame(p);
      } else {
        OnOtherFrame(p);
      }
    }

    /** The violation at the front of the buffer is answered by close(); nothing is consumed. */
    method Refuse(code: nat, reason: seq<byte>, measured: bool, ghost f: Front, ghost before: seq<byte>)
      requires Valid() && code < 0x1_0000 && FrontFits(f, before) && Blocked(f)
      requires BlockedEvents(f) == [Fail(code, reason, measured)] && rxbuf == BlockedBuffer(f, before)
      modifies `events
      modifies `txbuf, `wire, `encoded, `frames, `pieces, `socketOpen, `sendFailures, `requestInitCancellation
      modifies `readyState, `closeCode, `closeReason, `closeWireSize, `closeRemote, `pongReceived, `reports, `sessions
      ensures Valid() && sendFailures >= old(sendFailures)
      ensures events == old(events) + TurnEvents(f, Dec(), enablePong)
      ensures sendFailures == old(sendFailures) ==>
        Line() == ReactAll(old(Line()), TurnEvents(f, Dec(), enablePong), |before|)
      ensures TurnTaken(f, LeaveDispatch, Dec(), Dec(), before, rxbuf, enablePong)
    {
      BlockedTurn(f, Dec(), before, enablePong);
      Complain(code, reason, measured);
    }

    /** One turn of the dispatch loop: the frame at the front of the buffer, if it is there and allowed. */
    method DispatchFront() returns (turn: Turn)
      requires Valid()
      modifies `events, `chunks, `fragmentedMessageKind, `rxbuf, `rxbufWanted
      modifies `txbuf, `wire, `encoded, `frames, `pieces, `socketOpen, `sendFailures, `requestInitCancellation
      modifies `readyState, `closeCode, `closeReason, `closeWireSize, `closeRemote, `pongReceived, `reports, `sessions
      ensures Valid() && sendFailures >= old(sendFailures)
      ensures events == old(events) + TurnEvents(FrontOf(old(rxbuf)), old(Dec()), enablePong)
      ensures sendFailures == old(sendFailures) ==>
        Line() == ReactAll(old(Line()), TurnEvents(FrontOf(old(rxbuf)), old(Dec()), enablePong), |old(rxbuf)|)
      ensures TurnTaken(FrontOf(old(rxbuf)), turn, old(Dec()), Dec(), old(rxbuf), rxbuf, enablePong)
      ensures rxbufWanted == WantedAfter(old(rxbufWanted), FrontOf(old(rxbuf)))
      ensures HeaderMissing(old(rxbuf)) ==> sendFailures == old(sendFailures)
    {
      var header := ReadHeader();
      if header == None {
        return LeaveLoop;
      }
      turn := DispatchHeader(header.value);
    }

    method DispatchHeader(h: Header) returns (turn: Turn)
      requires Valid() && ParseHeader(rxbuf) == Some(h)
      modifies `events, `chunks, `fragmentedMessageKind, `rxbuf, `rxbufWanted
      modifies `txbuf, `wire, `encoded, `frames, `pieces, `socketOpen, `sendFailures, `requestInitCancellation
      modifies `readyState, `closeCode, `closeReason, `closeWireSize, `closeRemote, `pongReceived, `reports, `sessions
      ensures Valid() && sendFailures >= old(sendFailures)
      ensures events == old(events) + TurnEvents(FrontOf(old(rxbuf)), old(Dec()), enablePong)
      ensures sendFailures == old(sendFailures) ==>
        Line() == ReactAll(old(Line()), TurnEvents(FrontOf(old(rxbuf)), old(Dec()), enablePong), |old(rxbuf)|)
      ensures TurnTaken(FrontOf(old(rxbuf)), turn, old(Dec()), Dec(), old(rxbuf), rxbuf, enablePong)
      ensures rxbufWanted == WantedAfter(old(rxbufWanted), FrontOf(old(rxbuf)))
    {
      if h.rsv1 || h.rsv2 || h.rsv3 {
        Refuse(PROTOCOL_ERROR, RESERVED_BIT_USED, true, Reserved, rxbuf);
        assert unchanged(`chunks, `fragmentedMessageKind, `rxbuf, `rxbufWanted);
        return LeaveDispatch;
      }
      if h.length > MAX_FRAME_SIZE {
        return LeaveDispatch;
      }
      turn := DispatchLength(h);
    }

    method DispatchLength(h: Header) returns (turn: Turn)
      requires Valid() && ParseHeader(rxbuf) == Some(h) && !h.rsv1 && !h.rsv2 && !h.rsv3 && h.length <= MAX_FRAME_SIZE
      modifies `events, `chunks, `fragmentedMessageKind, `rxbuf, `rxbufWanted
      modifies `txbuf, `wire, `encoded, `frames, `pieces, `socketOpen, `sendFailures, `requestInitCancellation
      modifies `readyState, `closeCode, `closeReason, `closeWireSize, `closeRemote, `pongReceived, `reports, `sessions
      ensures Valid() && sendFailures >= old(sendFailures)
      ensures events == old(events) + TurnEvents(FrontOf(old(rxbuf)), old(Dec()), enablePong)
      ensures sendFailures == old(sendFailures) ==>
        Line() == ReactAll(old(Line()), TurnEvents(FrontOf(old(rxbuf)), old(Dec()), enablePong), |old(rxbuf)|)
      ensures TurnTaken(FrontOf(old(rxbuf)), turn, old(Dec()), Dec(), old(rxbuf), rxbuf, enablePong)
      ensures rxbufWanted == WantedAfter(old(rxbufWanted), FrontOf(old(rxbuf)))
    {
      if |rxbuf| < h.size + h.length {
        rxbufWanted := h.size + h.length;
        return LeaveDispatch;
      }
      turn := DispatchReady(h);
    }

    method DispatchReady(h: Header) returns (turn: Turn)
      requires Valid() && ParseHeader(rxbuf) == Some(h) && !h.rsv1 && !h.rsv2 && !h.rsv3
      requires h.length <= MAX_FRAME_SIZE && h.size + h.length <= |rxbuf|
      modifies `events, `chunks, `fragmentedMessageKind, `rxbuf, `rxbufWanted
      modifies `txbuf, `wire, `encoded, `frames, `pieces, `socketOpen, `sendFailures, `requestInitCancellation
      modifies `readyState, `closeCode, `closeReason, `closeWireSize, `closeRemote, `pongReceived, `reports, `sessions
      ensures Valid() && sendFailures >= old(sendFailures)
      ensures events == old(events) + TurnEvents(FrontOf(old(rxbuf)), old(Dec()), enablePong)
      ensures sendFailures == old(sendFailures) ==>
        Line() == ReactAll(old(Line()), TurnEvents(FrontOf(old(rxbuf)), old(Dec()), enablePong), |old(rxbuf)|)
      ensures TurnTaken(FrontOf(old(rxbuf)), turn, old(Dec()), Dec(), old(rxbuf), rxbuf, enablePong)
      ensures rxbufWanted == 0
    {
      rxbufWanted := 0;
      turn := DispatchComplete(h);
    }

    method DispatchComplete(h: Header) returns (turn: Turn)
      requires Valid() && ParseHeader(rxbuf) == Some(h) && !h.rsv1 && !h.rsv2 && !h.rsv3
      requires h.length <= MAX_FRAME_SIZE && h.size + h.length <= |rxbuf|
      modifies `events, `chunks, `fragmentedMessageKind, `rxbuf
      modifies `txbuf, `wire, `encoded, `frames, `pieces, `socketOpen, `sendFailures, `requestInitCancellation
      modifies `readyState, `closeCode, `closeReason, `closeWireSize, `closeRemote, `pongReceived, `reports, `sessions
      ensures Valid() && sendFailures >= old(sendFailures)
      ensures events == old(events) + TurnEvents(FrontOf(old(rxbuf)), old(Dec()), enablePong)
      ensures sendFailures == old(sendFailures) ==>
        Line() == ReactAll(old(Line()), TurnEvents(FrontOf(old(rxbuf)), old(Dec()), enablePong), |old(rxbuf)|)
      ensures TurnTaken(FrontOf(old(rxbuf)), turn, old(Dec()), Dec(), old(rxbuf), rxbuf, enablePong)
    {
      if !h.fin && IsControl(h.opcode) {
        Refuse(PROTOCOL_ERROR, CONTROL_FRAGMENTED, false, BrokenControl, rxbuf);
        assert unchanged(`chunks, `fragmentedMessageKind, `rxbuf);
        return LeaveDispatch;
      }
      UnmaskReceiveBuffer(h);
      turn := DispatchPayload(h, PayloadOf(h, old(rxbuf)), old(rxbuf), FrontOf(old(rxbuf)));
    }

    method DispatchPayload(h: Header, ghost payload: seq<byte>, ghost before: seq<byte>, ghost f: Front)
      returns (turn: Turn)
      requires Valid() && h.Valid() && h.size + h.length <= |before| && FrontFits(f, before)
      requires f == if h.opcode == PING && h.length > 125 then BrokenPing(h, payload)
                                  else Whole(Piece(h.fin, h.opcode, payload), h.size + h.length)
      requires |payload| == h.length && rxbuf == before[..h.size] + payload + before[h.size + h.length..]
      modifies `events, `chunks, `fragmentedMessageKind, `rxbuf
      modifies `txbuf, `wire, `encoded, `frames, `pieces, `socketOpen, `sendFailures, `requestInitCancellation
      modifies `readyState, `closeCode, `closeReason, `closeWireSize, `closeRemote, `pongReceived, `reports, `sessions
      ensures Valid() && sendFailures >= old(sendFailures)
      ensures events == old(events) + TurnEvents(f, old(Dec()), enablePong)
      ensures sendFailures == old(sendFailures) ==>
        Line() == ReactAll(old(Line()), TurnEvents(f, old(Dec()), enablePong), |before|)
      ensures TurnTaken(f, turn, old(Dec()), Dec(), before, rxbuf, enablePong)
    {
      if h.opcode == PING && h.length > 125 {
        Refuse(PROTOCOL_ERROR, PING_OVERSIZED, false, f, before);
        assert unchanged(`chunks, `fragmentedMessageKind, `rxbuf);
        return LeaveDispatch;
      }
      DispatchWhole(h, payload, before, f);
      return Again;
    }

    method DispatchWhole(h: Header, ghost payload: seq<byte>, ghost before: seq<byte>, ghost f: Front)
      requires Valid() && h.Valid() && h.size + h.length <= |before| && FrontFits(f, before)
      requires h.opcode == PING ==> h.length <= 125
      requires f == Whole(Piece(h.fin, h.opcode, payload), h.size + h.length)
      requires |payload| == h.length && rxbuf == before[..h.size] + payload + before[h.size + h.length..]
      modifies `events, `chunks, `fragmentedMessageKind, `rxbuf
      modifies `txbuf, `wire, `encoded, `frames, `pieces, `socketOpen, `sendFailures, `requestInitCancellation
      modifies `readyState, `closeCode, `closeReason, `closeWireSize, `closeRemote, `pongReceived, `reports, `sessions
      ensures Valid() && sendFailures >= old(sendFailures)
      ensures events == old(events) + TurnEvents(f, old(Dec()), enablePong)
      ensures sendFailures == old(sendFailures) ==>
        Line() == ReactAll(old(Line()), TurnEvents(f, old(Dec()), enablePong), |before|)
      ensures TurnTaken(f, Again, old(Dec()), Dec(), before, rxbuf, enablePong)
    {
      WholeTurn(f, Dec(), before, enablePong);
      assert rxbuf[h.size..h.size + h.length] == payload;
      assert rxbuf[h.size + h.length..] == before[h.size + h.length..];
      ConsumeFrame(Piece(h.fin, h.opcode, rxbuf[h.size..h.size + h.length]));
      assert unchanged(`rxbuf);
      rxbuf := rxbuf[h.size + h.length..];
    }

    /** Every frame at the front of the buffer, one after the other, up to the first that is not whole. */
    method DispatchFrames() returns (turn: Turn, ghost r: Dispatched<Decoder>)
      requires Valid()
      modifies `events, `chunks, `fragmentedMessageKind, `rxbuf, `rxbufWanted
      modifies `txbuf, `wire, `encoded, `frames, `pieces, `socketOpen, `sendFailures, `requestInitCancellation
      modifies `readyState, `closeCode, `closeReason, `closeWireSize, `closeRemote, `pongReceived, `reports, `sessions
      ensures Valid() && sendFailures >= old(sendFailures)
      ensures r == Receiver.Dispatch(old(Dec()), old(rxbuf), enablePong)
      ensures Dec() == r.decoder && rxbuf == r.buf && events == old(events) + r.events
      ensures turn == LeaveLoop <==> HeaderMissing(rxbuf)
      ensures rxbufWanted == WantedThrough(old(rxbufWanted), old(rxbuf))
      ensures sendFailures == old(sendFailures) ==> Line() == Settle(old(Line()), old(Dec()), old(rxbuf), enablePong)
      ensures HeaderMissing(old(rxbuf)) ==> sendFailures == old(sendFailures)
    {
      r := Receiver.Dispatch(Dec(), rxbuf, enablePong);
      ghost var whole := Prefixed(Consumed(Dec(), events), r);
      ghost var end := Settle(Line(), Dec(), rxbuf, enablePong);
      turn := Again;
      while turn == Again
        invariant Valid() && sendFailures >= old(sendFailures)
        invariant if turn == Again
          then whole == Prefixed(Consumed(Dec(), events), Receiver.Dispatch(Dec(), rxbuf, enablePong))
          else whole == Dispatched(Dec(), rxbuf, events)
        invariant HeaderMissing(old(rxbuf)) ==> sendFailures == old(sendFailures) && rxbuf == old(rxbuf)
        invariant turn != Again ==> (turn == LeaveLoop <==> HeaderMissing(rxbuf))
        invariant WantedThrough(old(rxbufWanted), old(rxbuf))
               == if turn == Again then WantedThrough(rxbufWanted, rxbuf) else rxbufWanted
        invariant sendFailures == old(sendFailures) ==>
          end == if turn == Again then Settle(Line(), Dec(), rxbuf, enablePong) else Line()
        decreases if turn == Again then 1 else 0, |rxbuf|
      {
        ghost var d, buf, line, wanted, seen := Dec(), rxbuf, Line(), rxbufWanted, events;
        turn := DispatchFront();
        TurnOfDispatch(turn, d, Dec(), buf, rxbuf, enablePong);
        TurnOfSettle(line, wanted, turn, d, Dec(), buf, rxbuf, enablePong);
        ConcatAssociative(seen, TurnEvents(FrontOf(buf), d, enablePong),
                          Receiver.Dispatch(Dec(), rxbuf, enablePong).events);
      }
    }

    /** What a failed poll means for the connection, once everything received has been dispatched. */
    method BreakNow()
      requires Ctl().Consistent()
      modifies `rxbuf, `socketOpen, `requestInitCancellation
      modifies `readyState, `closeCode, `closeReason, `closeWireSize, `closeRemote, `pongReceived, `reports, `sessions
      ensures Ctl() == Break(old(Ctl())) && Ctl().Consistent() && rxbuf == []
    {
      rxbuf := [];
      if readyState == CLOSING {
        CloseSocket();
        SetReadyState(CLOSED);
      } else if readyState != CLOSED {
        CloseSocketAndSwitchToClosedState(ABNORMAL_CLOSE, ABNORMAL_CLOSE_MESSAGE, 0, false);
      }
    }

    method BreakConnection(broken: bool)
      requires Valid()
      modifies `rxbuf, `socketOpen, `requestInitCancellation
      modifies `readyState, `closeCode, `closeReason, `closeWireSize, `closeRemote, `pongReceived, `reports, `sessions
      ensures unchanged(`chunks, `fragmentedMessageKind, `rxbufWanted, `events, `pieces, `sendFailures)
      ensures Valid() && Line() == (if broken then Control.Line(Break(old(Ctl())), pieces) else old(Line()))
      ensures rxbuf == if broken then [] else old(rxbuf)
      ensures broken ==> readyState == CLOSED
    {
      if broken {
        BreakNow();
      }
    }

    /**
      * Dispatches the receive buffer. A failed poll is taken into account only when the loop was left for
      * want of a header: with part of a payload, or a blocking frame, in the buffer nothing is closed.
      */
    method Dispatch(poll: PollResult) returns (ghost r: Dispatched<Decoder>)
      requires Valid()
      modifies `events, `chunks, `fragmentedMessageKind, `rxbuf, `rxbufWanted
      modifies `txbuf, `wire, `encoded, `frames, `pieces, `socketOpen, `sendFailures, `requestInitCancellation
      modifies `readyState, `closeCode, `closeReason, `closeWireSize, `closeRemote, `pongReceived, `reports, `sessions
      ensures Valid() && sendFailures >= old(sendFailures)
      ensures r == Receiver.Dispatch(old(Dec()), old(rxbuf), enablePong)
      ensures Dec() == r.decoder && events == old(events) + r.events
      ensures rxbuf == if BreaksOff(poll, r.buf) then [] else r.buf
      ensures BreaksOff(poll, r.buf) ==> readyState == CLOSED
      ensures rxbufWanted == WantedThrough(old(rxbufWanted), old(rxbuf))
      ensures sendFailures == old(sendFailures) ==>
        Line() == AfterDispatch(old(Line()), old(Dec()), old(rxbuf), enablePong, poll)
      ensures HeaderMissing(old(rxbuf)) ==> sendFailures == old(sendFailures)
    {
      var turn;
      turn, r := DispatchFrames();
      BreakConnection(turn == LeaveLoop && poll != Succeeded);
    }

    /** Reads from the socket, which gives any part of what has arrived, asks to wait, or fails. */
    method ReceiveFromSocket() returns (ok: bool)
      requires taken <= |stream|
      modifies `rxbuf, `taken, `socketOpen
      ensures old(taken) <= taken <= |stream| && rxbuf == old(rxbuf) + stream[old(taken)..taken]
      ensures if ok then socketOpen == old(socketOpen) else !socketOpen
      ensures taken > old(taken) ==> GateOpen(rxbufWanted, old(rxbuf)) && |rxbuf| < GateLimit(rxbufWanted) + CHUNK_SIZE
      ensures !GateOpen(rxbufWanted, old(rxbuf)) ==> ok && taken == old(taken)
    {
      assert stream[taken..taken] == [];
      while true
        invariant old(taken) <= taken <= |stream| && rxbuf == old(rxbuf) + stream[old(taken)..taken]
        invariant socketOpen == old(socketOpen)
        invariant taken > old(taken) ==>
          GateOpen(rxbufWanted, old(rxbuf)) && |rxbuf| < GateLimit(rxbufWanted) + CHUNK_SIZE
        decreases GateLimit(rxbufWanted) - |rxbuf|
      {
        if rxbufWanted == 0 && |rxbuf| >= CHUNK_SIZE {
          break;
        }
        if rxbufWanted > 0 && |rxbuf| >= rxbufWanted {
          break;
        }
        var ret: int :| ret <= CHUNK_SIZE && taken + ret <= |stream|;
        var waitNeeded: bool := *;
        if ret < 0 && waitNeeded {
          break;
        } else if ret <= 0 {
          CloseSocket();
          return false;
        } else {
          ReadOn(old(rxbuf), stream, old(taken), taken, taken + ret);
          rxbuf := rxbuf + stream[taken..taken + ret];
          taken := taken + ret;
        }
      }
      return true;
    }

    /** A heartbeat, sent as PING, text or binary: from now on an answer is waited for. */
    method SendHeartBeat(opcode: nat, message: seq<byte>)
      requires Valid() && opcode in {PING, TEXT_FRAME, BINARY_FRAME}
      modifies `txbuf, `wire, `encoded, `frames, `pieces, `socketOpen, `sendFailures, `requestInitCancellation
      modifies `readyState, `closeCode, `closeReason, `closeWireSize, `closeRemote, `pongReceived, `reports, `sessions
      ensures Valid() && sendFailures >= old(sendFailures) && !pongReceived
      ensures sendFailures == old(sendFailures) ==> Line() == Said(old(Line()), opcode, message)
    {
      pongReceived := false;
      var success; ghost var k;
      success, k := SendData(opcode, message, false);
      assert k == 0 ==> pieces == old(pieces);
    }

    /** The heartbeat of a poll; a PING that was not answered closes instead. */
    method Heartbeat(opcode: nat, message: seq<byte>)
      requires Valid() && opcode in {PING, TEXT_FRAME, BINARY_FRAME} && readyState == OPEN
      modifies `txbuf, `wire, `encoded, `frames, `pieces, `socketOpen, `sendFailures, `requestInitCancellation
      modifies `readyState, `closeCode, `closeReason, `closeWireSize, `closeRemote, `pongReceived, `reports, `sessions
      ensures Valid() && sendFailures >= old(sendFailures) && !pongReceived
      ensures opcode == PING && !old(pongReceived) ==> readyState == CLOSING
      ensures sendFailures == old(sendFailures) ==> Line() == Beaten(old(Line()), old(pongReceived), opcode, message)
    {
      if opcode == PING && !pongReceived {
        Close(INTERNAL_ERROR, PING_TIMEOUT_MESSAGE, 0, false);
      } else {
        SendHeartBeat(opcode, message);
      }
    }

    /**
      * A handshake has succeeded: a new session on a new socket. Nothing is cleared: buffers, fragments and wanted
      * size are those the last session left.
      */
    method StartSession(octets: seq<byte>)
      requires Ctl().Consistent() && (readyState == CLOSED || readyState == CONNECTING)
      modifies `stream, `taken, `socketOpen, `sendFailures, `requestInitCancellation
      modifies `readyState, `closeCode, `closeReason, `closeWireSize, `closeRemote, `pongReceived, `reports, `sessions
      ensures stream == octets && taken == 0 && socketOpen && sendFailures == 0
      ensures Ctl() == Control.SetReadyState(old(Ctl()), OPEN) && Ctl().Consistent() && readyState == OPEN
    {
      stream, taken, socketOpen, sendFailures, requestInitCancellation := octets, 0, true, 0, false;
      SetReadyState(OPEN);
    }

    /** A new session; it begins with a heartbeat, if there are any. */
    method Connected(octets: seq<byte>, heartbeat: Option<(nat, seq<byte>)>)
      requires Valid() && (readyState == CLOSED || readyState == CONNECTING)
      requires heartbeat.Some? ==> heartbeat.value.0 in {PING, TEXT_FRAME, BINARY_FRAME}
      modifies `stream, `taken
      modifies `txbuf, `wire, `encoded, `frames, `pieces, `socketOpen, `sendFailures, `requestInitCancellation
      modifies `readyState, `closeCode, `closeReason, `closeWireSize, `closeRemote, `pongReceived, `reports, `sessions
      ensures Valid() && stream == octets && taken == 0
      ensures heartbeat == None ==> txbuf == old(txbuf) && readyState == OPEN
      ensures sendFailures == 0 ==> Line() == SessionStart(old(Line()), heartbeat)
    {
      StartSession(octets);
      if heartbeat.Some? {
        SendHeartBeat(heartbeat.value.0, heartbeat.value.1);
      }
    }

    /** CLOSING for too long: the closure is completed without the peer's answer. */
    method ExpireClosing()
      requires Ctl().Consistent() && readyState == CLOSING
      modifies `rxbuf, `socketOpen
      modifies `readyState, `closeCode, `closeReason, `closeWireSize, `closeRemote, `pongReceived, `reports, `sessions
      ensures Ctl() == Control.SetReadyState(old(Ctl()), CLOSED) && Ctl().Consistent()
      ensures rxbuf == [] && readyState == CLOSED && !socketOpen
    {
      rxbuf := [];
      CloseSocket();
      SetReadyState(CLOSED);
    }

    method ExpireIfDue()
      requires Valid()
      modifies `rxbuf, `socketOpen
      modifies `readyState, `closeCode, `closeReason, `closeWireSize, `closeRemote, `pongReceived, `reports, `sessions
      ensures Valid()
      ensures Expired(old(Line()), Line())
      ensures rxbuf == old(rxbuf) || (rxbuf == [] && readyState == CLOSED)
    {
      var expired: bool := *;
      if readyState == CLOSING && expired {
        ExpireClosing();
      }
    }

    /** What the socket reports to a poll. */
    method OnPolled(polled: Polled) returns (r: PollResult)
      requires Valid() && taken <= |stream|
      modifies `rxbuf, `taken
      modifies `txbuf, `wire, `encoded, `frames, `pieces, `socketOpen, `sendFailures, `requestInitCancellation
      modifies `readyState, `closeCode, `closeReason, `closeWireSize, `closeRemote, `pongReceived, `reports, `sessions
      ensures Valid() && old(taken) <= taken <= |stream| && rxbuf == old(rxbuf) + stream[old(taken)..taken]
      ensures taken > old(taken) ==> GateOpen(rxbufWanted, old(rxbuf)) && |rxbuf| < GateLimit(rxbufWanted) + CHUNK_SIZE
      ensures sendFailures >= old(sendFailures) && (sendFailures == old(sendFailures) ==> Line() == old(Line()))
      ensures r == AbnormalClose ==> !socketOpen
      ensures r == CannotFlushSendBuffer ==> sendFailures > old(sendFailures)
    {
      r := Succeeded;
      NothingRead(rxbuf, stream, taken);
      match polled {
        case SendRequest(polls) =>
          var flushed := FlushSendBuffer(polls);
          if !flushed {
            r := CannotFlushSendBuffer;
          }
        case ReadyForRead =>
          var ok := ReceiveFromSocket();
          if !ok {
            r := AbnormalClose;
          }
        case Broken => CloseSocket();
        case Nothing =>
      }
    }

    method BeatIfOpen(heartbeat: Option<(nat, seq<byte>)>)
      requires Valid()
      requires heartbeat.Some? ==> heartbeat.value.0 in {PING, TEXT_FRAME, BINARY_FRAME}
      modifies `txbuf, `wire, `encoded, `frames, `pieces, `socketOpen, `sendFailures, `requestInitCancellation
      modifies `readyState, `closeCode, `closeReason, `closeWireSize, `closeRemote, `pongReceived, `reports, `sessions
      ensures Valid() && sendFailures >= old(sendFailures)
      ensures sendFailures == old(sendFailures) ==> Line() == BeatenIfOpen(old(Line()), old(pongReceived), heartbeat)
    {
      if readyState == OPEN && heartbeat.Some? {
        Heartbeat(heartbeat.value.0, heartbeat.value.1);
      }
    }

    method Poll(polled: Polled, heartbeat: Option<(nat, seq<byte>)>) returns (r: PollResult)
      requires Valid() && taken <= |stream|
      requires heartbeat.Some? ==> heartbeat.value.0 in {PING, TEXT_FRAME, BINARY_FRAME}
      modifies `rxbuf, `taken
      modifies `txbuf, `wire, `encoded, `frames, `pieces, `socketOpen, `sendFailures, `requestInitCancellation
      modifies `readyState, `closeCode, `closeReason, `closeWireSize, `closeRemote, `pongReceived, `reports, `sessions
      ensures Valid() && old(taken) <= taken <= |stream| && sendFailures >= old(sendFailures)
      ensures rxbuf == old(rxbuf) + stream[old(taken)..taken] || (rxbuf == [] && readyState == CLOSED)
      ensures taken > old(taken) ==> GateOpen(rxbufWanted, old(rxbuf)) && |rxbuf| < GateLimit(rxbufWanted) + CHUNK_SIZE
      ensures sendFailures == old(sendFailures) ==>
        Expired(BeatenIfOpen(old(Line()), old(pongReceived), heartbeat), Line())
    {
      BeatIfOpen(heartbeat);
      r := OnPolled(polled);
      if r == Succeeded {
        ExpireIfDue();
      }
    }

    /** The dispatch of a buffer that fits the wanted size. */
    method DispatchFitting(poll: PollResult)
      requires Valid() && Fits(rxbufWanted, rxbuf)
      modifies `events, `chunks, `fragmentedMessageKind, `rxbuf, `rxbufWanted
      modifies `txbuf, `wire, `encoded, `frames, `pieces, `socketOpen, `sendFailures, `requestInitCancellation
      modifies `readyState, `closeCode, `closeReason, `closeWireSize, `closeRemote, `pongReceived, `reports, `sessions
      ensures Valid() && sendFailures >= old(sendFailures)
      ensures var r := Receiver.Dispatch(old(Dec()), old(rxbuf), enablePong);
        && events == old(events) + r.events
        && (readyState != CLOSED ==> Dec() == r.decoder && rxbuf == r.buf && rxbufWanted == Wanted(rxbuf))
    {
      WantedFits(Consumer(enablePong), Dec(), rxbufWanted, rxbuf);
      ghost var r := Dispatch(poll);
    }

    /** The dispatch of a buffer that was cleared when the transport was closed. */
    method DispatchCleared(poll: PollResult)
      requires Valid() && rxbuf == [] && readyState == CLOSED
      modifies `events, `chunks, `fragmentedMessageKind, `rxbuf, `rxbufWanted
      modifies `txbuf, `wire, `encoded, `frames, `pieces, `socketOpen, `sendFailures, `requestInitCancellation
      modifies `readyState, `closeCode, `closeReason, `closeWireSize, `closeRemote, `pongReceived, `reports, `sessions
      ensures Valid() && Line() == old(Line()) && events == old(events) && sendFailures == old(sendFailures)
    {
      DispatchNothing(Line(), Dec(), enablePong, poll);
      ghost var r := Dispatch(poll);
    }

    /** One round of the connection's thread. Received octets go through the dispatch, or are thrown away. */
    method Round(polled: Polled, heartbeat: Option<(nat, seq<byte>)>)
      requires Valid() && taken <= |stream| && rxbufWanted == Wanted(rxbuf)
      requires heartbeat.Some? ==> heartbeat.value.0 in {PING, TEXT_FRAME, BINARY_FRAME}
      modifies `events, `chunks, `fragmentedMessageKind, `rxbuf, `rxbufWanted, `taken
      modifies `txbuf, `wire, `encoded, `frames, `pieces, `socketOpen, `sendFailures, `requestInitCancellation
      modifies `readyState, `closeCode, `closeReason, `closeWireSize, `closeRemote, `pongReceived, `reports, `sessions
      ensures Valid() && old(taken) <= taken <= |stream| && sendFailures >= old(sendFailures)
      ensures var r := Receiver.Dispatch(old(Dec()), old(rxbuf) + stream[old(taken)..taken], enablePong);
        || (readyState == CLOSED && events == old(events))
        || (events == old(events) + r.events
            && (readyState != CLOSED ==> Dec() == r.decoder && rxbuf == r.buf && rxbufWanted == Wanted(rxbuf)))
    {
      var r := Poll(polled, heartbeat);
      assert unchanged(`chunks, `fragmentedMessageKind, `rxbufWanted, `events);
      if readyState == CLOSED && rxbuf == [] {
        DispatchCleared(r);
      } else {
        FitsWithMore(old(rxbuf), stream[old(taken)..taken]);
        DispatchFitting(r);
      }
    }

    /**
      * The loop of the connection's thread: poll, then dispatch, until the transport is closed. Whatever the
      * socket does, the events are those of the octets that were read from it, fed in some cuts. When the
      * transport is closed on the way, octets that were read last may have been thrown away.
      */
    method Run(schedule: seq<(Polled, Option<(nat, seq<byte>)>)>) returns (ghost cuts: seq<seq<byte>>)
      requires Valid() && taken <= |stream| && rxbufWanted == Wanted(rxbuf)
      requires forall i :: 0 <= i < |schedule| && schedule[i].1.Some? ==>
                 schedule[i].1.value.0 in {PING, TEXT_FRAME, BINARY_FRAME}
      modifies `events, `chunks, `fragmentedMessageKind, `rxbuf, `rxbufWanted, `taken
      modifies `txbuf, `wire, `encoded, `frames, `pieces, `socketOpen, `sendFailures, `requestInitCancellation
      modifies `readyState, `closeCode, `closeReason, `closeWireSize, `closeRemote, `pongReceived, `reports, `sessions
      ensures Valid() && old(taken) <= taken <= |stream|
      ensures Flatten(cuts) <= stream[old(taken)..taken]
      ensures readyState != CLOSED ==> Flatten(cuts) == stream[old(taken)..taken]
      ensures var fed := Feed(Consumer(enablePong), old(Dec()), old(rxbuf), cuts);
        && events == old(events) + fed.events
        && (readyState != CLOSED ==> Dec() == fed.decoder && rxbuf == fed.buf)
      ensures readyState != CLOSED ==> rxbufWanted == Wanted(rxbuf)
    {
      cuts := [];
      var i := 0;
      ghost var fed := Feed(Consumer(enablePong), Dec(), rxbuf, cuts);
      assert stream[taken..taken] == [];
      while i < |schedule| && readyState != CLOSED
        invariant 0 <= i <= |schedule| && Valid() && old(taken) <= taken <= |stream|
        invariant fed == Feed(Consumer(enablePong), old(Dec()), old(rxbuf), cuts)
        invariant events == old(events) + fed.events
        invariant readyState != CLOSED ==> Dec() == fed.decoder && rxbuf == fed.buf && rxbufWanted == Wanted(rxbuf)
        invariant Flatten(cuts) <= stream[old(taken)..taken]
        invariant readyState != CLOSED ==> Flatten(cuts) == stream[old(taken)..taken]
      {
        ghost var seen, before := events, taken;
        Round(schedule[i].0, schedule[i].1);
        ghost var arrived := stream[before..taken];
        ghost var r := Receiver.Dispatch(fed.decoder, fed.buf + arrived, enablePong);
        ConcatAssociative(old(events), fed.events, r.events);
        ReadOn([], stream, old(taken), before, taken);
        if readyState != CLOSED || events != seen {
          FeedSnoc(Consumer(enablePong), old(Dec()), old(rxbuf), cuts, arrived);
          FlattenSnoc(cuts, arrived);
          cuts := cuts + [arrived];
          fed := Feed(Consumer(enablePong), old(Dec()), old(rxbuf), cuts);
        }
        i := i + 1;
      }
    }
  }
}
