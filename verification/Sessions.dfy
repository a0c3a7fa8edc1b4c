/** What one session of a transport leaves to the next: a wanted size that belongs to no frame any more. */
module Sessions {
  import opened Bytes
  import opened Control
  import opened Frames
  import opened ReceiveGate
  import opened Receiver
  import opened Transport

  /**
    * A closure has taken too long, and a new session begins. The buffer was cleared, and the size that was wanted
    * for the frame at its front is still wanted.
    */
  method StartAgain(t: WebSocketTransport, octets: seq<byte>)
    requires t.Valid() && t.readyState == CLOSING && t.rxbufWanted == Wanted(t.rxbuf)
    modifies t
    ensures t.Valid() && t.readyState == OPEN && t.stream == octets && t.taken == 0
    ensures t.rxbuf == [] && t.rxbufWanted == Wanted(old(t.rxbuf))
  {
    t.ExpireClosing();
    t.Connected(octets, None);
  }

  /** The header at the front of the buffer is incomplete, and more than the wanted size is there. */
  ghost predicate Wedged(t: WebSocketTransport)
    reads t
  {
    FrontOf(t.rxbuf).Short? && 0 < t.rxbufWanted <= |t.rxbuf|
  }

  lemma ShortStays(d: Decoder, buf: seq<byte>, wanted: nat, pong: bool)
    requires FrontOf(buf).Short?
    ensures Receiver.Dispatch(d, buf, pong) == Dispatched(d, buf, []) && WantedThrough(wanted, buf) == wanted
  {
  }

  method PollWedged(t: WebSocketTransport, polled: Polled) returns (r: PollResult)
    requires t.Valid() && Wedged(t) && t.taken <= |t.stream|
    modifies t
    ensures t.Valid() && t.taken == old(t.taken) && t.stream == old(t.stream) && FrontOf(t.rxbuf).Short?
    ensures t.events == old(t.events) && t.rxbufWanted == old(t.rxbufWanted)
    ensures t.rxbuf == old(t.rxbuf) || t.readyState == CLOSED
  {
    NothingRead(t.rxbuf, t.stream, t.taken);
    r := t.Poll(polled, None);
  }

  method DispatchWedged(t: WebSocketTransport, poll: PollResult)
    requires t.Valid() && FrontOf(t.rxbuf).Short?
    modifies t
    ensures t.Valid() && t.taken == old(t.taken) && t.stream == old(t.stream)
    ensures t.events == old(t.events) && t.rxbufWanted == old(t.rxbufWanted)
    ensures t.rxbuf == old(t.rxbuf) || t.readyState == CLOSED
    ensures old(t.readyState) == CLOSED ==> t.readyState == CLOSED
  {
    ShortStays(t.Dec(), t.rxbuf, t.rxbufWanted, t.enablePong);
    var d := t.Dispatch(poll);
  }

  /** From then on nothing is read, whatever arrives, and nothing is delivered, until the transport is closed. */
  method StayWedged(t: WebSocketTransport, polled: Polled)
    requires t.Valid() && Wedged(t) && t.taken <= |t.stream|
    modifies t
    ensures t.Valid() && t.taken == old(t.taken) && t.stream == old(t.stream) && t.events == old(t.events)
    ensures t.readyState == CLOSED || (t.rxbuf == old(t.rxbuf) && t.rxbufWanted == old(t.rxbufWanted))
  {
    var r := PollWedged(t, polled);
    DispatchWedged(t, r);
  }
}
