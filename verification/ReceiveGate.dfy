/** How much is read from the socket: the size wanted for the frame at the front, and the gates it controls. */
module ReceiveGate {
  import opened Bytes
  import opened Frames
  import opened Messages
  import opened Receiver

  /** The octets wanted after a turn. */
  function WantedAfter(wanted: nat, f: Front): nat {
    if f.Partial? then f.total else if f.Short? || f.Reserved? || f.Oversized? then wanted else 0
  }

  function WantedThrough(wanted: nat, buf: seq<byte>): nat
    decreases |buf|
  {
    var f := FrontOf(buf);
    if f.Whole? then WantedThrough(0, buf[f.total..]) else WantedAfter(wanted, f)
  }

  /** The wanted size belongs to the frame at the front of the buffer, or is not set. */
  predicate Fits(wanted: nat, buf: seq<byte>) {
    wanted == 0 || match ParseHeader(buf)
      case None => false
      case Some(h) => !h.rsv1 && !h.rsv2 && !h.rsv3 && h.length <= MAX_FRAME_SIZE && wanted == h.size + h.length
  }

  /** The octets still wanted for the frame at the front; nothing when its length is not known. */
  function Wanted(buf: seq<byte>): nat {
    match FrontOf(buf)
    case Partial(total) => total
    case _ => 0
  }

  lemma NothingIsWanted()
    ensures Wanted([]) == 0
  {
  }

  /** Reading goes on below a chunk, or below the wanted size when there is one. */
  predicate GateOpen(wanted: nat, buf: seq<byte>) { |buf| < GateLimit(wanted) }

  function GateLimit(wanted: nat): nat { if wanted == 0 then CHUNK_SIZE else wanted }

  lemma FitsAfterOne(wanted: nat, buf: seq<byte>)
    requires Fits(wanted, buf) && !FrontOf(buf).Whole?
    ensures WantedAfter(wanted, FrontOf(buf)) == Wanted(if Dead(buf) then BlockedBuffer(FrontOf(buf), buf) else buf)
  {
    if Dead(buf) {
      BlockedBufferDead(buf);
    }
  }

  /** A wanted size that belongs to the front before a dispatch belongs to the front after it. */
  lemma {:induction false} WantedFits<D>(step: (D, Piece) -> Consumed<D>, d: D, wanted: nat, buf: seq<byte>)
    requires Fits(wanted, buf)
    ensures WantedThrough(wanted, buf) == Wanted(DispatchWith(step, d, buf).buf)
    decreases |buf|
  {
    var f := FrontOf(buf);
    if f.Whole? {
      WantedFits(step, step(d, f.piece).decoder, 0, buf[f.total..]);
    } else {
      FitsAfterOne(wanted, buf);
    }
  }

  /** It still does when more octets have arrived. */
  lemma FitsWithMore(buf: seq<byte>, more: seq<byte>)
    ensures Fits(Wanted(buf), buf + more)
  {
    if FrontOf(buf).Partial? {
      ParseHeaderStable(buf, more);
    }
  }

  lemma ShortIsShort(buf: seq<byte>)
    requires FrontOf(buf).Short?
    ensures |buf| < 14
  {
  }

  /** The sum of header and payload length never overflows 64 bits. */
  lemma WantedIsRepresentable(buf: seq<byte>)
    ensures Wanted(buf) <= 14 + 0x8000_0000_0000_0000 < 0x1_0000_0000_0000_0000
  {
  }

  /**
    * After a dispatch that started with a fitting size, reading can go on exactly unless the stream is
    * blocked and a chunk of it is already there.
    */
  lemma GateNeverWedges<D>(step: (D, Piece) -> Consumed<D>, d: D, wanted: nat, buf: seq<byte>)
    requires Fits(wanted, buf)
    ensures var left := DispatchWith(step, d, buf).buf;
      GateOpen(WantedThrough(wanted, buf), left) <==> !(Dead(left) && |left| >= CHUNK_SIZE)
  {
    WantedFits(step, d, wanted, buf);
    DispatchSettles(step, d, buf);
    var left := DispatchWith(step, d, buf).buf;
    if FrontOf(left).Short? {
      ShortIsShort(left);
    }
  }

  /**
    * The size is kept when the buffer is cleared, so a dispatch may start with one that does not fit. On a
    * stream that is not blocked, reading can go on exactly unless the header at the front is incomplete and
    * the stale size already reached.
    */
  lemma {:induction false} StaleWanted<D>(step: (D, Piece) -> Consumed<D>, d: D, wanted: nat, buf: seq<byte>)
    requires !Dead(DispatchWith(step, d, buf).buf)
    ensures GateOpen(WantedThrough(wanted, buf), DispatchWith(step, d, buf).buf)
       <==> !(FrontOf(buf).Short? && 0 < wanted <= |buf|)
  {
    var f := FrontOf(buf);
    if f.Whole? {
      GateNeverWedges(step, step(d, f.piece).decoder, 0, buf[f.total..]);
    } else if f.Short? {
      ShortIsShort(buf);
    } else if Blocked(f) {
      BlockedBufferDead(buf);
    }
  }

  /**
    * The header and one octet of a 7-octet frame are in the buffer when it is cleared; of the next session, eight
    * octets of a ten-octet header arrive first.
    */
  lemma StaleWantedWedges(d: Decoder, pong: bool)
    ensures Wanted([130, 5, 0]) == 7
    ensures var buf := [130, 127, 0, 0, 0, 0, 0, 1];
      && FrontOf(buf).Short?
      && !GateOpen(WantedThrough(7, buf), Dispatch(d, buf, pong).buf)
  {
    var buf: seq<byte> := [130, 127, 0, 0, 0, 0, 0, 1];
    assert FrontOf(buf).Short?;
    assert ParseHeader([130, 5, 0]).Some?;
    StaleWanted(Consumer(pong), d, 7, buf);
  }
}
