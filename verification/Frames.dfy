/** The frame format of section 5.2 of RFC 6455: frames, their octets, and the reading of a header. */
module Frames {
  import opened Bytes

  const CONTINUATION: nat := 0x0
  const TEXT_FRAME: nat := 0x1
  const BINARY_FRAME: nat := 0x2
  const CLOSE: nat := 0x8
  const PING: nat := 0x9
  const PONG: nat := 0xA

  /** Larger announced payloads are never waited for. */
  const MAX_FRAME_SIZE: nat := 0x8000_0000_0000_0000

  datatype Option<T> = None | Some(value: T)

  function Prepended<T>(a: seq<T>, r: Option<seq<T>>): Option<seq<T>> {
    match r
    case None => None
    case Some(rest) => Some(a + rest)
  }

  lemma PrependedNone<T>(r: Option<seq<T>>)
    ensures Prepended([], r) == r
  {
    if r.Some? {
      assert [] + r.value == r.value;
    }
  }

  lemma PrependedTwice<T>(a: seq<T>, b: T, r: Option<seq<T>>)
    ensures Prepended(a, Prepended([b], r)) == Prepended(a + [b], r)
  {
    if r.Some? {
      ConcatAssociative(a, [b], r.value);
    }
  }

  /** What a frame means once its mask is removed. */
  datatype Piece = Piece(fin: bool, opcode: nat, payload: seq<byte>)

  /** A frame as it is sent: a piece, whether it is masked, and the masking key. */
  datatype RawFrame = Frame(piece: Piece, mask: bool, key: seq<byte>) {
    predicate WellFormed() {
      piece.opcode < 16 && |key| == 4 && |piece.payload| <= MAX_FRAME_SIZE
    }
  }

  type Frame = f: RawFrame | f.WellFormed() witness Frame(Piece(true, 0, []), false, [0, 0, 0, 0])

  function PiecesOf(frames: seq<Frame>): (pieces: seq<Piece>)
    ensures |pieces| == |frames|
    ensures forall i :: 0 <= i < |frames| ==> pieces[i] == frames[i].piece
  {
    seq(|frames|, i requires 0 <= i < |frames| => frames[i].piece)
  }

  // ---- Big-endian numbers ----

  function BigEndian(n: nat, width: nat): (s: seq<byte>)
    ensures |s| == width
  {
    if width == 0 then [] else BigEndian(n / 256, width - 1) + [n % 256]
  }

  function FromBigEndian(s: seq<byte>): nat {
    if s == [] then 0 else FromBigEndian(s[..|s| - 1]) * 256 + s[|s| - 1]
  }

  function Pow256(width: nat): nat {
    if width == 0 then 1 else 256 * Pow256(width - 1)
  }

  lemma {:induction false} BigEndianRoundTrip(n: nat, width: nat)
    requires n < Pow256(width)
    ensures FromBigEndian(BigEndian(n, width)) == n
  {
    if width > 0 {
      BigEndianRoundTrip(n / 256, width - 1);
      var s := BigEndian(n, width);
      assert s[..|s| - 1] == BigEndian(n / 256, width - 1);
    }
  }

  lemma LastOctet(n: nat, width: nat)
    ensures BigEndian(n, width + 1) == BigEndian(n / 256, width) + [n % 256]
  {
  }

  /** The octets that shifting and masking take out of a 16-bit length. */
  lemma TwoOctets(n: nat)
    ensures BigEndian(n, 2) == [n / 0x100 % 256, n % 256]
  {
    LastOctet(n, 1);
    LastOctet(n / 256, 0);
  }

  lemma FourOctets(n: nat)
    ensures BigEndian(n, 4) == [n / 0x100_0000 % 256, n / 0x1_0000 % 256, n / 0x100 % 256, n % 256]
  {
    LastOctet(n, 3);
    LastOctet(n / 0x100, 2);
    assert n / 0x100 / 256 == n / 0x1_0000;
    TwoOctets(n / 0x1_0000);
    assert n / 0x1_0000 / 0x100 == n / 0x100_0000;
  }

  /** The octets that shifting and masking take out of a 64-bit length. */
  lemma EightOctets(n: nat)
    ensures BigEndian(n, 8) == [
      n / 0x100_0000_0000_0000 % 256, n / 0x1_0000_0000_0000 % 256, n / 0x100_0000_0000 % 256, n / 0x1_0000_0000 % 256,
      n / 0x100_0000 % 256, n / 0x1_0000 % 256, n / 0x100 % 256, n % 256]
  {
    LastOctet(n, 7);
    LastOctet(n / 0x100, 6);
    assert n / 0x100 / 256 == n / 0x1_0000;
    LastOctet(n / 0x1_0000, 5);
    assert n / 0x1_0000 / 256 == n / 0x100_0000;
    LastOctet(n / 0x100_0000, 4);
    assert n / 0x100_0000 / 256 == n / 0x1_0000_0000;
    var high := n / 0x1_0000_0000;
    FourOctets(high);
    assert high / 0x100_0000 == n / 0x100_0000_0000_0000;
    assert high / 0x1_0000 == n / 0x1_0000_0000_0000;
    assert high / 0x100 == n / 0x100_0000_0000;
  }

  lemma FromSnoc(s: seq<byte>)
    requires s != []
    ensures FromBigEndian(s) == FromBigEndian(s[..|s| - 1]) * 256 + s[|s| - 1]
  {
  }

  lemma FromTwoOctets(s: seq<byte>)
    requires |s| == 2
    ensures FromBigEndian(s) == s[0] as int * 0x100 + s[1]
  {
    FromSnoc(s);
    FromSnoc(s[..1]);
  }

  lemma FromFourOctets(s: seq<byte>)
    requires |s| == 4
    ensures FromBigEndian(s) == s[0] as int * 0x100_0000 + s[1] as int * 0x1_0000 + s[2] as int * 0x100 + s[3]
  {
    FromSnoc(s);
    FromSnoc(s[..3]);
    FromTwoOctets(s[..2]);
    assert s[..3][..2] == s[..2];
  }

  lemma FromEightOctets(s: seq<byte>)
    requires |s| == 8
    ensures FromBigEndian(s) == s[0] as int * 0x100_0000_0000_0000 + s[1] as int * 0x1_0000_0000_0000
      + s[2] as int * 0x100_0000_0000 + s[3] as int * 0x1_0000_0000
      + s[4] as int * 0x100_0000 + s[5] as int * 0x1_0000 + s[6] as int * 0x100 + s[7]
  {
    FromSnoc(s);
    FromSnoc(s[..7]);
    assert s[..7][..6] == s[..6];
    FromSnoc(s[..6]);
    assert s[..6][..5] == s[..5];
    FromSnoc(s[..5]);
    assert s[..5][..4] == s[..4];
    FromFourOctets(s[..4]);
  }

  lemma Pow256Values()
    ensures Pow256(2) == 0x1_0000 && Pow256(8) == 0x1_0000_0000_0000_0000
  {
    assert Pow256(4) == 0x1_0000_0000;
    assert Pow256(6) == 0x1_0000_0000_0000;
  }

  // ---- Encoding ----

  /** The seven-bit length field: the length itself, or 126 and 127 for the two extended forms. */
  function ShortLength(n: nat): (b: nat)
    ensures b < 128
  {
    if n < 126 then n else if n < 65536 then 126 else 127
  }

  function ExtendedLength(n: nat): seq<byte> {
    if n < 126 then [] else if n < 65536 then BigEndian(n, 2) else BigEndian(n, 8)
  }

  function HeaderOctets(fin: bool, opcode: nat, mask: bool, key: seq<byte>, size: nat): (s: seq<byte>)
    requires opcode < 16
  {
    [(if fin then 0x80 else 0) + opcode, (if mask then 0x80 else 0) + ShortLength(size)]
    + (ExtendedLength(size) + (if mask then key else []))
  }

  function EncodeHeader(f: Frame): (s: seq<byte>) {
    HeaderOctets(f.piece.fin, f.piece.opcode, f.mask, f.key, |f.piece.payload|)
  }

  function EncodeBody(f: Frame): (s: seq<byte>)
    ensures |s| == |f.piece.payload|
  {
    if f.mask then Mask(f.piece.payload, f.key) else f.piece.payload
  }

  function EncodeFrame(f: Frame): (s: seq<byte>)
    ensures |s| >= 2
  {
    EncodeHeader(f) + EncodeBody(f)
  }

  /** The octets of the frames, one frame after the other. */
  function EncodeAll(frames: seq<Frame>): seq<byte> {
    FlatMap(EncodeFrame, frames)
  }

  lemma EncodeAllSnoc(a: seq<Frame>, f: Frame)
    ensures EncodeAll(a + [f]) == EncodeAll(a) + EncodeFrame(f)
  {
    FlatMapSnoc(EncodeFrame, a, f);
  }

  lemma FourParts<T>(a: seq<T>, b: seq<T>, c: seq<T>, d: seq<T>)
    ensures a + (b + c + d) == (a + b) + (c + d)
  {
  }

  // ---- Reading a header ----

  datatype Header = Header(
    size: nat, fin: bool, rsv1: bool, rsv2: bool, rsv3: bool, opcode: nat, mask: bool, length: nat, key: seq<byte>)
  {
    predicate Valid() { |key| == 4 && 2 <= size <= 14 && opcode < 16 }
  }

  function HeaderSize(secondOctet: byte): (size: nat)
    ensures 2 <= size <= 14
  {
    var n0 := secondOctet % 128;
    2 + (if n0 == 126 then 2 else 0) + (if n0 == 127 then 8 else 0) + (if secondOctet >= 128 then 4 else 0)
  }

  /** The header at the front of a buffer, once all of its octets are there. */
  function ParseHeader(buf: seq<byte>): (h: Option<Header>)
    ensures h.Some? ==> h.value.Valid() && h.value.size <= |buf|
  {
    if |buf| < 2 || |buf| < HeaderSize(buf[1]) then None
    else
      var size := HeaderSize(buf[1]);
      var n0 := buf[1] % 128;
      var mask := buf[1] >= 128;
      var i := if n0 < 126 then 2 else if n0 == 126 then 4 else 10;
      Some(Header(
             size,
             buf[0] >= 128, buf[0] / 64 % 2 == 1, buf[0] / 32 % 2 == 1, buf[0] / 16 % 2 == 1,
             buf[0] % 16,
             mask,
             if n0 < 126 then n0 else FromBigEndian(buf[2..i]),
             if mask then buf[i..i + 4] else [0, 0, 0, 0]))
  }

  /** More octets never change a header that is already there. */
  lemma ParseHeaderStable(buf: seq<byte>, more: seq<byte>)
    requires ParseHeader(buf).Some?
    ensures ParseHeader(buf + more) == ParseHeader(buf)
  {
    var n0 := buf[1] % 128;
    var i := if n0 < 126 then 2 else if n0 == 126 then 4 else 10;
    assert (buf + more)[2..i] == buf[2..i];
    if buf[1] >= 128 {
      assert (buf + more)[i..i + 4] == buf[i..i + 4];
    }
  }

  lemma FirstOctet(fin: bool, opcode: nat, b: byte)
    requires opcode < 16 && b == (if fin then 0x80 else 0) + opcode
    ensures (b >= 128) == fin && b % 16 == opcode && b / 64 % 2 == 0 && b / 32 % 2 == 0 && b / 16 % 2 == 0
  {
  }

  /** A header is read octet by octet. */
  lemma ParseOctets(a: byte, b: byte, ext: seq<byte>, key: seq<byte>)
    requires |ext| == if b % 128 < 126 then 0 else if b % 128 == 126 then 2 else 8
    requires |key| == if b >= 128 then 4 else 0
    ensures var s := [a, b] + (ext + key);
      ParseHeader(s) == Some(Header(
        |s|, a >= 128, a / 64 % 2 == 1, a / 32 % 2 == 1, a / 16 % 2 == 1, a % 16, b >= 128,
        if b % 128 < 126 then b % 128 else FromBigEndian(ext), if b >= 128 then key else [0, 0, 0, 0]))
  {
    var s := [a, b] + (ext + key);
    SliceMiddle([a, b], ext, key);
    var i := 2 + |ext|;
    if b >= 128 {
      assert s[i..i + 4] == s[i..];
    }
  }

  /** Reading the header of an encoded frame gives the frame's fields back. */
  lemma ParseEncodedHeader(f: Frame)
    ensures ParseHeader(EncodeHeader(f)) == Some(Header(
      |EncodeHeader(f)|, f.piece.fin, false, false, false, f.piece.opcode, f.mask, |f.piece.payload|,
      if f.mask then f.key else [0, 0, 0, 0]))
  {
    var s := EncodeHeader(f);
    var n := |f.piece.payload|;
    FirstOctet(f.piece.fin, f.piece.opcode, s[0]);
    ExtendedLengthRoundTrip(n);
    assert s[1] % 128 == ShortLength(n) && (s[1] >= 128) == f.mask;
    assert s == [s[0], s[1]] + (ExtendedLength(n) + if f.mask then f.key else []);
    ParseOctets(s[0], s[1], ExtendedLength(n), if f.mask then f.key else []);
  }

  lemma ExtendedLengthRoundTrip(n: nat)
    requires n <= MAX_FRAME_SIZE
    ensures n < 126 ==> ExtendedLength(n) == [] && ShortLength(n) == n
    ensures 126 <= n < 65536 ==> |ExtendedLength(n)| == 2 && ShortLength(n) == 126
    ensures 65536 <= n ==> |ExtendedLength(n)| == 8 && ShortLength(n) == 127
    ensures 126 <= n ==> FromBigEndian(ExtendedLength(n)) == n
  {
    Pow256Values();
    if 126 <= n < 65536 {
      BigEndianRoundTrip(n, 2);
    } else if 65536 <= n {
      BigEndianRoundTrip(n, 8);
    }
  }

  lemma SliceMiddle<T>(a: seq<T>, b: seq<T>, c: seq<T>)
    ensures var s := a + (b + c); s[|a|..|a| + |b|] == b && s[|a| + |b|..] == c
  {
  }
}
