/** The accept key of section 4.2.2 of RFC 6455: base 64 of the SHA-1 of the client's key and a fixed GUID. */
module AcceptKey {
  import opened Bytes
  import opened Sha1
  import Base64
  import Text

  /** The GUID 258EAFA5-E914-47DA-95CA-C5AB0DC85B11, in parts of four characters. */
  function GuidPart(i: nat): (part: string)
    requires i < 9
    ensures |part| == 4
  {
    match i
    case 0 => "258E"
    case 1 => "AFA5"
    case 2 => "-E91"
    case 3 => "4-47"
    case 4 => "DA-9"
    case 5 => "5CA-"
    case 6 => "C5AB"
    case 7 => "0DC8"
    case _ => "5B11"
  }

  const GUID: seq<byte> := seq(36, k requires 0 <= k < 36 => GuidPart(k / 4)[k % 4] as int % 256)

  // ---- RFC 3174: padding, words, and the hash of a message ----

  function WordOf(a: byte, b: byte, c: byte, d: byte): word {
    a as nat * 0x100_0000 + b as nat * 0x1_0000 + c as nat * 0x100 + d
  }

  function OctetsOf(w: word): (s: seq<byte>)
    ensures |s| == 4
  {
    [w / 0x100_0000, w / 0x1_0000 % 256, w / 0x100 % 256, w % 256]
  }

  function Zeros(n: nat): (s: seq<byte>)
    ensures |s| == n
  {
    seq(n, _ => 0)
  }

  /** The number of zero octets between the 0x80 and the length. */
  function Filling(size: nat): nat { (119 - size % 64) % 64 }

  /** Section 4: the length is that of the message in bits, as two words. */
  function LengthWords(size: nat): seq<byte> {
    OctetsOf(size * 8 / 0x1_0000_0000 % 0x1_0000_0000) + OctetsOf(size * 8 % 0x1_0000_0000)
  }

  function Padded(message: seq<byte>): seq<byte> {
    message + [0x80] + Zeros(Filling(|message|)) + LengthWords(|message|)
  }

  function WordsOf(block: seq<byte>): (words: seq<word>)
    requires |block| == 64
    ensures |words| == 16
  {
    seq(16, i requires 0 <= i < 16 => WordOf(block[4 * i], block[4 * i + 1], block[4 * i + 2], block[4 * i + 3]))
  }

  const H0 := Registers(0x67452301, 0xEFCDAB89, 0x98BADCFE, 0x10325476, 0xC3D2E1F0)

  /** Section 6.1: the blocks are processed in order. */
  function Hash(h: Registers, padded: seq<byte>): Registers
    decreases |padded|
  {
    if |padded| < 64 then h else Hash(Compress(h, WordsOf(padded[..64])), padded[64..])
  }

  function Octets(h: Registers): (s: seq<byte>)
    ensures |s| == 20
  {
    OctetsOf(h.a) + OctetsOf(h.b) + OctetsOf(h.c) + OctetsOf(h.d) + OctetsOf(h.e)
  }

  /** The message digest of section 6.1 of RFC 3174. */
  function Sha1Of(message: seq<byte>): (digest: seq<byte>)
    ensures |digest| == 20
  {
    Octets(Hash(H0, Padded(message)))
  }

  // ---- Two hard-wired blocks ----

  lemma PaddedSixty(message: seq<byte>)
    requires |message| == 60
    ensures |Padded(message)| == 128
    ensures Padded(message)[..64] == message + [0x80, 0, 0, 0]
    ensures Padded(message)[64..] == Zeros(60) + OctetsOf(480)
  {
    assert OctetsOf(0) == Zeros(4);
    assert Padded(message) == (message + [0x80, 0, 0, 0]) + (Zeros(60) + OctetsOf(480));
  }

  lemma HashOfTwo(h: Registers, padded: seq<byte>)
    requires |padded| == 128
    ensures Hash(h, padded) == Compress(Compress(h, WordsOf(padded[..64])), WordsOf(padded[64..]))
  {
    var second := padded[64..];
    assert second[..64] == second;
    assert Hash(Compress(Compress(h, WordsOf(padded[..64])), WordsOf(second)), second[64..])
        == Compress(Compress(h, WordsOf(padded[..64])), WordsOf(second));
  }

  /** The second block: nothing but the length. */
  function LastBlock(): (words: seq<word>)
    ensures |words| == 16
  {
    seq(16, i => if i == 15 then 480 else 0)
  }

  lemma LastWords()
    ensures WordsOf(Zeros(60) + OctetsOf(480)) == LastBlock()
  {
    assert OctetsOf(480) == [0, 0, 1, 224];
  }

  /** Words 6 to 14 of the first block. */
  function GuidWord(i: nat): word
    requires 6 <= i < 15
  {
    match i
    case 6 => 0x32353845
    case 7 => 0x41464135
    case 8 => 0x2D453931
    case 9 => 0x342D3437
    case 10 => 0x44412D39
    case 11 => 0x3543412D
    case 12 => 0x43354142
    case 13 => 0x30444338
    case _ => 0x35423131
  }

  lemma PartWords(i: nat)
    requires i < 9
    ensures var part := GuidPart(i);
      WordOf(part[0] as int % 256, part[1] as int % 256, part[2] as int % 256, part[3] as int % 256) == GuidWord(6 + i)
  {
  }

  lemma GuidWords(i: nat)
    requires 6 <= i < 15
    ensures var k := 4 * (i - 6); WordOf(GUID[k], GUID[k + 1], GUID[k + 2], GUID[k + 3]) == GuidWord(i)
  {
    PartWords(i - 6);
  }

  function KeyWord(input: seq<byte>, i: nat): word
    requires |input| == 24 && i < 6
  {
    WordOf(input[4 * i], input[4 * i + 1], input[4 * i + 2], input[4 * i + 3])
  }

  /** The first block, for a 24-octet key. */
  function FirstBlock(input: seq<byte>): (words: seq<word>)
    requires |input| == 24
    ensures |words| == 16
  {
    seq(16, i requires 0 <= i < 16 => if i < 6 then KeyWord(input, i) else if i < 15 then GuidWord(i) else 0x8000_0000)
  }

  lemma FirstWords(input: seq<byte>)
    requires |input| == 24
    ensures WordsOf(input + GUID + [0x80, 0, 0, 0]) == FirstBlock(input)
  {
    var block := input + GUID + [0x80, 0, 0, 0];
    forall i: nat | i < 16 ensures WordsOf(block)[i] == FirstBlock(input)[i] {
      if 6 <= i < 15 {
        GuidWords(i);
      }
    }
  }

  /** The two blocks are those of the padded 60-octet message. */
  lemma TwoBlocks(input: seq<byte>)
    requires |input| == 24
    ensures Hash(H0, Padded(input + GUID)) == Compress(Compress(H0, FirstBlock(input)), LastBlock())
  {
    PaddedSixty(input + GUID);
    HashOfTwo(H0, Padded(input + GUID));
    FirstWords(input);
    LastWords();
  }

  // ---- The handshake key ----

  /** A string as C reads it. */
  function UntilNul(s: seq<byte>): (r: seq<byte>)
    ensures |r| <= |s|
  {
    if s == [] || s[0] == 0 then [] else [s[0]] + UntilNul(s[1..])
  }

  /** What strncpy leaves in 24 octets: the string cut off, or filled up with zeros. */
  function Field(s: seq<byte>): (r: seq<byte>)
    ensures |r| == 24
  {
    var c := UntilNul(s);
    if |c| >= 24 then c[..24] else c + Zeros(24 - |c|)
  }

  lemma {:induction false} UntilNulIsPrefix(s: seq<byte>, n: nat)
    requires n <= |s| && (forall i :: 0 <= i < n ==> s[i] != 0)
    ensures |UntilNul(s)| >= n && UntilNul(s)[..n] == s[..n]
    ensures n == |s| || s[n] == 0 ==> UntilNul(s) == s[..n]
    decreases n
  {
    if n > 0 {
      UntilNulIsPrefix(s[1..], n - 1);
      assert s[..n] == [s[0]] + s[1..][..n - 1];
    }
  }

  /** A key of 24 octets without NUL is taken as it is. */
  lemma FieldOfKey(s: seq<byte>)
    requires |s| == 24 && forall i :: 0 <= i < 24 ==> s[i] != 0
    ensures Field(s) == s
  {
    UntilNulIsPrefix(s, 24);
  }

  method CopyField(s: seq<byte>) returns (input: array<byte>)
    ensures fresh(input) && input.Length == 25 && input[..24] == Field(s) && input[24] == 0
  {
    input := new byte[25](_ => 0);
    var i := 0;
    while i < 24 && i < |s| && s[i] != 0
      invariant 0 <= i <= 24 && i <= |s| && (forall k :: 0 <= k < i ==> s[k] != 0)
      invariant input[..i] == s[..i] && (forall k :: i <= k < 25 ==> input[k] == 0)
    {
      input[i] := s[i];
      i := i + 1;
    }
    UntilNulIsPrefix(s, i);
    assert input[..24] == input[..i] + input[i..24];
    assert input[i..24] == Zeros(24 - i);
  }

  /** The key's words, in network order. */
  method SetKeyWords(input: array<byte>, words: array<word>, ghost key: seq<byte>)
    requires input.Length == 25 && words.Length == 16 && |key| == 24 && input[..24] == key
    requires forall k :: 6 <= k < 16 ==> words[k] == FirstBlock(key)[k]
    modifies words
    ensures words[..] == FirstBlock(key)
  {
    for i := 0 to 6
      invariant forall k :: 0 <= k < i ==> words[k] == FirstBlock(key)[k]
      invariant forall k :: 6 <= k < 16 ==> words[k] == FirstBlock(key)[k]
    {
      assert input[..24][4 * i] == input[4 * i] && input[..24][4 * i + 1] == input[4 * i + 1];
      assert input[..24][4 * i + 2] == input[4 * i + 2] && input[..24][4 * i + 3] == input[4 * i + 3];
      assert FirstBlock(key)[i] == KeyWord(key, i);
      words[i] := WordOf(input[4 * i], input[4 * i + 1], input[4 * i + 2], input[4 * i + 3]);
    }
  }

  /** The octets of the hash value, in network order. */
  method ToOctets(hash: array<word>) returns (bytes: array<byte>)
    requires hash.Length == 5
    ensures fresh(bytes) && bytes[..] == Octets(RegistersOf(hash[..]))
  {
    bytes := new byte[20](_ => 0);
    ghost var all := Octets(RegistersOf(hash[..]));
    for i := 0 to 5
      invariant bytes[..4 * i] == all[..4 * i]
    {
      var tmp := hash[i];
      ghost var done := bytes[..4 * i];
      bytes[4 * i + 3] := tmp % 256;
      bytes[4 * i + 2] := tmp / 0x100 % 256;
      bytes[4 * i + 1] := tmp / 0x1_0000 % 256;
      bytes[4 * i] := tmp / 0x100_0000;
      OctetsAt(RegistersOf(hash[..]), hash[..], i);
      assert bytes[..4 * (i + 1)] == done + OctetsOf(tmp);
      assert all[..4 * (i + 1)] == all[..4 * i] + OctetsOf(tmp);
    }
    assert bytes[..] == bytes[..20];
  }

  lemma OctetsAt(h: Registers, hash: seq<word>, i: nat)
    requires |hash| == 5 && i < 5 && h == RegistersOf(hash)
    ensures Octets(h)[4 * i..4 * i + 4] == OctetsOf(hash[i])
  {
  }

  method EncodeThree(src: array<byte>, i: nat, dst: string) returns (r: string)
    requires i % 3 == 0 && i + 3 <= src.Length && dst == Base64.Encoded(src[..i])
    ensures r == Base64.Encoded(src[..i + 3])
  {
    var group := Base64.Put3(src[i], src[i + 1], src[i + 2]);
    Base64.EncodeMore(src[..], i);
    assert src[..][..i] == src[..i] && src[..][..i + 3] == src[..i + 3];
    r := dst + group;
  }

  /** The base 64 of the 20 octets: six groups of three, and two octets that are padded. */
  method EncodeDigest(src: array<byte>) returns (dst: string)
    requires src.Length == 20
    ensures dst == Base64.Encoded(src[..]) && |dst| == 28
  {
    dst := [];
    ghost var data := src[..];
    var i := 0;
    while i < 18
      invariant 0 <= i <= 18 && i % 3 == 0
      invariant dst == Base64.Encoded(src[..i])
    {
      dst := EncodeThree(src, i, dst);
      i := i + 3;
    }
    var rest := Base64.PutRest([src[18], src[19]]);
    dst := dst + rest;
    assert data[18..] == [src[18], src[19]];
    Base64.EncodeRest(data, 18);
    Base64.EncodedLength(data);
  }

  /** The hash value of the key's two blocks. */
  method HashKey(input: array<byte>, ghost key: seq<byte>) returns (hash: array<word>)
    requires input.Length == 25 && |key| == 24 && input[..24] == key
    ensures fresh(hash) && hash.Length == 5 && RegistersOf(hash[..]) == Hash(H0, Padded(key + GUID))
  {
    hash := new word[5][0x67452301, 0xEFCDAB89, 0x98BADCFE, 0x10325476, 0xC3D2E1F0];
    var words := new word[16](i requires 0 <= i < 16 =>
      if i < 6 then 0 else if i < 15 then GuidWord(i) else 0x8000_0000);
    SetKeyWords(input, words, key);
    assert RegistersOf(hash[..]) == H0;
    Sha1.Sha1(hash, words);
    AddLength(hash);
    TwoBlocks(key);
  }

  method AddLength(hash: array<word>)
    requires hash.Length == 5
    modifies hash
    ensures RegistersOf(hash[..]) == Compress(old(RegistersOf(hash[..])), LastBlock())
  {
    var last := new word[16](i => if i == 15 then 480 else 0);
    assert last[..] == LastBlock();
    Sha1.Sha1(hash, last);
  }

  /**
    * Section 4.2.2 of RFC 6455, for every key string: what is generated is the base 64 of the SHA-1 of the
    * 24 octets the key is copied to, followed by the GUID.
    */
  method Generate(s: seq<byte>) returns (output: string)
    ensures output == Base64.Encoded(Sha1Of(Field(s) + GUID)) && |output| == 28
  {
    var input := CopyField(s);
    var hash := HashKey(input, Field(s));
    var bytes := ToOctets(hash);
    output := EncodeDigest(bytes);
  }
}
