/** Base 64 of section 4 of RFC 4648, and the loops that encode and decode it. */
module Base64 {
  import opened Bytes

  type Sextet = v: nat | v < 64

  // ---- The two tables ----

  /** The encoding table, in rows of sixteen. */
  function EncodingRow(r: nat): (row: string)
    requires r < 4
    ensures |row| == 16
  {
    match r
    case 0 => "ABCDEFGHIJKLMNOP"
    case 1 => "QRSTUVWXYZabcdef"
    case 2 => "ghijklmnopqrstuv"
    case _ => "wxyz0123456789+/"
  }

  /** The decoding table for the characters below 128, in rows of sixteen; 64 marks no digit. */
  function DecodingRow(r: nat): (row: seq<nat>)
    requires r < 8
    ensures |row| == 16
  {
    match r
    case 0 => [64, 64, 64, 64, 64, 64, 64, 64, 64, 64, 64, 64, 64, 64, 64, 64]
    case 1 => [64, 64, 64, 64, 64, 64, 64, 64, 64, 64, 64, 64, 64, 64, 64, 64]
    case 2 => [64, 64, 64, 64, 64, 64, 64, 64, 64, 64, 64, 62, 64, 64, 64, 63]
    case 3 => [52, 53, 54, 55, 56, 57, 58, 59, 60, 61, 64, 64, 64, 64, 64, 64]
    case 4 => [64, 0, 1, 2, 3, 4, 5, 6, 7, 8, 9, 10, 11, 12, 13, 14]
    case 5 => [15, 16, 17, 18, 19, 20, 21, 22, 23, 24, 25, 64, 64, 64, 64, 64]
    case 6 => [64, 26, 27, 28, 29, 30, 31, 32, 33, 34, 35, 36, 37, 38, 39, 40]
    case _ => [41, 42, 43, 44, 45, 46, 47, 48, 49, 50, 51, 64, 64, 64, 64, 64]
  }

  function Encoding(v: Sextet): char { EncodingRow(v / 16)[v % 16] }

  function Decoding(c: char): nat
    requires c as int < 128
  {
    DecodingRow(c as int / 16)[c as int % 16]
  }

  /** The digits of section 4 of RFC 4648, as ranges. */
  function Digit(v: Sextet): char {
    if v < 26 then (65 + v) as char
    else if v < 52 then (71 + v) as char
    else if v < 62 then (v - 4) as char
    else if v == 62 then '+'
    else '/'
  }

  /** The value of a digit, and 64 for every other character. */
  function Value(c: char): (v: nat)
    ensures v <= 64
  {
    var code := c as int;
    if 65 <= code <= 90 then code - 65
    else if 97 <= code <= 122 then code - 71
    else if 48 <= code <= 57 then code + 4
    else if c == '+' then 62
    else if c == '/' then 63
    else 64
  }

  lemma EncodingTable(r: nat, j: nat)
    requires r < 4 && j < 16
    ensures EncodingRow(r)[j] == Digit(16 * r + j)
  {
  }

  lemma EncodingIsDigit(v: Sextet)
    ensures Encoding(v) == Digit(v)
  {
    EncodingTable(v / 16, v % 16);
  }

  lemma DecodingLow(r: nat, j: nat)
    requires r < 4 && j < 16
    ensures DecodingRow(r)[j] == Value((16 * r + j) as char)
  {
  }

  lemma DecodingHigh(r: nat, j: nat)
    requires 4 <= r < 8 && j < 16
    ensures DecodingRow(r)[j] == Value((16 * r + j) as char)
  {
  }

  lemma DecodingIsValue(c: char)
    requires c as int < 128
    ensures Decoding(c) == Value(c)
  {
    var r, j := c as int / 16, c as int % 16;
    assert (16 * r + j) as char == c;
    if r < 4 {
      DecodingLow(r, j);
    } else {
      DecodingHigh(r, j);
    }
  }

  lemma ValueOfDigit(v: Sextet)
    ensures Digit(v) != '=' && Digit(v) as int < 128 && Value(Digit(v)) == v
  {
  }

  // ---- Group by group ----

  /** A function applied to groups of n elements; the last group may be shorter. */
  function InGroups<T, U>(f: seq<T> -> seq<U>, n: nat, s: seq<T>): seq<U>
    requires n > 0
    decreases |s|
  {
    if s == [] then []
    else if |s| <= n then f(s)
    else f(s[..n]) + InGroups(f, n, s[n..])
  }

  predicate WholeGroups(n: nat, size: nat)
    requires n > 0
  {
    size == 0 || (size >= n && WholeGroups(n, size - n))
  }

  lemma {:induction false} InGroupsSplit<T, U>(f: seq<T> -> seq<U>, n: nat, a: seq<T>, b: seq<T>)
    requires n > 0 && WholeGroups(n, |a|)
    ensures InGroups(f, n, a + b) == InGroups(f, n, a) + InGroups(f, n, b)
    decreases |a|
  {
    if a == [] {
      assert a + b == b;
    } else {
      InGroupsSplit(f, n, a[n..], b);
      SplitFirst(f, n, a, b);
    }
  }

  lemma SplitFirst<T, U>(f: seq<T> -> seq<U>, n: nat, a: seq<T>, b: seq<T>)
    requires 0 < n <= |a|
    requires InGroups(f, n, a[n..] + b) == InGroups(f, n, a[n..]) + InGroups(f, n, b)
    ensures InGroups(f, n, a + b) == InGroups(f, n, a) + InGroups(f, n, b)
  {
    FirstGroup(f, n, a);
    FirstGroup(f, n, a + b);
    assert (a + b)[..n] == a[..n];
    assert (a + b)[n..] == a[n..] + b;
    ConcatAssociative(f(a[..n]), InGroups(f, n, a[n..]), InGroups(f, n, b));
  }

  lemma FirstGroup<T, U>(f: seq<T> -> seq<U>, n: nat, s: seq<T>)
    requires 0 < n <= |s|
    ensures InGroups(f, n, s) == f(s[..n]) + InGroups(f, n, s[n..])
  {
    if |s| == n {
      assert s[..n] == s;
      assert f(s) + [] == f(s);
    }
  }

  /** One more whole group at the end of what is done. */
  lemma OneMoreGroup<T, U>(f: seq<T> -> seq<U>, n: nat, s: seq<T>, i: nat)
    requires n > 0 && WholeGroups(n, i) && i + n <= |s|
    ensures InGroups(f, n, s[..i + n]) == InGroups(f, n, s[..i]) + f(s[i..i + n])
  {
    var group := s[i..i + n];
    assert s[..i + n] == s[..i] + group;
    InGroupsSplit(f, n, s[..i], group);
  }

  lemma {:induction false} WholeByThree(size: nat)
    ensures WholeGroups(3, size) <==> size % 3 == 0
  {
    if size >= 3 {
      WholeByThree(size - 3);
    }
  }

  lemma {:induction false} WholeByFour(size: nat)
    ensures WholeGroups(4, size) <==> size % 4 == 0
  {
    if size >= 4 {
      WholeByFour(size - 4);
    }
  }

  // ---- Encoding ----

  /** Section 4 of RFC 4648: three octets are four digits; one or two octets are padded. */
  function EncodeGroup(g: seq<byte>): (s: string)
    requires 1 <= |g| <= 3
    ensures |s| == 4
  {
    if |g| == 1 then Group1(g[0]) else if |g| == 2 then Group2(g[0], g[1]) else Group3(g[0], g[1], g[2])
  }

  function Group3(a: byte, b: byte, c: byte): (s: string)
    ensures |s| == 4
  {
    [Digit(a / 4), Digit(a % 4 * 16 + b / 16), Digit(b % 16 * 4 + c / 64), Digit(c % 64)]
  }

  function Group2(a: byte, b: byte): (s: string)
    ensures |s| == 4
  {
    [Digit(a / 4), Digit(a % 4 * 16 + b / 16), Digit(b % 16 * 4), '=']
  }

  function Group1(a: byte): (s: string)
    ensures |s| == 4
  {
    [Digit(a / 4), Digit(a % 4 * 16), '=', '=']
  }

  function Encoder(): seq<byte> -> string {
    (g: seq<byte>) => if 1 <= |g| <= 3 then EncodeGroup(g) else []
  }

  function Encoded(data: seq<byte>): string { InGroups(Encoder(), 3, data) }

  lemma {:induction false} EncodedLength(data: seq<byte>)
    ensures |Encoded(data)| == 4 * ((|data| + 2) / 3)
    decreases |data|
  {
    if |data| >= 3 {
      EncodedLength(data[3..]);
      FirstGroup(Encoder(), 3, data);
      assert |Encoder()(data[..3])| == 4;
      assert (|data| + 2) / 3 == 1 + (|data| - 3 + 2) / 3;
    }
  }

  method Put3(a: byte, b: byte, c: byte) returns (s: string)
    ensures s == Group3(a, b, c)
  {
    EncodingIsDigit(a / 4);
    EncodingIsDigit(a % 4 * 16 + b / 16);
    EncodingIsDigit(b % 16 * 4 + c / 64);
    EncodingIsDigit(c % 64);
    s := [Encoding(a / 4), Encoding(a % 4 * 16 + b / 16), Encoding(b % 16 * 4 + c / 64), Encoding(c % 64)];
  }

  method PutRest(g: seq<byte>) returns (s: string)
    requires 1 <= |g| <= 2
    ensures s == EncodeGroup(g)
  {
    EncodingIsDigit(g[0] / 4);
    EncodingIsDigit(g[0] % 4 * 16);
    s := [Encoding(g[0] / 4)];
    if |g| == 1 {
      s := s + [Encoding(g[0] % 4 * 16), '='];
    } else {
      EncodingIsDigit(g[0] % 4 * 16 + g[1] / 16);
      EncodingIsDigit(g[1] % 16 * 4);
      s := s + [Encoding(g[0] % 4 * 16 + g[1] / 16), Encoding(g[1] % 16 * 4)];
    }
    s := s + ['='];
  }

  /** One more group of three octets, after whole groups. */
  lemma EncodeMore(data: seq<byte>, i: nat)
    requires i % 3 == 0 && i + 3 <= |data|
    ensures Encoded(data[..i + 3]) == Encoded(data[..i]) + Group3(data[i], data[i + 1], data[i + 2])
  {
    WholeByThree(i);
    OneMoreGroup(Encoder(), 3, data, i);
  }

  /** The last group, of one or two octets. */
  lemma EncodeRest(data: seq<byte>, i: nat)
    requires i % 3 == 0 && i < |data| <= i + 2
    ensures Encoded(data) == Encoded(data[..i]) + EncodeGroup(data[i..])
  {
    WholeByThree(i);
    assert data == data[..i] + data[i..];
    InGroupsSplit(Encoder(), 3, data[..i], data[i..]);
  }

  /** The loop of Encode; its bound is computed without underflow from two octets on. */
  method Encode(data: seq<byte>) returns (s: string)
    requires |data| >= 2
    ensures s == Encoded(data)
  {
    s := [];
    var i := 0;
    while i < |data| - 2
      invariant 0 <= i <= |data| && i % 3 == 0
      invariant s == Encoded(data[..i])
    {
      var group := Put3(data[i], data[i + 1], data[i + 2]);
      s := s + group;
      EncodeMore(data, i);
      i := i + 3;
    }
    if i < |data| {
      var group := PutRest(data[i..]);
      s := s + group;
      EncodeRest(data, i);
    } else {
      assert data[..i] == data;
    }
  }

  // ---- Decoding ----

  function Bits(c: char): nat { if c == '=' then 0 else Value(c) }

  /** The 24 bits of four digits; padding counts as nothing. */
  function Triple(s: string): nat
    requires |s| == 4
  {
    Bits(s[0]) * 0x4_0000 + Bits(s[1]) * 0x1000 + Bits(s[2]) * 0x40 + Bits(s[3])
  }

  function Octets(triple: nat): (s: seq<byte>)
    ensures |s| == 3
  {
    [triple / 0x1_0000 % 256, triple / 0x100 % 256, triple % 256]
  }

  function Decoder(): string -> seq<byte> {
    (s: string) => if |s| == 4 then Octets(Triple(s)) else []
  }

  /** Three octets a group, before the padding is taken off. */
  function AllOctets(s: string): seq<byte> { InGroups(Decoder(), 4, s) }

  lemma {:induction false} AllOctetsLength(s: string)
    requires |s| % 4 == 0
    ensures |AllOctets(s)| == |s| / 4 * 3
    decreases |s|
  {
    if |s| > 4 {
      AllOctetsLength(s[4..]);
    }
  }

  function Padding(s: string): nat
    requires |s| >= 2
  {
    (if s[|s| - 1] == '=' then 1 else 0) + (if s[|s| - 2] == '=' then 1 else 0)
  }

  /** The octets of all groups, without those the padding stands for. */
  ghost predicate Decodes(s: string, data: seq<byte>)
    requires |s| >= 2
  {
    |data| + Padding(s) == |AllOctets(s)| && data <= AllOctets(s)
  }

  method GetBits(c: char) returns (bits: nat)
    requires c as int < 128
    ensures bits == Bits(c)
  {
    DecodingIsValue(c);
    bits := if c == '=' then 0 else Decoding(c);
  }

  method GetTriple(s: string, i: nat) returns (triple: nat)
    requires i + 4 <= |s| && forall j :: 0 <= j < |s| ==> s[j] as int < 128
    ensures triple == Triple(s[i..i + 4])
  {
    var a := GetBits(s[i]);
    var b := GetBits(s[i + 1]);
    var c := GetBits(s[i + 2]);
    var d := GetBits(s[i + 3]);
    triple := a * 0x4_0000 + b * 0x1000 + c * 0x40 + d;
  }

  /** Appends octets up to the length that is wanted. */
  method PutOctets(out: seq<byte>, triple: nat, length: nat) returns (r: seq<byte>)
    ensures r == if |out| >= length then out else (out + Octets(triple))[..Min(length, |out| + 3)]
  {
    r := out;
    if |r| < length {
      r := r + [triple / 0x1_0000 % 256];
    }
    if |r| < length {
      r := r + [triple / 0x100 % 256];
    }
    if |r| < length {
      r := r + [triple % 256];
    }
  }

  function Min(a: nat, b: nat): nat { if a < b then a else b }

  /** Decodes characters of the table's first half; the one error is a size that is not a multiple of 4. */
  method Decode(input: string) returns (error: string, out: seq<byte>)
    requires input != [] && forall i :: 0 <= i < |input| ==> input[i] as int < 128
    ensures error == "" <==> |input| % 4 == 0
    ensures |input| % 4 == 0 ==> Decodes(input, out)
  {
    if |input| % 4 != 0 {
      return "Input data size is not a multiple of 4", [];
    }
    var length := |input| / 4 * 3;
    if input[|input| - 1] == '=' {
      length := length - 1;
    }
    if input[|input| - 2] == '=' {
      length := length - 1;
    }
    out := DecodeGroups(input, length);
    AllOctetsLength(input);
    error := "";
  }

  /** The octets done so far, cut off at the length that is wanted. */
  function CutOff(done: seq<byte>, length: nat): seq<byte> { done[..Min(length, |done|)] }

  lemma CutOffGrows(done: seq<byte>, more: seq<byte>, length: nat)
    requires |more| == 3
    ensures CutOff(done + more, length)
         == if |CutOff(done, length)| >= length then CutOff(done, length)
            else (CutOff(done, length) + more)[..Min(length, |CutOff(done, length)| + 3)]
  {
  }

  method DecodeGroup(input: string, i: nat, ghost k: nat, out: seq<byte>, length: nat) returns (r: seq<byte>)
    requires i == 4 * k && i + 4 <= |input| && forall j :: 0 <= j < |input| ==> input[j] as int < 128
    requires out == CutOff(AllOctets(input[..i]), length)
    ensures r == CutOff(AllOctets(input[..i + 4]), length)
  {
    var triple := GetTriple(input, i);
    DecodeMore(input, i);
    CutOffGrows(AllOctets(input[..i]), Octets(triple), length);
    r := PutOctets(out, triple, length);
  }

  lemma DecodeMore(input: string, i: nat)
    requires i % 4 == 0 && i + 4 <= |input|
    ensures AllOctets(input[..i + 4]) == AllOctets(input[..i]) + Octets(Triple(input[i..i + 4]))
  {
    WholeByFour(i);
    OneMoreGroup(Decoder(), 4, input, i);
  }

  method DecodeGroups(input: string, length: nat) returns (out: seq<byte>)
    requires |input| % 4 == 0 && forall i :: 0 <= i < |input| ==> input[i] as int < 128
    ensures out == CutOff(AllOctets(input), length)
  {
    out := [];
    var i := 0;
    ghost var groups, k := |input| / 4, 0;
    while i < |input|
      invariant 0 <= k <= groups && i == 4 * k && |input| == 4 * groups
      invariant out == CutOff(AllOctets(input[..i]), length)
    {
      out := DecodeGroup(input, i, k, out, length);
      i := i + 4;
      k := k + 1;
    }
    assert input[..i] == input;
  }

  // ---- The round trip ----

  lemma TripleOf(a: byte, b: byte, c: byte)
    ensures a / 4 * 0x4_0000 + (a % 4 * 16 + b / 16) * 0x1000 + (b % 16 * 4 + c / 64) * 0x40 + c % 64
         == a as int * 0x1_0000 + b as int * 0x100 + c
  {
  }

  lemma OctetsOf(a: byte, b: byte, c: byte)
    ensures Octets(a as int * 0x1_0000 + b as int * 0x100 + c) == [a, b, c]
  {
    var high: nat := a as int * 0x100 + b;
    LastOctet(a, b);
    LastOctet(high, c);
    assert (high * 0x100 + c) / 0x1_0000 == a as int;
  }

  lemma LastOctet(high: nat, low: byte)
    ensures (high * 0x100 + low) / 0x100 == high && (high * 0x100 + low) % 0x100 == low
  {
  }

  lemma Group3RoundTrip(a: byte, b: byte, c: byte)
    ensures Octets(Triple(Group3(a, b, c))) == [a, b, c]
    ensures Group3(a, b, c)[2] != '=' && Group3(a, b, c)[3] != '='
  {
    ValueOfDigit(a / 4);
    ValueOfDigit(a % 4 * 16 + b / 16);
    ValueOfDigit(b % 16 * 4 + c / 64);
    ValueOfDigit(c % 64);
    TripleOf(a, b, c);
    OctetsOf(a, b, c);
  }

  lemma Group2RoundTrip(a: byte, b: byte)
    ensures Octets(Triple(Group2(a, b))) == [a, b, 0]
    ensures Group2(a, b)[2] != '='
  {
    ValueOfDigit(a / 4);
    ValueOfDigit(a % 4 * 16 + b / 16);
    ValueOfDigit(b % 16 * 4);
    TripleOf(a, b, 0);
    OctetsOf(a, b, 0);
  }

  lemma Group1RoundTrip(a: byte)
    ensures Octets(Triple(Group1(a))) == [a, 0, 0]
  {
    ValueOfDigit(a / 4);
    ValueOfDigit(a % 4 * 16);
    TripleOf(a, 0, 0);
    OctetsOf(a, 0, 0);
  }

  /** Section 4 of RFC 4648: decoding undoes encoding, and nothing else is what the digits decode to. */
  lemma {:induction false} RoundTrip(data: seq<byte>)
    requires data != []
    ensures |Encoded(data)| >= 4 && forall out :: Decodes(Encoded(data), out) <==> out == data
    decreases |data|
  {
    var s := Encoded(data);
    if |data| <= 3 {
      assert s == EncodeGroup(data);
      assert AllOctets(s) == Octets(Triple(s));
      Group1RoundTrip(data[0]);
      if |data| == 2 {
        Group2RoundTrip(data[0], data[1]);
      }
      if |data| == 3 {
        Group3RoundTrip(data[0], data[1], data[2]);
      }
      DecodesOnly(s, data);
    } else {
      var group, rest := EncodeGroup(data[..3]), Encoded(data[3..]);
      RoundTrip(data[3..]);
      assert Decodes(rest, data[3..]);
      Group3RoundTrip(data[0], data[1], data[2]);
      FirstGroup(Decoder(), 4, s);
      assert s[..4] == group && s[4..] == rest;
      assert data == [data[0], data[1], data[2]] + data[3..];
      DecodesOnly(s, data);
    }
  }

  lemma DecodesOnly(s: string, data: seq<byte>)
    requires |s| >= 2 && Decodes(s, data)
    ensures forall out :: Decodes(s, out) <==> out == data
  {
    forall out | Decodes(s, out) ensures out == data {
      assert |out| == |data|;
      assert out == AllOctets(s)[..|out|] && data == AllOctets(s)[..|data|];
    }
  }
}
