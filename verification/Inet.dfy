/** Internet addresses as text: the printer and the parser that are used where the C library has none. */
module Inet {
  import opened Bytes
  import opened Frames
  import Text

  /** The character at an index of a C string: NUL behind its end. */
  function At(s: string, j: nat): char { if j < |s| then s[j] else '\0' }

  // ---- Numerals ----

  /** What "%x" prints. */
  function Hex(n: nat): (s: string)
    ensures |s| > 0
  {
    if n < 16 then [Text.HexDigit(n)] else Hex(n / 16) + [Text.HexDigit(n % 16)]
  }

  predicate IsHex(c: char) { Text.HexVal(c) >= 0 }

  predicate IsDigit(c: char) { '0' <= c <= '9' }

  function HexValue(s: string): nat {
    if s == [] then 0 else 16 * HexValue(s[..|s| - 1]) + if IsHex(s[|s| - 1]) then Text.HexVal(s[|s| - 1]) else 0
  }

  function DecimalValue(s: string): nat {
    if s == [] then 0
    else 10 * DecimalValue(s[..|s| - 1]) + if IsDigit(s[|s| - 1]) then s[|s| - 1] as int - 48 else 0
  }

  function Pow16(k: nat): nat { if k == 0 then 1 else 16 * Pow16(k - 1) }

  /** A printed number: not too many digits, all hexadecimal, with the value, and no zero in front. */
  lemma {:induction false} HexPrinted(n: nat, k: nat)
    requires k > 0 && n < Pow16(k)
    ensures var s := Hex(n);
      && |s| <= k && HexValue(s) == n && (forall x :: x in s ==> IsHex(x))
      && (if n == 0 then s == "0" else s[0] != '0')
    decreases k
  {
    if n < 16 {
      HexSmall(n);
    } else {
      HexPrinted(n / 16, k - 1);
      HexMore(n);
    }
  }

  /** A printed group has one to four digits. */
  lemma GroupPrinted(n: nat)
    requires n < 0x1_0000
    ensures var s := Hex(n);
      && 1 <= |s| <= 4 && HexValue(s) == n && (forall x :: x in s ==> IsHex(x))
      && (if n == 0 then s == "0" else s[0] != '0')
  {
    assert Pow16(2) == 0x100;
    assert Pow16(4) == 0x1_0000;
    HexPrinted(n, 4);
  }

  lemma HexSmall(n: nat)
    ensures n < 16 ==> Hex(n) == [Text.HexDigit(n)] && HexValue(Hex(n)) == n && IsHex(Hex(n)[0])
    ensures n < 16 ==> (Hex(n)[0] == '0' <==> n == 0)
  {
    if n < 16 {
      Text.HexDigitValue(n);
      assert Hex(n)[..0] == [];
    }
  }

  lemma HexMore(n: nat)
    requires n >= 16
    ensures var s, t := Hex(n), Hex(n / 16);
      && |s| == |t| + 1 && s[0] == t[0]
      && (HexValue(t) == n / 16 ==> HexValue(s) == n)
      && ((forall x :: x in t ==> IsHex(x)) ==> forall x :: x in s ==> IsHex(x))
  {
    Text.HexDigitValue(n % 16);
    var s := Hex(n);
    assert s[..|s| - 1] == Hex(n / 16);
  }

  lemma DecimalDigit(d: nat)
    requires d < 10
    ensures IsDigit(Text.DigitChar(d)) && Text.DigitChar(d) as int == 48 + d
  {
  }

  /** A printed octet has one to three digits. */
  lemma OctetPrinted(n: byte)
    ensures var s := Text.Decimal(n);
      && 1 <= |s| <= 3 && DecimalValue(s) == n && (forall x :: x in s ==> IsDigit(x))
      && (if n == 0 then s == "0" else s[0] != '0')
  {
    DecimalPrinted(n, 3);
  }

  function Pow10(k: nat): nat { if k == 0 then 1 else 10 * Pow10(k - 1) }

  lemma {:induction false} DecimalPrinted(n: nat, k: nat)
    requires k > 0 && n < Pow10(k)
    ensures var s := Text.Decimal(n);
      && |s| <= k && DecimalValue(s) == n && (forall x :: x in s ==> IsDigit(x))
      && (if n == 0 then s == "0" else s[0] != '0')
    decreases k
  {
    var s := Text.Decimal(n);
    DecimalDigit(n % 10);
    if n < 10 {
      assert s[..0] == [];
    } else {
      DecimalPrinted(n / 10, k - 1);
      assert s[..|s| - 1] == Text.Decimal(n / 10);
    }
  }

  // ---- IPv4 ----

  /** The octets from number i on, as "%d" prints them, with dots between them. */
  function DottedFrom(a: seq<byte>, i: nat): string
    requires |a| == 4 && i < 4
    decreases 4 - i
  {
    if i == 3 then Text.Decimal(a[3]) else Text.Decimal(a[i]) + ("." + DottedFrom(a, i + 1))
  }

  function Dotted(a: seq<byte>): string
    requires |a| == 4
  {
    DottedFrom(a, 0)
  }

  /** The digits at the front, at most so many. */
  function Digits(s: string, most: nat): (j: nat)
    ensures j <= most && j <= |s|
  {
    if most > 0 && s != [] && IsDigit(s[0]) then 1 + Digits(s[1..], most - 1) else 0
  }

  /** Number i of a dotted address: none, the last one, or one with more text behind its dot. */
  datatype Octet = NoOctet | LastOctet(value: byte) | OctetBefore(value: byte, rest: string)

  function FirstOctet(s: string, i: nat): (o: Octet)
    requires i < 4
    ensures o.OctetBefore? ==> i < 3
  {
    var j := Digits(s, 3);
    var v := DecimalValue(s[..j]);
    if j == 0 || (j > 1 && s[0] == '0') || v > 255 then NoOctet
    else if At(s, j) == '\0' && i == 3 then LastOctet(v)
    else if At(s, j) != '.' || i == 3 then NoOctet
    else OctetBefore(v, s[j + 1..])
  }

  /** The octets of a dotted address from number i on, or nothing. */
  function Parse4(s: string, i: nat): (r: Option<seq<byte>>)
    requires i < 4
    ensures r.Some? ==> |r.value| == 4 - i
    decreases 4 - i
  {
    match FirstOctet(s, i)
    case NoOctet => None
    case LastOctet(v) => Some([v])
    case OctetBefore(v, rest) => Prepended([v], Parse4(rest, i + 1))
  }

  lemma {:induction false} DigitsOfNumeral(s: string, rest: string, most: nat)
    requires |s| <= most && (forall x :: x in s ==> IsDigit(x)) && (rest == [] || !IsDigit(rest[0]))
    ensures Digits(s + rest, most) == |s| && (s + rest)[..|s|] == s
    decreases |s|
  {
    if s == [] {
      assert s + rest == rest;
    } else {
      DigitsOfNumeral(s[1..], rest, most - 1);
      TailOfConcat(s, rest);
    }
  }

  /** A printed octet at the front of the text. */
  lemma OctetInFront(n: byte, rest: string)
    requires rest == [] || rest[0] == '.'
    ensures var s := Text.Decimal(n) + rest; var j := |Text.Decimal(n)|;
      && Digits(s, 3) == j > 0 && DecimalValue(s[..j]) == n && !(j > 1 && s[0] == '0') && s[j..] == rest
  {
    OctetPrinted(n);
    var t := Text.Decimal(n);
    DigitsOfNumeral(t, rest, 3);
    assert (t + rest)[0] == t[0];
  }

  lemma ReadOctetInFront(n: byte, rest: string, i: nat)
    requires i < 3
    ensures FirstOctet(Text.Decimal(n) + ("." + rest), i) == OctetBefore(n, rest)
  {
    OctetInFront(n, "." + rest);
    var s, j := Text.Decimal(n) + ("." + rest), |Text.Decimal(n)|;
    TailOfConcat(".", rest);
    RestOfRest(s, j, 1);
    assert s[j] == '.';
  }

  lemma ParseOctet(n: byte, rest: string, i: nat, more: seq<byte>)
    requires i < 3 && Parse4(rest, i + 1) == Some(more)
    ensures Parse4(Text.Decimal(n) + ("." + rest), i) == Some([n] + more)
  {
    ReadOctetInFront(n, rest, i);
  }

  lemma ParseLastOctet(n: byte)
    ensures Parse4(Text.Decimal(n), 3) == Some([n])
  {
    OctetInFront(n, "");
    assert Text.Decimal(n) + "" == Text.Decimal(n);
  }

  lemma {:induction false} ParseFrom(a: seq<byte>, i: nat)
    requires |a| == 4 && i < 4
    ensures Parse4(DottedFrom(a, i), i) == Some(a[i..])
    decreases 4 - i
  {
    if i == 3 {
      ParseLastOctet(a[3]);
      assert a[3..] == [a[3]];
    } else {
      ParseFrom(a, i + 1);
      ParseOctet(a[i], DottedFrom(a, i + 1), i, a[i + 1..]);
      HeadAndTail(a, i);
    }
  }

  /** Every IPv4 address is read back from its text. */
  lemma RoundTrip4(a: seq<byte>)
    requires |a| == 4
    ensures Parse4(Dotted(a), 0) == Some(a)
  {
    ParseFrom(a, 0);
    assert a[0..] == a;
  }

  // ---- IPv6: reading ----

  /** A 16-bit group. */
  type group = n: nat | n < 0x1_0000

  datatype Groups =
    | Malformed
    | Groups(i: nat, brk: int, ip: seq<group>, v4: Option<string>)   // the last index, that of "::", the array

  function HexDigits(s: string, most: nat): (j: nat)
    ensures j <= most && j <= |s|
  {
    if most > 0 && s != [] && IsHex(s[0]) then 1 + HexDigits(s[1..], most - 1) else 0
  }

  lemma {:induction false} HexValueBound(s: string, k: nat)
    requires |s| <= k
    ensures HexValue(s) < Pow16(k)
    decreases |s|
  {
    if s != [] {
      HexValueBound(s[..|s| - 1], k - 1);
    } else {
      Pow16Positive(k);
    }
  }

  lemma {:induction false} Pow16Positive(k: nat)
    ensures Pow16(k) > 0
  {
    if k > 0 {
      Pow16Positive(k - 1);
    }
  }

  /** The value of at most four hexadecimal digits. */
  function GroupValue(s: string): group
    requires |s| <= 4
  {
    assert Pow16(2) == 0x100;
    assert Pow16(4) == 0x1_0000;
    HexValueBound(s, 4);
    HexValue(s)
  }

  /** The loop of the parser, at group i of the array; brk is the index of "::", or negative. */
  function ParseGroups(s: string, i: nat, brk: int, ip: seq<group>): (r: Groups)
    requires i < 8 && brk < i && |ip| == 8
    ensures r.Groups? ==> r.i < 8 && r.brk <= r.i && |r.ip| == 8 && (r.brk < 0 ==> r.i == 7)
    ensures r.Groups? && r.v4.Some? ==> r.i > 0 && r.brk < r.i
    decreases |s|
  {
    if At(s, 0) == ':' && brk < 0 then
      if At(s, 1) == '\0' then Groups(i, i, ip[i := 0], None)
      else if i == 7 then Malformed
      else ParseGroups(s[1..], i + 1, i, ip[i := 0])
    else
      var j := HexDigits(s, 4);
      if j == 0 then Malformed
      else ParseGroup(s, i, brk, ip[i := GroupValue(s[..j])], j)
  }

  function ParseGroup(s: string, i: nat, brk: int, ip: seq<group>, j: nat): (r: Groups)
    requires i < 8 && brk < i && |ip| == 8 && 0 < j <= |s|
    ensures r.Groups? ==> r.i < 8 && r.brk <= r.i && |r.ip| == 8 && (r.brk < 0 ==> r.i == 7)
    ensures r.Groups? && r.v4.Some? ==> r.i > 0 && r.brk < r.i
    decreases |s|, 0
  {
    if At(s, j) == '\0' && (brk >= 0 || i == 7) then Groups(i, brk, ip, None)
    else if i == 7 then Malformed
    else if At(s, j) == ':' then ParseGroups(s[j + 1..], i + 1, brk, ip)
    else if At(s, j) != '.' || (i < 6 && brk < 0) then Malformed
    else Groups(i + 1, brk, ip, Some(s))
  }

  function ZeroGroups(n: nat): (z: seq<group>)
    ensures |z| == n
  {
    seq(n, _ => 0)
  }

  /** The groups behind "::" move to the end, and zeros take their place. */
  function Spread(i: nat, brk: int, ip: seq<group>): (r: seq<group>)
    requires i < 8 && brk <= i && |ip| == 8
    ensures |r| == 8
  {
    if brk < 0 then ip else ip[..brk] + ZeroGroups(7 - i) + ip[brk..i + 1]
  }

  function OctetsOf(groups: seq<group>): (a: seq<byte>)
    ensures |a| == 2 * |groups|
  {
    seq(2 * |groups|, k requires 0 <= k < 2 * |groups| =>
      if k % 2 == 0 then groups[k / 2] / 256 else groups[k / 2] % 256)
  }

  function Finish(r: Groups): (a: Option<seq<byte>>)
    requires r.Groups? ==> r.i < 8 && r.brk <= r.i && |r.ip| == 8
    ensures a.Some? ==> |a.value| == 16
  {
    match r
    case Malformed => None
    case Groups(i, brk, ip, v4) =>
      var octets := OctetsOf(Spread(i, brk, ip));
      match v4
      case None => Some(octets)
      case Some(s) =>
        match Parse4(s, 0)
        case None => None
        case Some(a) => Some(octets[..12] + a)
  }

  /** Sixteen octets, or nothing; what the array held before does not matter. */
  function Parse6(s: string, junk: seq<group>): (a: Option<seq<byte>>)
    requires |junk| == 8
    ensures a.Some? ==> |a.value| == 16
  {
    if At(s, 0) == ':' then (if At(s, 1) != ':' then None else Finish(ParseGroups(s[1..], 0, -1, junk)))
    else Finish(ParseGroups(s, 0, -1, junk))
  }

  // ---- IPv6: texts that are read ----

  /** Printed groups, each with a colon behind it, and what comes then. */
  function Before(g: seq<group>, rest: string): string {
    if g == [] then rest else Hex(g[0]) + (":" + Before(g[1..], rest))
  }

  /** Printed groups with colons between them. */
  function Joined(g: seq<group>): string {
    if g == [] then "" else Before(g[..|g| - 1], Hex(g[|g| - 1]))
  }

  function Put(ip: seq<group>, i: nat, g: seq<group>): (r: seq<group>)
    requires i + |g| <= |ip|
    ensures |r| == |ip|
  {
    ip[..i] + g + ip[i + |g|..]
  }

  /** The first group, then the others. */
  lemma PutCons(ip: seq<group>, i: nat, n: group, g: seq<group>)
    requires i + 1 + |g| <= |ip|
    ensures Put(ip[i := n], i + 1, g) == Put(ip, i, [n] + g)
  {
  }

  /** The last group, after the others. */
  lemma PutSnoc(ip: seq<group>, i: nat, g: seq<group>, n: group)
    requires i + |g| + 1 <= |ip|
    ensures Put(ip, i, g)[i + |g| := n] == Put(ip, i, g + [n])
  {
  }

  lemma PutTwice(ip: seq<group>, g: seq<group>, h: seq<group>)
    requires |g| + |h| <= |ip|
    ensures var r := Put(Put(ip, 0, g), |g|, h); r[..|g|] == g && r[|g|..|g| + |h|] == h
  {
  }

  lemma PutNone(ip: seq<group>, i: nat)
    requires i <= |ip|
    ensures Put(ip, i, []) == ip
  {
  }

  lemma {:induction false} DigitsOfHex(s: string, rest: string, most: nat)
    requires |s| <= most && (forall x :: x in s ==> IsHex(x)) && (rest == [] || !IsHex(rest[0]) || |s| == most)
    ensures HexDigits(s + rest, most) == |s| && (s + rest)[..|s|] == s
    decreases |s|
  {
    if s == [] {
      assert s + rest == rest;
    } else {
      DigitsOfHex(s[1..], rest, most - 1);
      TailOfConcat(s, rest);
    }
  }

  /** A printed group at the front of the text. */
  lemma GroupInFront(n: group, rest: string)
    requires rest == [] || rest[0] == ':' || rest[0] == '.'
    ensures var s := Hex(n) + rest; var j := |Hex(n)|;
      && At(s, 0) != ':' && HexDigits(s, 4) == j > 0 && GroupValue(s[..j]) == n && At(s, j) == At(rest, 0)
      && s[j..] == rest
  {
    GroupPrinted(n);
    var t := Hex(n);
    DigitsOfHex(t, rest, 4);
    assert (t + rest)[0] == t[0] && t[0] in t;
  }

  lemma ReadGroup(n: group, rest: string, i: nat, brk: int, ip: seq<group>)
    requires i < 7 && brk < i && |ip| == 8
    ensures ParseGroups(Hex(n) + (":" + rest), i, brk, ip) == ParseGroups(rest, i + 1, brk, ip[i := n])
  {
    GroupInFront(n, ":" + rest);
    var s, j := Hex(n) + (":" + rest), |Hex(n)|;
    assert s[j + 1..] == (":" + rest)[1..] == rest;
  }

  lemma ReadLastGroup(n: group, i: nat, brk: int, ip: seq<group>)
    requires i < 8 && brk < i && |ip| == 8 && (brk >= 0 || i == 7)
    ensures ParseGroups(Hex(n), i, brk, ip) == Groups(i, brk, ip[i := n], None)
  {
    GroupInFront(n, "");
    assert Hex(n) + "" == Hex(n);
  }

  lemma {:induction false} ReadBefore(g: seq<group>, rest: string, i: nat, brk: int, ip: seq<group>)
    requires i + |g| <= 7 && brk < i && |ip| == 8
    ensures ParseGroups(Before(g, rest), i, brk, ip) == ParseGroups(rest, i + |g|, brk, Put(ip, i, g))
    decreases |g|
  {
    if g == [] {
      PutNone(ip, i);
    } else {
      ReadGroup(g[0], Before(g[1..], rest), i, brk, ip);
      ReadBefore(g[1..], rest, i + 1, brk, ip[i := g[0]]);
      PutCons(ip, i, g[0], g[1..]);
      assert [g[0]] + g[1..] == g;
    }
  }

  lemma ReadJoined(g: seq<group>, i: nat, brk: int, ip: seq<group>)
    requires g != [] && i + |g| <= 8 && brk < i && |ip| == 8 && (brk >= 0 || i + |g| == 8)
    ensures ParseGroups(Joined(g), i, brk, ip) == Groups(i + |g| - 1, brk, Put(ip, i, g), None)
  {
    var last := |g| - 1;
    ReadBefore(g[..last], Hex(g[last]), i, brk, ip);
    ReadLastGroup(g[last], i + last, brk, Put(ip, i, g[..last]));
    PutSnoc(ip, i, g[..last], g[last]);
    assert g[..last] + [g[last]] == g;
  }

  /** All eight groups in full. */
  lemma ReadFull(g: seq<group>, junk: seq<group>)
    requires |g| == 8 && |junk| == 8
    ensures Parse6(Joined(g), junk) == Some(OctetsOf(g))
  {
    ReadJoined(g, 0, -1, junk);
    assert Put(junk, 0, g) == g;
    GroupInFront(g[0], ":" + Before(g[..7][1..], Hex(g[7])));
    assert g[..7][0] == g[0];
  }

  /** The text with "::" for the groups from p on, z of them. */
  function Abbreviated(g: seq<group>, p: nat, z: nat): string
    requires p + z <= |g|
  {
    if p == 0 then ":" + (":" + Joined(g[z..])) else Before(g[..p], ":" + Joined(g[p + z..]))
  }

  lemma ReadColon(rest: string, p: nat, ip: seq<group>)
    requires p < 7 && |ip| == 8 && (rest != "" ==> IsHex(rest[0]))
    ensures ParseGroups(":" + rest, p, -1, ip)
         == if rest == "" then Groups(p, p, ip[p := 0], None) else ParseGroups(rest, p + 1, p, ip[p := 0])
  {
    var s := ":" + rest;
    assert s[1..] == rest;
    assert At(s, 1) == At(rest, 0);
  }

  /** What is read of "::" and the groups behind it. */
  lemma ReadBreak(h: seq<group>, p: nat, ip: seq<group>)
    requires p + |h| <= 6 && |ip| == 8
    ensures ParseGroups(":" + Joined(h), p, -1, ip) == Groups(p + |h|, p, Put(ip, p, [0] + h), None)
  {
    PutCons(ip, p, 0, h);
    if h == [] {
      ReadColon("", p, ip);
      PutNone(ip[p := 0], p + 1);
    } else {
      JoinedStarts(h);
      ReadColon(Joined(h), p, ip);
      ReadJoined(h, p + 1, p, ip[p := 0]);
    }
  }

  lemma JoinedStarts(h: seq<group>)
    requires h != []
    ensures Joined(h) != "" && IsHex(Joined(h)[0])
  {
    GroupPrinted(h[0]);
    var t := Hex(h[0]);
    assert t[0] in t;
    var last := |h| - 1;
    if last > 0 {
      assert h[..last][0] == h[0];
    }
  }

  /** Any run of two or more zero groups may be abbreviated. */
  lemma ReadAbbreviated(g: seq<group>, p: nat, z: nat, junk: seq<group>)
    requires |g| == 8 && |junk| == 8 && z >= 2 && p + z <= 8 && g[p..p + z] == ZeroGroups(z)
    ensures Parse6(Abbreviated(g, p, z), junk) == Some(OctetsOf(g))
  {
    if p == 0 {
      ReadAbbreviatedStart(g, z, junk);
    } else {
      ReadAbbreviatedLater(g, p, z, junk);
    }
  }

  lemma ReadAbbreviatedStart(g: seq<group>, z: nat, junk: seq<group>)
    requires |g| == 8 && |junk| == 8 && 2 <= z <= 8 && g[..z] == ZeroGroups(z)
    ensures Parse6(Abbreviated(g, 0, z), junk) == Some(OctetsOf(g))
  {
    var h := g[z..];
    assert Abbreviated(g, 0, z)[1..] == ":" + Joined(h);
    ReadBreak(h, 0, junk);
    assert g[0..0 + z] == g[..z];
    SpreadBack(g, 0, z, Put(junk, 0, [0] + h));
  }

  lemma ReadAbbreviatedLater(g: seq<group>, p: nat, z: nat, junk: seq<group>)
    requires |g| == 8 && |junk| == 8 && p > 0 && z >= 2 && p + z <= 8 && g[p..p + z] == ZeroGroups(z)
    ensures Parse6(Abbreviated(g, p, z), junk) == Some(OctetsOf(g))
  {
    var h := g[p + z..];
    var rest := ":" + Joined(h);
    ReadBefore(g[..p], rest, 0, -1, junk);
    ReadBreak(h, p, Put(junk, 0, g[..p]));
    PutTwice(junk, g[..p], [0] + h);
    SpreadBack(g, p, z, Put(Put(junk, 0, g[..p]), p, [0] + h));
    StartsWithGroup(g[..p], rest);
  }

  lemma StartsWithGroup(g: seq<group>, rest: string)
    requires g != []
    ensures At(Before(g, rest), 0) != ':'
  {
    GroupInFront(g[0], ":" + Before(g[1..], rest));
  }

  lemma SpreadBack(g: seq<group>, p: nat, z: nat, ip: seq<group>)
    requires |g| == 8 && |ip| == 8 && z >= 2 && p + z <= 8 && g[p..p + z] == ZeroGroups(z)
    requires ip[..p] == g[..p] && ip[p..8 - z + 1] == [0] + g[p + z..]
    ensures Spread(8 - z, p, ip) == g
  {
    var m := 8 - p - z;
    assert g == g[..p] + g[p..p + z] + g[p + z..];
    assert ZeroGroups(z) == ZeroGroups(z - 1) + [0];
  }

  const MAPPED: seq<byte> := [0, 0, 0, 0, 0, 0, 0, 0, 0, 0, 255, 255]

  /** The mapped form. */
  lemma ReadMapped(a: seq<byte>, junk: seq<group>)
    requires |a| == 16 && |junk| == 8 && a[..12] == MAPPED
    ensures Parse6("::ffff:" + Dotted(a[12..]), junk) == Some(a)
  {
    var v4 := a[12..];
    TailOfConcat("::ffff:", Dotted(v4));
    assert "::ffff:"[1..] == ":ffff:";
    var n := ReadMappedGroups(v4, junk);
    FinishMapped(v4, junk[0 := 0][1 := 0xffff][2 := n]);
    TakeAndDrop(a, 12);
  }

  lemma FinishMapped(v4: seq<byte>, ip: seq<group>)
    requires |v4| == 4 && |ip| == 8 && ip[0] == 0 && ip[1] == 0xffff
    ensures Finish(Groups(3, 0, ip, Some(Dotted(v4)))) == Some(MAPPED + v4)
  {
    RoundTrip4(v4);
    MappedOctets(ip);
  }

  lemma ReadMappedGroups(v4: seq<byte>, junk: seq<group>) returns (n: group)
    requires |v4| == 4 && |junk| == 8
    ensures ParseGroups(":ffff:" + Dotted(v4), 0, -1, junk)
         == Groups(3, 0, junk[0 := 0][1 := 0xffff][2 := n], Some(Dotted(v4)))
  {
    ReadMappedStart(Dotted(v4), junk);
    n := ReadDotted(v4, 2, 0, junk[0 := 0][1 := 0xffff]);
  }

  lemma ReadMappedStart(rest: string, junk: seq<group>)
    requires |junk| == 8
    ensures ParseGroups(":ffff:" + rest, 0, -1, junk) == ParseGroups(rest, 2, 0, junk[0 := 0][1 := 0xffff])
  {
    ConcatAssociative(":", "ffff:", rest);
    assert ":" + "ffff:" == ":ffff:";
    ReadColon("ffff:" + rest, 0, junk);
    MappedPrefix(rest);
    ReadGroup(0xffff, rest, 1, 0, junk[0 := 0]);
  }

  lemma MappedOctets(ip: seq<group>)
    requires |ip| == 8 && ip[0] == 0 && ip[1] == 0xffff
    ensures OctetsOf(Spread(3, 0, ip))[..12] == MAPPED
  {
    var g := Spread(3, 0, ip);
    assert g[0] == 0 && g[1] == 0 && g[2] == 0 && g[3] == 0 && g[4] == 0 && g[5] == 0xffff;
    var octets := OctetsOf(g)[..12];
    forall k | 0 <= k < 12 ensures octets[k] == MAPPED[k] {
      assert octets[k] == if k % 2 == 0 then g[k / 2] / 256 else g[k / 2] % 256;
    }
  }

  lemma MappedPrefix(rest: string)
    ensures "ffff:" + rest == Hex(0xffff) + (":" + rest)
  {
    assert Hex(0xfff) == Hex(0xff) + ['f'];
    assert Hex(0xffff) == "ffff";
    assert "ffff:" == "ffff" + ":";
  }

  /** A dotted address at the end is left to the other parser. */
  lemma ReadDotted(v4: seq<byte>, i: nat, brk: int, ip: seq<group>) returns (n: group)
    requires |v4| == 4 && i < 7 && 0 <= brk < i && |ip| == 8
    ensures ParseGroups(Dotted(v4), i, brk, ip) == Groups(i + 1, brk, ip[i := n], Some(Dotted(v4)))
  {
    OctetPrinted(v4[0]);
    var t := Text.Decimal(v4[0]);
    var rest := "." + DottedFrom(v4, 1);
    assert Dotted(v4) == t + rest;
    DigitsAreHex(t);
    DigitsOfHex(t, rest, 4);
    assert (t + rest)[0] == t[0] && t[0] in t;
    n := GroupValue(t);
  }

  lemma DigitsAreHex(t: string)
    requires forall x :: x in t ==> IsDigit(x)
    ensures forall x :: x in t ==> IsHex(x)
  {
  }

  // ---- IPv6: printing ----

  function GroupsOf(a: seq<byte>): (g: seq<group>)
    requires |a| == 16
    ensures |g| == 8
  {
    seq(8, k requires 0 <= k < 8 => 256 * a[2 * k] as int + a[2 * k + 1])
  }

  lemma OctetsOfGroups(a: seq<byte>)
    requires |a| == 16
    ensures OctetsOf(GroupsOf(a)) == a
  {
    var g := GroupsOf(a);
    forall k | 0 <= k < 16 ensures OctetsOf(g)[k] == a[k] {
      assert g[k / 2] == 256 * a[2 * (k / 2)] as int + a[2 * (k / 2) + 1];
    }
  }

  /** All eight groups, or six groups and a dotted address for the mapped form. */
  function Full(a: seq<byte>): string
    requires |a| == 16
  {
    if a[..12] == MAPPED then Before([0, 0, 0, 0, 0, 0xffff], Dotted(a[12..])) else Joined(GroupsOf(a))
  }

  /** How many of the first characters are colons or zeros. */
  function Span(s: string): (j: nat)
    ensures j <= |s|
  {
    if s != [] && (s[0] == ':' || s[0] == '0') then 1 + Span(s[1..]) else 0
  }

  predicate Candidate(buf: string, i: nat) { i < |buf| && (i == 0 || buf[i] == ':') }

  function SpanAt(buf: string, i: nat): nat
    requires i <= |buf|
  {
    Span(buf[i..])
  }

  function Cut(buf: string, i: nat): string
    requires i <= |buf|
  {
    buf[..i] + (":" + (":" + buf[i + SpanAt(buf, i)..]))
  }

  ghost predicate NoneAbove(buf: string, most: nat) {
    forall i: nat :: Candidate(buf, i) ==> SpanAt(buf, i) <= most
  }

  /** The text with its longest run of zero groups, the first of those, abbreviated if it is long enough. */
  ghost predicate Shortens(buf: string, text: string) {
    || (text == buf && NoneAbove(buf, 3))
    || exists i: nat :: IsLongest(buf, i) && SpanAt(buf, i) > 3 && text == Cut(buf, i)
  }

  ghost predicate IsLongest(buf: string, best: nat) {
    && Candidate(buf, best) && NoneAbove(buf, SpanAt(buf, best))
    && forall i: nat :: i < best && Candidate(buf, i) ==> SpanAt(buf, i) < SpanAt(buf, best)
  }

  // ---- Runs in the text are runs of groups ----

  function ZeroRun(h: seq<group>): (z: nat)
    ensures z <= |h| && h[..z] == ZeroGroups(z)
  {
    if h != [] && h[0] == 0 then
      assert h == [0] + h[1..];
      1 + ZeroRun(h[1..])
    else 0
  }

  lemma JoinedCons(h: seq<group>)
    requires |h| > 1
    ensures Joined(h) == Hex(h[0]) + (":" + Joined(h[1..]))
  {
    var last := |h| - 1;
    assert h[..last][1..] == h[1..][..last - 1];
  }

  lemma JoinedOne(h: seq<group>)
    requires |h| == 1
    ensures Joined(h) == Hex(h[0])
  {
  }

  lemma SpanCons(c: char, s: string)
    requires c == ':' || c == '0'
    ensures Span([c] + s) == 1 + Span(s) && ([c] + s)[1 + Span(s)..] == s[Span(s)..]
  {
    assert ([c] + s)[1..] == s;
  }

  /** The run of a text that begins with a colon, and what is behind it. */
  lemma {:induction false} SpanOfColon(h: seq<group>)
    requires h != []
    ensures var s := ":" + Joined(h); var z := ZeroRun(h);
      Span(s) == 2 * z + (if z < |h| then 1 else 0) && s[Span(s)..] == Joined(h[z..])
    decreases |h|
  {
    SpanCons(':', Joined(h));
    SpanOfJoined(h);
    if h[0] == 0 && |h| > 1 {
      SpanOfColon(h[1..]);
    }
  }

  lemma SpanOfJoined(h: seq<group>)
    requires h != []
    ensures var s := Joined(h);
      if h[0] != 0 then Span(s) == 0
      else if |h| == 1 then s == "0" && Span(s) == 1 && s[1..] == ""
      else var t := ":" + Joined(h[1..]); Span(s) == 1 + Span(t) && s[Span(s)..] == t[Span(t)..]
  {
    GroupPrinted(h[0]);
    if |h| == 1 {
      JoinedOne(h);
      if h[0] != 0 {
        NotInSpan(Hex(h[0]));
      }
    } else {
      JoinedCons(h);
      if h[0] == 0 {
        SpanCons('0', ":" + Joined(h[1..]));
      } else {
        TailOfConcat(Hex(h[0]), ":" + Joined(h[1..]));
        NotInSpan(Joined(h));
        assert Joined(h)[0] == Hex(h[0])[0] && Hex(h[0])[0] in Hex(h[0]);
      }
    }
  }

  lemma NotInSpan(s: string)
    requires s != [] && s[0] != '0' && IsHex(s[0])
    ensures Span(s) == 0
  {
  }

  lemma SpanOfStart(h: seq<group>)
    requires h != []
    ensures var s := Joined(h); var z := ZeroRun(h);
      && Span(s) <= 2 * z && (z > 0 ==> s[Span(s)..] == Joined(h[z..]))
      && (z == |h| ==> Span(s) < 2 * z)
  {
    SpanOfJoined(h);
    if h[0] == 0 && |h| > 1 {
      SpanOfColon(h[1..]);
    }
  }

  /** Printed groups with a colon behind each. */
  function Heads(g: seq<group>): string {
    if g == [] then "" else Hex(g[0]) + (":" + Heads(g[1..]))
  }

  lemma {:induction false} BeforeIsHeads(g: seq<group>, x: string)
    ensures Before(g, x) == Heads(g) + x
    decreases |g|
  {
    if g == [] {
      assert Heads(g) + x == x;
    } else {
      BeforeIsHeads(g[1..], x);
      ConcatAssociative(":", Heads(g[1..]), x);
      ConcatAssociative(Hex(g[0]), ":" + Heads(g[1..]), x);
    }
  }

  /** A text up to an index, and behind it. */
  datatype Parts = Parts(head: string, tail: string)

  function PartsAt(s: string, i: nat): Parts
    requires i < |s|
  {
    Parts(s[..i + 1], s[i + 1..])
  }

  lemma PartsFirst(t: string, rest: string)
    ensures PartsAt(t + (":" + rest), |t|) == Parts(t + (":" + ""), rest)
  {
  }

  lemma PartsLater(all: string, t: string, rest: string, k: nat, r: Parts)
    requires all == t + (":" + rest) && k < |rest| && PartsAt(rest, k) == r
    ensures |t| + 1 + k < |all| && PartsAt(all, |t| + 1 + k) == Parts(t + (":" + r.head), r.tail)
  {
  }

  /** The text splits at this colon, in front of group p. */
  ghost predicate SplitsAt(g: seq<group>, i: nat, p: nat) {
    0 < p < |g| && i < |Joined(g)| && PartsAt(Joined(g), i) == Parts(Heads(g[..p]), Joined(g[p..]))
  }

  lemma SplitsFirst(g: seq<group>, i: nat)
    requires |g| > 1 && i == |Hex(g[0])|
    ensures SplitsAt(g, i, 1)
  {
    JoinedCons(g);
    HeadsCons(g, 0);
    assert g[1..][..0] == [];
    PartsFirst(Hex(g[0]), Joined(g[1..]));
  }

  lemma SplitsLater(g: seq<group>, i: nat, k: nat, q: nat)
    requires |g| > 1 && i == |Hex(g[0])| + 1 + k && SplitsAt(g[1..], k, q)
    ensures SplitsAt(g, i, q + 1)
  {
    JoinedCons(g);
    HeadsCons(g, q);
    RestOfRest(g, 1, q);
    PartsLater(Joined(g), Hex(g[0]), Joined(g[1..]), k, Parts(Heads(g[1..][..q]), Joined(g[1..][q..])));
  }

  lemma HeadsCons(g: seq<group>, q: nat)
    requires q < |g|
    ensures Heads(g[..q + 1]) == Hex(g[0]) + (":" + Heads(g[1..][..q]))
  {
    assert g[..q + 1][1..] == g[1..][..q];
  }

  lemma NoColonInHex(n: group, i: nat)
    requires i < |Hex(n)|
    ensures Hex(n)[i] != ':'
  {
    GroupPrinted(n);
    assert Hex(n)[i] in Hex(n);
  }

  lemma JoinedAt(g: seq<group>, i: nat)
    requires |g| > 1 && i < |Joined(g)|
    ensures if i < |Hex(g[0])| then Joined(g)[i] == Hex(g[0])[i]
            else if i == |Hex(g[0])| then Joined(g)[i] == ':'
            else i - |Hex(g[0])| - 1 < |Joined(g[1..])| && Joined(g)[i] == Joined(g[1..])[i - |Hex(g[0])| - 1]
  {
    JoinedCons(g);
  }

  /** A colon is behind the first group, or in the text of the others. */
  lemma ColonBehind(g: seq<group>, i: nat)
    requires |g| > 1 && i < |Joined(g)| && Joined(g)[i] == ':'
    ensures var k := i - |Hex(g[0])|;
      k >= 0 && (k > 0 ==> k - 1 < |Joined(g[1..])| && Joined(g[1..])[k - 1] == ':')
  {
    JoinedAt(g, i);
    if i < |Hex(g[0])| {
      NoColonInHex(g[0], i);
    }
  }

  /** Where a colon is in the text: between two groups. */
  lemma {:induction false} ColonPosition(g: seq<group>, i: nat) returns (p: nat)
    requires g != [] && i < |Joined(g)| && Joined(g)[i] == ':'
    ensures SplitsAt(g, i, p)
    decreases |g|
  {
    if |g| == 1 {
      JoinedOne(g);
      NoColonInHex(g[0], i);
    } else {
      ColonBehind(g, i);
      var k := i - |Hex(g[0])|;
      if k == 0 {
        p := 1;
        SplitsFirst(g, i);
      } else {
        var q := ColonPosition(g[1..], k - 1);
        p := q + 1;
        SplitsLater(g, i, k - 1, q);
      }
    }
  }

  /** Cutting out a long enough run leaves an abbreviation of at least two zero groups. */
  lemma CutAbbreviates(g: seq<group>, i: nat) returns (p: nat, z: nat)
    requires g != [] && Candidate(Joined(g), i) && SpanAt(Joined(g), i) > 3
    ensures z >= 2 && p + z <= |g| && g[p..p + z] == ZeroGroups(z) && Cut(Joined(g), i) == Abbreviated(g, p, z)
  {
    if i == 0 {
      p, z := 0, ZeroRun(g);
      CutAtStart(g);
      assert g[0..0 + z] == g[..z];
    } else {
      p := ColonPosition(g, i);
      z := ZeroRun(g[p..]);
      CutAtColon(g, i, p);
    }
  }

  lemma CutAtStart(g: seq<group>)
    requires g != [] && SpanAt(Joined(g), 0) > 3
    ensures ZeroRun(g) >= 2 && Cut(Joined(g), 0) == Abbreviated(g, 0, ZeroRun(g))
  {
    var s := Joined(g);
    SpanOfStart(g);
    assert s[0..] == s;
    var tail := ":" + (":" + Joined(g[ZeroRun(g)..]));
    assert s[..0] + tail == tail;
  }

  /** Cutting a run out of a text that splits. */
  lemma CutBehind(s: string, i: nat, left: string)
    requires i < |s| && s[i] == ':' && s[i + SpanAt(s, i)..] == left
    ensures Cut(s, i) == PartsAt(s, i).head + (":" + left)
  {
    assert s[..i + 1] == s[..i] + ":";
    ConcatAssociative(s[..i], ":", ":" + left);
  }

  lemma CutAtColon(g: seq<group>, i: nat, p: nat)
    requires SplitsAt(g, i, p) && Joined(g)[i] == ':' && SpanAt(Joined(g), i) > 3
    ensures var z := ZeroRun(g[p..]);
      z >= 2 && p + z <= |g| && g[p..p + z] == ZeroGroups(z) && Cut(Joined(g), i) == Abbreviated(g, p, z)
  {
    var z := ZeroRun(g[p..]);
    SpanOfColon(g[p..]);
    DropTwice(g, p, z);
    RunBehindColon(g, i, p, z);
    BeforeIsHeads(g[..p], ":" + Joined(g[p + z..]));
  }

  lemma RunBehindColon(g: seq<group>, i: nat, p: nat, z: nat)
    requires SplitsAt(g, i, p) && Joined(g)[i] == ':' && z == ZeroRun(g[p..]) && p + z <= |g|
    ensures SpanAt(Joined(g), i) == Span(":" + Joined(g[p..]))
    ensures Cut(Joined(g), i) == Heads(g[..p]) + (":" + Joined(g[p + z..]))
  {
    var s := Joined(g);
    assert s[i..] == ":" + PartsAt(s, i).tail;
    SpanOfColon(g[p..]);
    DropTwice(s, i, SpanAt(s, i));
    DropTwice(g, p, z);
    CutBehind(s, i, Joined(g[p + z..]));
  }

  lemma DropTwice<T>(s: seq<T>, i: nat, j: nat)
    requires i + j <= |s|
    ensures s[i..][j..] == s[i + j..] && s[i..][..j] == s[i..i + j]
  {
  }

  // ---- The mapped form ----

  lemma {:induction false} SpanStops(s: string, k: nat)
    requires k < |s| && s[k] != ':' && s[k] != '0'
    ensures Span(s) <= k
    decreases k
  {
    if k > 0 {
      SpanStops(s[1..], k - 1);
    }
  }

  lemma {:induction false} SpanReaches(s: string, k: nat)
    requires k <= |s| && forall i :: 0 <= i < k ==> s[i] == ':' || s[i] == '0'
    ensures Span(s) >= k
    decreases k
  {
    if k > 0 {
      SpanReaches(s[1..], k - 1);
    }
  }

  const MAPPED_PREFIX := "0:0:0:0:0:ffff:"

  lemma ZeroInFront(g: seq<group>, d: string)
    ensures Before([0] + g, d) == "0:" + Before(g, d)
  {
    assert ([0] + g)[1..] == g;
    assert Hex(0) == "0";
    ConcatAssociative("0", ":", Before(g, d));
  }

  lemma MappedText(d: string)
    ensures Before([0, 0, 0, 0, 0, 0xffff], d) == MAPPED_PREFIX + d
  {
    MappedPrefix(d);
    assert [0xffff][1..] == [];
    ZeroInFront([0xffff], d);
    ZeroInFront([0, 0xffff], d);
    ZeroInFront([0, 0, 0xffff], d);
    ZeroInFront([0, 0, 0, 0xffff], d);
    ZeroInFront([0, 0, 0, 0, 0xffff], d);
    assert [0] + [0xffff] == [0, 0xffff] && [0] + [0, 0xffff] == [0, 0, 0xffff];
    assert [0] + [0, 0, 0xffff] == [0, 0, 0, 0xffff] && [0] + [0, 0, 0, 0xffff] == [0, 0, 0, 0, 0xffff];
    assert [0] + [0, 0, 0, 0, 0xffff] == [0, 0, 0, 0, 0, 0xffff];
    var s := "ffff:" + d;
    assert "0:" + ("0:" + ("0:" + ("0:" + ("0:" + s)))) == MAPPED_PREFIX + d;
  }

  lemma MappedFrontRun(d: string)
    ensures SpanAt(MAPPED_PREFIX + d, 0) == 10
  {
    var s := MAPPED_PREFIX + d;
    assert s[0..] == s;
    assert forall k :: 0 <= k <= 10 ==> s[k] == MAPPED_PREFIX[k];
    SpanStops(s, 10);
    SpanReaches(s, 10);
  }

  lemma MappedInnerRun(d: string, i: nat)
    requires 0 < i < 10
    ensures SpanAt(MAPPED_PREFIX + d, i) < 10
  {
    var s := MAPPED_PREFIX + d;
    assert s[i..][10 - i] == MAPPED_PREFIX[10];
    SpanStops(s[i..], 10 - i);
  }

  /** The last colon of the prefix is the only one from position 10 on. */
  lemma MappedLastColon(d: string, i: nat)
    requires ':' !in d && 10 <= i < |MAPPED_PREFIX + d| && i != 14
    ensures (MAPPED_PREFIX + d)[i] != ':'
  {
    assert (MAPPED_PREFIX + d)[i] == if i < 15 then MAPPED_PREFIX[i] else d[i - 15];
  }

  lemma MappedLastRun(v4: seq<byte>, i: nat)
    requires |v4| == 4 && 10 <= i && Candidate(MAPPED_PREFIX + Dotted(v4), i)
    ensures SpanAt(MAPPED_PREFIX + Dotted(v4), i) < 10
  {
    NoColonInDotted(v4, 0);
    if i != 14 {
      MappedLastColon(Dotted(v4), i);
    }
    DottedRun(v4);
    assert (MAPPED_PREFIX + Dotted(v4))[14..] == ":" + Dotted(v4);
  }

  /** In the mapped form the run at the front is longest. */
  lemma MappedRuns(v4: seq<byte>, i: nat)
    requires |v4| == 4 && Candidate(MAPPED_PREFIX + Dotted(v4), i)
    ensures if i == 0 then SpanAt(MAPPED_PREFIX + Dotted(v4), i) == 10
            else SpanAt(MAPPED_PREFIX + Dotted(v4), i) < 10
  {
    if i == 0 {
      MappedFrontRun(Dotted(v4));
    } else if i < 10 {
      MappedInnerRun(Dotted(v4), i);
    } else {
      MappedLastRun(v4, i);
    }
  }

  lemma {:induction false} NoColonInDotted(v4: seq<byte>, i: nat)
    requires |v4| == 4 && i < 4
    ensures ':' !in DottedFrom(v4, i)
    decreases 4 - i
  {
    OctetPrinted(v4[i]);
    if i < 3 {
      NoColonInDotted(v4, i + 1);
    }
  }

  lemma DottedRun(v4: seq<byte>)
    requires |v4| == 4
    ensures Span(":" + Dotted(v4)) <= 2
  {
    OctetPrinted(v4[0]);
    var t := Text.Decimal(v4[0]);
    var s := ":" + Dotted(v4);
    if v4[0] == 0 {
      assert s[2] == '.';
      SpanStops(s, 2);
    } else {
      assert t[0] in t;
      assert s[1] == t[0];
      SpanStops(s, 1);
    }
  }

  lemma MappedShortens(v4: seq<byte>, text: string)
    requires |v4| == 4 && Shortens(MAPPED_PREFIX + Dotted(v4), text)
    ensures text == "::ffff:" + Dotted(v4)
  {
    var s := MAPPED_PREFIX + Dotted(v4);
    MappedRuns(v4, 0);
    assert Candidate(s, 0);
    var best: nat :| IsLongest(s, best) && SpanAt(s, best) > 3 && text == Cut(s, best);
    MappedRuns(v4, best);
    assert best == 0;
    assert s[10..] == "ffff:" + Dotted(v4);
  }

  // ---- The round trip ----

  /**
    * Section 2.2 of RFC 4291. Every IPv6 address is read back from its text: in full, with "::" for a run of zero
    * groups at either end or in the middle, and in the dotted form of mapped addresses.
    */
  lemma RoundTrip6(a: seq<byte>, text: string, junk: seq<group>)
    requires |a| == 16 && |junk| == 8 && Shortens(Full(a), text)
    ensures Parse6(text, junk) == Some(a)
  {
    if a[..12] == MAPPED {
      MappedText(Dotted(a[12..]));
      MappedShortens(a[12..], text);
      ReadMapped(a, junk);
    } else {
      var g := GroupsOf(a);
      OctetsOfGroups(a);
      if text == Full(a) {
        ReadFull(g, junk);
      } else {
        var best: nat :| IsLongest(Full(a), best) && SpanAt(Full(a), best) > 3 && text == Cut(Full(a), best);
        var p, z := CutAbbreviates(g, best);
        ReadAbbreviated(g, p, z, junk);
      }
    }
  }

  // ---- What the array held before does not matter ----

  /** Two results that differ at most in groups that were never read. */
  ghost predicate Alike(r: Groups, q: Groups) {
    if r.Malformed? then q.Malformed?
    else
      && q.Groups? && q.i == r.i && q.brk == r.brk && q.v4 == r.v4 && r.i < 8 && |r.ip| == 8 && |q.ip| == 8
      && r.ip[..r.i + (if r.v4 == None then 1 else 0)] == q.ip[..r.i + (if r.v4 == None then 1 else 0)]
  }

  lemma SetBoth(ip: seq<group>, jp: seq<group>, i: nat, n: group)
    requires |ip| == 8 && |jp| == 8 && i < 8 && ip[..i] == jp[..i]
    ensures ip[i := n][..i + 1] == jp[i := n][..i + 1]
  {
  }

  lemma {:induction false} GroupsAlike(s: string, i: nat, brk: int, ip: seq<group>, jp: seq<group>)
    requires i < 8 && brk < i && |ip| == 8 && |jp| == 8 && ip[..i] == jp[..i]
    ensures Alike(ParseGroups(s, i, brk, ip), ParseGroups(s, i, brk, jp))
    decreases |s|
  {
    if At(s, 0) == ':' && brk < 0 {
      SetBoth(ip, jp, i, 0);
      if At(s, 1) != '\0' && i < 7 {
        GroupsAlike(s[1..], i + 1, i, ip[i := 0], jp[i := 0]);
      }
    } else {
      var j := HexDigits(s, 4);
      if j > 0 {
        var n := GroupValue(s[..j]);
        SetBoth(ip, jp, i, n);
        if i < 7 && At(s, j) == ':' {
          GroupsAlike(s[j + 1..], i + 1, brk, ip[i := n], jp[i := n]);
        }
      }
    }
  }

  lemma SpreadAlike(i: nat, brk: int, ip: seq<group>, jp: seq<group>, k: nat)
    requires i < 8 && brk <= i && |ip| == 8 && |jp| == 8 && (brk < 0 ==> i == 7)
    requires i <= k <= i + 1 && ip[..k] == jp[..k] && (brk == i ==> k == i + 1)
    ensures Spread(i, brk, ip)[..7 - i + k] == Spread(i, brk, jp)[..7 - i + k]
  {
    if brk >= 0 {
      assert ip[..brk] == ip[..k][..brk] && jp[..brk] == jp[..k][..brk];
      assert ip[brk..k] == ip[..k][brk..] && jp[brk..k] == jp[..k][brk..];
      assert Spread(i, brk, ip)[..7 - i + k] == ip[..brk] + ZeroGroups(7 - i) + ip[brk..k];
      assert Spread(i, brk, jp)[..7 - i + k] == jp[..brk] + ZeroGroups(7 - i) + jp[brk..k];
    }
  }

  lemma OctetsAlike(g: seq<group>, h: seq<group>, k: nat)
    requires |g| == 8 && |h| == 8 && k <= 8 && g[..k] == h[..k]
    ensures OctetsOf(g)[..2 * k] == OctetsOf(h)[..2 * k]
  {
    forall j | 0 <= j < 2 * k ensures OctetsOf(g)[j] == OctetsOf(h)[j] {
      assert g[j / 2] == g[..k][j / 2] && h[j / 2] == h[..k][j / 2];
    }
  }

  lemma FinishAlike(r: Groups, q: Groups)
    requires Alike(r, q)
    requires r.Groups? ==> r.brk <= r.i && (r.brk < 0 ==> r.i == 7) && (r.v4.Some? ==> r.i > 0 && r.brk < r.i)
    ensures Finish(r) == Finish(q)
  {
    if r.Groups? {
      var k := r.i + if r.v4 == None then 1 else 0;
      var g, h := Spread(r.i, r.brk, r.ip), Spread(r.i, r.brk, q.ip);
      SpreadAlike(r.i, r.brk, r.ip, q.ip, k);
      OctetsAlike(g, h, 7 - r.i + k);
      if r.v4 == None {
        assert OctetsOf(g)[..16] == OctetsOf(g) && OctetsOf(h)[..16] == OctetsOf(h);
      } else {
        assert OctetsOf(g)[..12] == OctetsOf(g)[..14][..12] && OctetsOf(h)[..12] == OctetsOf(h)[..14][..12];
      }
    }
  }

  /** What is read does not depend on what the array held. */
  lemma JunkIsNotRead(s: string, junk: seq<group>, other: seq<group>)
    requires |junk| == 8 && |other| == 8
    ensures Parse6(s, junk) == Parse6(s, other)
  {
    var rest := if At(s, 0) == ':' then s[1..] else s;
    GroupsAlike(rest, 0, -1, junk, other);
    FinishAlike(ParseGroups(rest, 0, -1, junk), ParseGroups(rest, 0, -1, other));
  }

  // ---- The loops ----

  lemma {:induction false} BeforeLength(g: seq<group>, rest: string)
    ensures |Before(g, rest)| <= 5 * |g| + |rest|
    decreases |g|
  {
    if g != [] {
      GroupPrinted(g[0]);
      BeforeLength(g[1..], rest);
    }
  }

  lemma {:induction false} DottedLength(a: seq<byte>, i: nat)
    requires |a| == 4 && i < 4
    ensures |DottedFrom(a, i)| <= 15 - 4 * i
    decreases 4 - i
  {
    OctetPrinted(a[i]);
    if i < 3 {
      DottedLength(a, i + 1);
    }
  }

  /** The text in full fits into 40 octets with its end mark, so the 100 there are for it are never cut off. */
  lemma FullLength(a: seq<byte>)
    requires |a| == 16
    ensures |Full(a)| <= 39
  {
    if a[..12] == MAPPED {
      DottedLength(a[12..], 0);
      MappedText(Dotted(a[12..]));
    } else {
      var g := GroupsOf(a);
      GroupPrinted(g[7]);
      BeforeLength(g[..7], Hex(g[7]));
    }
  }

  /** Every printed address fits into 46 octets with its end mark. */
  lemma ShortenedLength(a: seq<byte>, text: string)
    requires |a| == 16 && Shortens(Full(a), text)
    ensures |text| <= 39
  {
    FullLength(a);
  }

  /** inet_ntop for IPv4; nothing if the buffer is too small, which one of 16 octets never is. */
  method Ntop4(a: seq<byte>, l: nat) returns (s: Option<string>)
    requires |a| == 4
    ensures s == if |Dotted(a)| < l then Some(Dotted(a)) else None
    ensures l >= 16 ==> s.Some?
  {
    DottedLength(a, 0);
    var buf := Text.Decimal(a[0])
      + ("." + (Text.Decimal(a[1]) + ("." + (Text.Decimal(a[2]) + ("." + Text.Decimal(a[3]))))));
    assert buf == DottedFrom(a, 0) by {
      assert DottedFrom(a, 2) == Text.Decimal(a[2]) + ("." + DottedFrom(a, 3));
      assert DottedFrom(a, 1) == Text.Decimal(a[1]) + ("." + DottedFrom(a, 2));
    }
    s := if |buf| < l then Some(buf) else None;
  }

  ghost predicate LongestSoFar(buf: string, i: nat, best: nat, max: nat) {
    && (forall k: nat :: k < i && Candidate(buf, k) ==> SpanAt(buf, k) <= max)
    && if max == 2 then best == 0
       else
         && max > 2 && best < i && Candidate(buf, best) && SpanAt(buf, best) == max
         && forall k: nat :: k < best && Candidate(buf, k) ==> SpanAt(buf, k) < max
  }

  /** Replaces the longest run by "::". */
  method Shorten(buf: string) returns (text: string)
    ensures Shortens(buf, text)
  {
    var i, best, max := 0, 0, 2;
    while i < |buf|
      invariant 0 <= i <= |buf| && LongestSoFar(buf, i, best, max)
    {
      if i == 0 || buf[i] == ':' {
        var j := Span(buf[i..]);
        if j > max {
          best, max := i, j;
        }
      }
      i := i + 1;
    }
    if max > 3 {
      assert IsLongest(buf, best);
      text := buf[..best] + (":" + (":" + buf[best + max..]));
    } else {
      text := buf;
    }
  }

  /** inet_ntop for IPv6; a buffer of 46 octets is never too small. */
  method Ntop6(a: seq<byte>, l: nat) returns (s: Option<string>)
    requires |a| == 16
    ensures exists text :: Shortens(Full(a), text) && s == if |text| < l then Some(text) else None
    ensures l >= 46 ==> s.Some?
  {
    var buf := Full(a);
    var text := Shorten(buf);
    ShortenedLength(a, text);
    s := if |text| < l then Some(text) else None;
  }

  /** At most three digits from an index on, and their value. */
  method ReadDecimal(s: string, at: nat) returns (j: nat, v: nat)
    requires at <= |s|
    ensures j == Digits(s[at..], 3) && v == DecimalValue(s[at..][..j])
  {
    j, v := 0, 0;
    while j < 3 && IsDigit(At(s, at + j))
      invariant 0 <= j <= 3 && at + j <= |s| && v == DecimalValue(s[at..][..j])
      invariant Digits(s[at..], 3) == j + Digits(s[at + j..], 3 - j)
    {
      assert s[at..][..j + 1][..j] == s[at..][..j];
      assert s[at + j..][1..] == s[at + j + 1..];
      v := 10 * v + (s[at + j] as int - 48);
      j := j + 1;
    }
  }

  /** One turn of the loop, up to the character behind octet i. */
  method ReadOctet(s: string, at: nat, i: nat) returns (o: Octet, next: nat)
    requires at <= |s| && i < 4
    ensures o == FirstOctet(s[at..], i)
    ensures o.OctetBefore? ==> next <= |s| && o.rest == s[next..]
  {
    o, next := NoOctet, at;
    var j, v := ReadDecimal(s, at);
    assert At(s[at..], j) == At(s, at + j);
    if j == 0 || (j > 1 && s[at] == '0') || v > 255 {
      return;
    }
    if At(s, at + j) == '\0' && i == 3 {
      o := LastOctet(v);
    } else if At(s, at + j) == '.' && i < 3 {
      next := at + j + 1;
      RestOfRest(s, at, j + 1);
      o := OctetBefore(v, s[next..]);
    }
  }

  /** inet_pton for IPv4. */
  method Pton4(s: string) returns (r: Option<seq<byte>>)
    ensures r == Parse4(s, 0)
  {
    var a: seq<byte> := [];
    var at, i := 0, 0;
    PrependedNone(Parse4(s, 0));
    assert s[0..] == s;
    ghost var whole := Parse4(s, 0);
    while true
      invariant 0 <= i < 4 && |a| == i && 0 <= at <= |s|
      invariant whole == Prepended(a, Parse4(s[at..], i))
      decreases 4 - i
    {
      var o, next := ReadOctet(s, at, i);
      match o {
        case NoOctet => return None;
        case LastOctet(v) => return Some(a + [v]);
        case OctetBefore(v, rest) =>
          PrependedTwice(a, v, Parse4(rest, i + 1));
          a := a + [v];
          at := next;
          i := i + 1;
      }
    }
  }

  /** At most four hexadecimal digits from an index on, and their value. */
  method ReadHex(s: string, at: nat) returns (j: nat, v: group)
    requires at <= |s|
    ensures j == HexDigits(s[at..], 4) && v == GroupValue(s[at..][..j])
  {
    j := 0;
    var value := 0;
    while j < 4 && Text.HexVal(At(s, at + j)) >= 0
      invariant 0 <= j <= 4 && at + j <= |s| && value == HexValue(s[at..][..j])
      invariant HexDigits(s[at..], 4) == j + HexDigits(s[at + j..], 4 - j)
    {
      assert s[at..][..j + 1][..j] == s[at..][..j];
      assert s[at + j..][1..] == s[at + j + 1..];
      value := 16 * value + Text.HexVal(At(s, at + j));
      j := j + 1;
    }
    v := GroupValue(s[at..][..j]);
    assert v == value;
  }

  /** How one turn of the loop over the groups ends. */
  datatype GroupTurn = Bad | Ended(needV4: bool) | Onward

  /** A colon at the place of a group, for the first time. */
  method TakeBreak(s: string, at: nat, i: nat, ip: array<group>) returns (turn: GroupTurn)
    requires at < |s| && s[at] == ':' && i < 8 && ip.Length == 8
    modifies ip
    ensures forall brk: int :: brk < 0 ==>
      ParseGroups(s[at..], i, brk, old(ip[..])) ==
        match turn
        case Bad => Malformed
        case Ended(_) => Groups(i, i, ip[..], None)
        case Onward => if i < 7 then ParseGroups(s[at + 1..], i + 1, i, ip[..]) else Malformed
    ensures turn.Ended? ==> !turn.needV4
    ensures turn == Onward ==> i < 7
  {
    ghost var rest, before := s[at..], ip[..];
    assert At(rest, 0) == ':' && At(rest, 1) == At(s, at + 1);
    ip[i] := 0;
    assert ip[..] == before[i := 0];
    RestOfRest(s, at, 1);
    turn := if At(s, at + 1) == '\0' then Ended(false) else if i == 7 then Bad else Onward;
  }

  /** A group of digits, and the character behind it. */
  method TakeGroup(s: string, at: nat, i: nat, brk: int, ip: array<group>) returns (turn: GroupTurn, next: nat)
    requires at <= |s| && i < 8 && brk < i && ip.Length == 8 && !(At(s, at) == ':' && brk < 0)
    modifies ip
    ensures at <= next <= |s| && (turn == Onward ==> i < 7 && at < next)
    ensures ParseGroups(s[at..], i, brk, old(ip[..])) ==
      match turn
      case Bad => Malformed
      case Ended(needV4) => if needV4 then Groups(i + 1, brk, ip[..], Some(s[at..])) else Groups(i, brk, ip[..], None)
      case Onward => if i < 7 then ParseGroups(s[next..], i + 1, brk, ip[..]) else Malformed
  {
    ghost var rest, before := s[at..], ip[..];
    assert At(rest, 0) == At(s, at);
    turn, next := Bad, at;
    var j, v := ReadHex(s, at);
    if j == 0 {
      return;
    }
    ip[i] := v;
    assert ip[..] == before[i := v];
    assert At(rest, j) == At(s, at + j);
    assert ParseGroups(rest, i, brk, before) == ParseGroup(rest, i, brk, ip[..], j);
    turn, next := TurnBehind(s, at, i, brk, ip[..], j);
  }

  /** What the character behind a group says. */
  method TurnBehind(s: string, at: nat, i: nat, brk: int, ghost ip: seq<group>, j: nat)
    returns (turn: GroupTurn, next: nat)
    requires at <= |s| && i < 8 && brk < i && |ip| == 8 && 0 < j <= |s| - at
    ensures at <= next <= |s| && (turn == Onward ==> i < 7 && at < next)
    ensures ParseGroup(s[at..], i, brk, ip, j) ==
      match turn
      case Bad => Malformed
      case Ended(needV4) => if needV4 then Groups(i + 1, brk, ip, Some(s[at..])) else Groups(i, brk, ip, None)
      case Onward => if i < 7 then ParseGroups(s[next..], i + 1, brk, ip) else Malformed
  {
    assert At(s[at..], j) == At(s, at + j);
    turn, next := Bad, at;
    if At(s, at + j) == '\0' && (brk >= 0 || i == 7) {
      turn := Ended(false);
    } else if i == 7 {
      turn := Bad;
    } else if At(s, at + j) != ':' {
      if !(At(s, at + j) != '.' || (i < 6 && brk < 0)) {
        turn := Ended(true);
      }
    } else {
      RestOfRest(s, at, j + 1);
      turn, next := Onward, at + j + 1;
    }
  }

  /** The loop over the groups; next is where a dotted address begins. */
  method ReadGroups(s: string, start: nat, ip: array<group>)
    returns (ok: bool, i: nat, brk: int, needV4: bool, next: nat)
    requires start <= |s| && ip.Length == 8
    modifies ip
    ensures next <= |s|
    ensures ParseGroups(s[start..], 0, -1, old(ip[..]))
         == if ok then Groups(i, brk, ip[..], if needV4 then Some(s[next..]) else None) else Malformed
  {
    ghost var whole := ParseGroups(s[start..], 0, -1, ip[..]);
    next, i, brk, needV4 := start, 0, -1, false;
    while true
      invariant next <= |s| && i < 8 && brk < i && !needV4
      invariant whole == ParseGroups(s[next..], i, brk, ip[..])
      decreases |s| - next
    {
      var turn, at := Bad, next;
      if At(s, next) == ':' && brk < 0 {
        turn := TakeBreak(s, next, i, ip);
        brk, at := i, next + 1;
      } else {
        turn, at := TakeGroup(s, next, i, brk, ip);
      }
      match turn {
        case Bad => return false, i, brk, false, next;
        case Ended(dotted) => return true, if dotted then i + 1 else i, brk, dotted, next;
        case Onward =>
          next := at;
          i := i + 1;
      }
    }
  }

  /** One more zero in the gap. */
  lemma ZeroOneMore(moved: seq<group>, brk: nat, j: nat)
    requires brk + j < |moved|
    ensures (moved[..brk] + ZeroGroups(j) + moved[brk + j..])[brk + j := 0]
         == moved[..brk] + ZeroGroups(j + 1) + moved[brk + j + 1..]
  {
  }

  lemma SpreadParts(before: seq<group>, moved: seq<group>, i: nat, brk: nat)
    requires |before| == 8 && i < 8 && brk <= i && moved == before[..brk + 7 - i] + before[brk..i + 1]
    ensures |moved| == 8 && moved == moved[..brk] + ZeroGroups(0) + moved[brk..]
    ensures moved[..brk] + ZeroGroups(7 - i) + moved[brk + (7 - i)..] == Spread(i, brk, before)
  {
    assert moved[..brk] == before[..brk] && moved[brk + (7 - i)..] == before[brk..i + 1];
  }

  /** Moves the groups behind "::" to the end of the array, and fills the gap. */
  method SpreadInPlace(ip: array<group>, i: nat, brk: int)
    requires ip.Length == 8 && i < 8 && brk <= i
    modifies ip
    ensures ip[..] == Spread(i, brk, old(ip[..]))
  {
    if brk >= 0 {
      ghost var before := ip[..];
      forall k | brk <= k <= i {
        ip[k + 7 - i] := ip[k];
      }
      ghost var moved := ip[..];
      assert moved == before[..brk + 7 - i] + before[brk..i + 1];
      SpreadParts(before, moved, i, brk);
      for j := 0 to 7 - i
        invariant ip[..] == moved[..brk] + ZeroGroups(j) + moved[brk + j..]
      {
        ZeroOneMore(moved, brk, j);
        ip[brk + j] := 0;
      }
    }
  }

  method ToOctets(ip: array<group>) returns (a: seq<byte>)
    requires ip.Length == 8
    ensures a == OctetsOf(ip[..])
  {
    a := [];
    for j := 0 to 8
      invariant |a| == 2 * j
      invariant forall k :: 0 <= k < 2 * j ==> a[k] == OctetsOf(ip[..])[k]
    {
      a := a + [ip[j] / 256, ip[j] % 256];
    }
  }

  /** inet_pton for IPv6. */
  method Pton6(s: string) returns (r: Option<seq<byte>>)
    ensures r == Parse6(s, ZeroGroups(8))
  {
    var ip := new group[8];
    JunkIsNotRead(s, ip[..], ZeroGroups(8));
    var start := 0;
    if At(s, 0) == ':' {
      start := 1;
      if At(s, 1) != ':' {
        return None;
      }
    }
    assert s[0..] == s;
    var ok, i, brk, needV4, next := ReadGroups(s, start, ip);
    if !ok {
      return None;
    }
    SpreadInPlace(ip, i, brk);
    var a := ToOctets(ip);
    if needV4 {
      var v4 := Pton4(s[next..]);
      if v4 == None {
        return None;
      }
      a := a[..12] + v4.value;
    }
    return Some(a);
  }
}
