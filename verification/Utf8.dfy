/** The table-driven UTF-8 automaton, and the encoding of section 3 of RFC 3629 it has to recognise. */
module Utf8 {
  import Bits
  import opened Bytes

  const ACCEPT: nat := 0
  const REJECT: nat := 1

  /** utf8d[0..255], sixteen entries a row: the class of each octet. */
  function ByteClassRow(r: nat): (row: seq<nat>)
    requires r < 16
    ensures |row| == 16
  {
    match r
    case 0 => [0, 0, 0, 0, 0, 0, 0, 0, 0, 0, 0, 0, 0, 0, 0, 0]
    case 1 => [0, 0, 0, 0, 0, 0, 0, 0, 0, 0, 0, 0, 0, 0, 0, 0]
    case 2 => [0, 0, 0, 0, 0, 0, 0, 0, 0, 0, 0, 0, 0, 0, 0, 0]
    case 3 => [0, 0, 0, 0, 0, 0, 0, 0, 0, 0, 0, 0, 0, 0, 0, 0]
    case 4 => [0, 0, 0, 0, 0, 0, 0, 0, 0, 0, 0, 0, 0, 0, 0, 0]
    case 5 => [0, 0, 0, 0, 0, 0, 0, 0, 0, 0, 0, 0, 0, 0, 0, 0]
    case 6 => [0, 0, 0, 0, 0, 0, 0, 0, 0, 0, 0, 0, 0, 0, 0, 0]
    case 7 => [0, 0, 0, 0, 0, 0, 0, 0, 0, 0, 0, 0, 0, 0, 0, 0]
    case 8 => [1, 1, 1, 1, 1, 1, 1, 1, 1, 1, 1, 1, 1, 1, 1, 1]
    case 9 => [9, 9, 9, 9, 9, 9, 9, 9, 9, 9, 9, 9, 9, 9, 9, 9]
    case 10 => [7, 7, 7, 7, 7, 7, 7, 7, 7, 7, 7, 7, 7, 7, 7, 7]
    case 11 => [7, 7, 7, 7, 7, 7, 7, 7, 7, 7, 7, 7, 7, 7, 7, 7]
    case 12 => [8, 8, 2, 2, 2, 2, 2, 2, 2, 2, 2, 2, 2, 2, 2, 2]
    case 13 => [2, 2, 2, 2, 2, 2, 2, 2, 2, 2, 2, 2, 2, 2, 2, 2]
    case 14 => [10, 3, 3, 3, 3, 3, 3, 3, 3, 3, 3, 3, 3, 4, 3, 3]
    case _ => [11, 6, 6, 6, 5, 8, 8, 8, 8, 8, 8, 8, 8, 8, 8, 8]
  }

  /** utf8d[256..399], one row a state: the next state for each class. */
  function TransitionRow(r: nat): (row: seq<nat>)
    requires r < 9
    ensures |row| == 16
  {
    match r
    case 0 => [0, 1, 2, 3, 5, 8, 7, 1, 1, 1, 4, 6, 1, 1, 1, 1]
    case 1 => [1, 1, 1, 1, 1, 1, 1, 1, 1, 1, 1, 1, 1, 1, 1, 1]
    case 2 => [1, 0, 1, 1, 1, 1, 1, 0, 1, 0, 1, 1, 1, 1, 1, 1]
    case 3 => [1, 2, 1, 1, 1, 1, 1, 2, 1, 2, 1, 1, 1, 1, 1, 1]
    case 4 => [1, 1, 1, 1, 1, 1, 1, 2, 1, 1, 1, 1, 1, 1, 1, 1]
    case 5 => [1, 2, 1, 1, 1, 1, 1, 1, 1, 2, 1, 1, 1, 1, 1, 1]
    case 6 => [1, 1, 1, 1, 1, 1, 1, 3, 1, 3, 1, 1, 1, 1, 1, 1]
    case 7 => [1, 3, 1, 1, 1, 1, 1, 3, 1, 3, 1, 1, 1, 1, 1, 1]
    case _ => [1, 3, 1, 1, 1, 1, 1, 1, 1, 1, 1, 1, 1, 1, 1, 1]
  }

  function Utf8d(i: nat): nat
    requires i < 400
  {
    if i < 256 then ByteClassRow(i / 16)[i % 16] else TransitionRow(i / 16 - 16)[i % 16]
  }

  /** The octets of each class, as ranges. */
  function ByteClass(b: byte): (c: nat)
    ensures c < 12
  {
    if b < 0x80 then 0
    else if b < 0x90 then 1
    else if b < 0xA0 then 9
    else if b < 0xC0 then 7
    else if b < 0xC2 then 8
    else if b < 0xE0 then 2
    else if b == 0xE0 then 10
    else if b == 0xED then 4
    else if b < 0xF0 then 3
    else if b == 0xF0 then 11
    else if b < 0xF4 then 6
    else if b == 0xF4 then 5
    else 8
  }

  lemma ByteClassTable(b: byte)
    ensures Utf8d(b) == ByteClass(b)
  {
    if b < 0x80 {
      AsciiClasses(b / 16, b % 16);
    } else if b < 0xC0 {
      TailClasses(b / 16, b % 16);
    } else {
      LeadClasses(b / 16, b % 16);
    }
  }

  lemma AsciiClasses(r: nat, j: nat)
    requires r < 8 && j < 16
    ensures ByteClassRow(r)[j] == 0
  {
  }

  lemma TailClasses(r: nat, j: nat)
    requires 8 <= r < 12 && j < 16
    ensures ByteClassRow(r)[j] == ByteClass(16 * r + j)
  {
  }

  lemma LeadClasses(r: nat, j: nat)
    requires 12 <= r < 16 && j < 16
    ensures ByteClassRow(r)[j] == ByteClass(16 * r + j)
  {
  }

  /** The transition relation of the automaton, read off the table. */
  function Transition(state: nat, cls: nat): (next: nat)
    requires state < 9 && cls < 12
    ensures next < 9
  {
    if state == 0 then
      (if cls == 0 then 0 else if cls == 2 then 2 else if cls == 3 then 3 else if cls == 4 then 5
       else if cls == 5 then 8 else if cls == 6 then 7 else if cls == 10 then 4
       else if cls == 11 then 6 else 1)
    else if state == 2 then (if cls == 1 || cls == 7 || cls == 9 then 0 else 1)
    else if state == 3 then (if cls == 1 || cls == 7 || cls == 9 then 2 else 1)
    else if state == 4 then (if cls == 7 then 2 else 1)
    else if state == 5 then (if cls == 1 || cls == 9 then 2 else 1)
    else if state == 6 then (if cls == 7 || cls == 9 then 3 else 1)
    else if state == 7 then (if cls == 1 || cls == 7 || cls == 9 then 3 else 1)
    else if state == 8 then (if cls == 1 then 3 else 1)
    else 1
  }

  lemma TransitionTable(state: nat, cls: nat)
    requires state < 9 && cls < 12
    ensures Utf8d(256 + state * 16 + cls) == Transition(state, cls)
  {
    var i := 256 + state * 16 + cls;
    assert i / 16 - 16 == state && i % 16 == cls;
    if state < 4 {
      EarlyStates(state, cls);
    } else {
      LateStates(state, cls);
    }
  }

  lemma EarlyStates(state: nat, cls: nat)
    requires state < 4 && cls < 12
    ensures TransitionRow(state)[cls] == Transition(state, cls)
  {
  }

  lemma LateStates(state: nat, cls: nat)
    requires 4 <= state < 9 && cls < 12
    ensures TransitionRow(state)[cls] == Transition(state, cls)
  {
  }

  /** The automaton's two variables. The reject state keeps itself. */
  datatype Dfa = Dfa(state: nat, codepoint: nat) {
    ghost predicate Valid() { state < 9 }
  }

  /** The bits of a lead octet that belong to the code point: 0xff >> class of them. */
  function LeadBits(b: byte): nat {
    var cls := ByteClass(b);
    if cls <= 1 then b % 128
    else if cls == 2 then b % 64
    else if cls == 3 then b % 32
    else if cls == 4 then b % 16
    else if cls == 5 then b % 8
    else if cls == 6 then b % 4
    else if cls == 7 then b % 2
    else 0
  }

  /** The automaton's step; DecodeNextByte computes it from the table. */
  function Next(d: Dfa, b: byte): (n: Dfa)
    requires d.Valid()
    ensures n.Valid()
  {
    Dfa(Transition(d.state, ByteClass(b)),
        if d.state != ACCEPT then b % 64 + d.codepoint * 64 % 0x1_0000_0000 else LeadBits(b))
  }

  function Run(d: Dfa, s: seq<byte>): (r: Dfa)
    requires d.Valid()
    ensures r.Valid()
    decreases |s|
  {
    if s == [] then d else Run(Next(d, s[0]), s[1..])
  }

  const START := Dfa(ACCEPT, 0)

  predicate Accepts(s: seq<byte>) {
    Run(START, s).state == ACCEPT
  }

  /** The code points the automaton holds each time it is back in its accept state. */
  function CodePoints(d: Dfa, s: seq<byte>): seq<nat>
    requires d.Valid()
    decreases |s|
  {
    if s == [] then []
    else
      var n := Next(d, s[0]);
      (if n.state == ACCEPT then [n.codepoint] else []) + CodePoints(n, s[1..])
  }

  // ---- Section 3 of RFC 3629 ----

  /** The Unicode scalar values: the code points without the surrogates. */
  type Scalar = v: nat | v < 0xD800 || 0xE000 <= v <= 0x10FFFF

  function Encode(v: Scalar): (s: seq<byte>)
    ensures 1 <= |s| <= 4
  {
    if v < 0x80 then [v]
    else if v < 0x800 then [0xC0 + v / 64, 0x80 + v % 64]
    else if v < 0x10000 then [0xE0 + v / 4096, 0x80 + v / 64 % 64, 0x80 + v % 64]
    else [0xF0 + v / 262144, 0x80 + v / 4096 % 64, 0x80 + v / 64 % 64, 0x80 + v % 64]
  }

  function EncodeAll(vs: seq<Scalar>): seq<byte> {
    if vs == [] then [] else Encode(vs[0]) + EncodeAll(vs[1..])
  }

  // ---- The automaton on one encoded scalar ----

  lemma RunCons(d: Dfa, a: byte, rest: seq<byte>)
    requires d.Valid()
    ensures Run(d, [a] + rest) == Run(Next(d, a), rest)
    ensures CodePoints(d, [a] + rest)
         == (if Next(d, a).state == ACCEPT then [Next(d, a).codepoint] else []) + CodePoints(Next(d, a), rest)
  {
    assert ([a] + rest)[1..] == rest;
  }

  lemma {:induction false} RunConcat(d: Dfa, a: seq<byte>, b: seq<byte>)
    requires d.Valid()
    ensures Run(d, a + b) == Run(Run(d, a), b)
    decreases |a|
  {
    if a == [] {
      assert a + b == b;
    } else {
      RunConcat(Next(d, a[0]), a[1..], b);
      assert a + b == [a[0]] + (a[1..] + b);
      RunCons(d, a[0], a[1..] + b);
    }
  }

  lemma {:induction false} CodePointsConcat(d: Dfa, a: seq<byte>, b: seq<byte>)
    requires d.Valid()
    ensures CodePoints(d, a + b) == CodePoints(d, a) + CodePoints(Run(d, a), b)
    decreases |a|
  {
    if a == [] {
      assert a + b == b;
    } else {
      CodePointsConcat(Next(d, a[0]), a[1..], b);
      assert a + b == [a[0]] + (a[1..] + b);
      RunCons(d, a[0], a[1..] + b);
    }
  }

  /** Appending a tail octet 80..BF adds six bits. */
  lemma TailBits(d: Dfa, t: nat)
    requires d.Valid() && d.state != ACCEPT && t < 64 && d.codepoint < 0x400_0000
    ensures Next(d, 0x80 + t).codepoint == d.codepoint * 64 + t
  {
  }

  /** With k tail octets to go: the state, and the tail octets that carry the low 6k bits of v. */
  lemma RunTail1(d: Dfa, t: nat)
    requires d.state == 2 && t < 64 && d.codepoint < 0x400_0000
    ensures Run(d, [0x80 + t]) == Dfa(ACCEPT, d.codepoint * 64 + t)
    ensures CodePoints(d, [0x80 + t]) == [d.codepoint * 64 + t]
  {
    TailBits(d, t);
    assert [0x80 + t] == [0x80 + t] + [];
    RunCons(d, 0x80 + t, []);
  }

  lemma RunTail2(d: Dfa, t: nat, u: nat)
    requires d.Valid() && d.state != ACCEPT && t < 64 && u < 64 && d.codepoint < 0x1_0000
    requires Transition(d.state, ByteClass(0x80 + t)) == 2
    ensures Run(d, [0x80 + t, 0x80 + u]) == Dfa(ACCEPT, (d.codepoint * 64 + t) * 64 + u)
    ensures CodePoints(d, [0x80 + t, 0x80 + u]) == [(d.codepoint * 64 + t) * 64 + u]
  {
    TailBits(d, t);
    assert [0x80 + t, 0x80 + u] == [0x80 + t] + [0x80 + u];
    RunCons(d, 0x80 + t, [0x80 + u]);
    RunTail1(Next(d, 0x80 + t), u);
  }

  lemma RunTail3(d: Dfa, t: nat, u: nat, w: nat)
    requires d.Valid() && d.state != ACCEPT && t < 64 && u < 64 && w < 64 && d.codepoint < 0x400
    requires Transition(d.state, ByteClass(0x80 + t)) == 3
    ensures Run(d, [0x80 + t, 0x80 + u, 0x80 + w]) == Dfa(ACCEPT, ((d.codepoint * 64 + t) * 64 + u) * 64 + w)
    ensures CodePoints(d, [0x80 + t, 0x80 + u, 0x80 + w]) == [((d.codepoint * 64 + t) * 64 + u) * 64 + w]
  {
    TailBits(d, t);
    assert [0x80 + t, 0x80 + u, 0x80 + w] == [0x80 + t] + [0x80 + u, 0x80 + w];
    RunCons(d, 0x80 + t, [0x80 + u, 0x80 + w]);
    RunTail2(Next(d, 0x80 + t), u, w);
  }

  lemma RunEncoded2(d: Dfa, v: Scalar)
    requires d.state == ACCEPT && 0x80 <= v < 0x800
    ensures Run(d, Encode(v)) == Dfa(ACCEPT, v) && CodePoints(d, Encode(v)) == [v]
  {
    var lead := 0xC0 + v / 64;
    assert Encode(v) == [lead] + [0x80 + v % 64];
    RunCons(d, lead, [0x80 + v % 64]);
    RunTail1(Next(d, lead), v % 64);
  }

  lemma SixBitDigits(v: nat)
    ensures v / 64 * 64 + v % 64 == v
    ensures v / 4096 * 64 + v / 64 % 64 == v / 64
    ensures v / 262144 * 64 + v / 4096 % 64 == v / 4096
  {
  }

  lemma RunEncoded3(d: Dfa, v: Scalar)
    requires d.state == ACCEPT && 0x800 <= v < 0x10000
    ensures Run(d, Encode(v)) == Dfa(ACCEPT, v) && CodePoints(d, Encode(v)) == [v]
  {
    SixBitDigits(v);
    RunThree(d, v / 4096, v / 64 % 64, v % 64);
  }

  lemma LeadOfThree(d: Dfa, x: nat, t: nat)
    requires d.state == ACCEPT && x < 16 && t < 64 && (x == 0 ==> t >= 32) && (x == 13 ==> t < 32)
    ensures var n := Next(d, 0xE0 + x);
      n.state != ACCEPT && n.codepoint == x && Transition(n.state, ByteClass(0x80 + t)) == 2
  {
  }

  lemma LeadOfFour(d: Dfa, x: nat, t: nat)
    requires d.state == ACCEPT && x < 5 && t < 64 && (x == 0 ==> t >= 16) && (x == 4 ==> t < 16)
    ensures var n := Next(d, 0xF0 + x);
      n.state != ACCEPT && n.codepoint == x && Transition(n.state, ByteClass(0x80 + t)) == 3
  {
  }

  lemma RunThree(d: Dfa, x: nat, t: nat, u: nat)
    requires d.state == ACCEPT && x < 16 && t < 64 && u < 64 && (x == 0 ==> t >= 32) && (x == 13 ==> t < 32)
    ensures var s := [0xE0 + x, 0x80 + t, 0x80 + u]; var v := (x * 64 + t) * 64 + u;
      Run(d, s) == Dfa(ACCEPT, v) && CodePoints(d, s) == [v]
  {
    assert [0xE0 + x, 0x80 + t, 0x80 + u] == [0xE0 + x] + [0x80 + t, 0x80 + u];
    RunCons(d, 0xE0 + x, [0x80 + t, 0x80 + u]);
    LeadOfThree(d, x, t);
    RunTail2(Next(d, 0xE0 + x), t, u);
  }

  lemma RunEncoded4(d: Dfa, v: Scalar)
    requires d.state == ACCEPT && 0x10000 <= v
    ensures Run(d, Encode(v)) == Dfa(ACCEPT, v) && CodePoints(d, Encode(v)) == [v]
  {
    SixBitDigits(v);
    RunFour(d, v / 262144, v / 4096 % 64, v / 64 % 64, v % 64);
  }

  lemma RunFour(d: Dfa, x: nat, t: nat, u: nat, w: nat)
    requires d.state == ACCEPT && x < 5 && t < 64 && u < 64 && w < 64 && (x == 0 ==> t >= 16) && (x == 4 ==> t < 16)
    ensures var s := [0xF0 + x, 0x80 + t, 0x80 + u, 0x80 + w]; var v := ((x * 64 + t) * 64 + u) * 64 + w;
      Run(d, s) == Dfa(ACCEPT, v) && CodePoints(d, s) == [v]
  {
    assert [0xF0 + x, 0x80 + t, 0x80 + u, 0x80 + w] == [0xF0 + x] + [0x80 + t, 0x80 + u, 0x80 + w];
    RunCons(d, 0xF0 + x, [0x80 + t, 0x80 + u, 0x80 + w]);
    LeadOfFour(d, x, t);
    RunTail3(Next(d, 0xF0 + x), t, u, w);
  }

  /** From the accept state, an encoded scalar leads back to it with exactly that scalar held. */
  lemma RunEncoded(d: Dfa, v: Scalar)
    requires d.state == ACCEPT
    ensures Run(d, Encode(v)) == Dfa(ACCEPT, v)
    ensures CodePoints(d, Encode(v)) == [v]
  {
    if v < 0x80 {
      assert [v] == [v] + [];
      RunCons(d, v, []);
    } else if v < 0x800 {
      RunEncoded2(d, v);
    } else if v < 0x10000 {
      RunEncoded3(d, v);
    } else {
      RunEncoded4(d, v);
    }
  }

  // ---- Exactness ----

  lemma {:induction false} RunRejected(d: Dfa, s: seq<byte>)
    requires d.state == REJECT
    ensures Run(d, s).state == REJECT
    decreases |s|
  {
    if s != [] {
      RunRejected(Next(d, s[0]), s[1..]);
    }
  }

  /** In a state that is waiting for a tail octet, acceptance forces a tail octet of that state's range. */
  lemma AcceptedTail(d: Dfa, s: seq<byte>)
    requires d.Valid() && d.state >= 2 && Run(d, s).state == ACCEPT
    ensures s != [] && 0x80 <= s[0] < 0xC0
    ensures Run(Next(d, s[0]), s[1..]).state == ACCEPT
    ensures Next(d, s[0]).state == (if d.state == 2 then 0 else if d.state <= 5 then 2 else 3)
    ensures d.state == 4 ==> s[0] >= 0xA0
    ensures d.state == 5 ==> s[0] < 0xA0
    ensures d.state == 6 ==> s[0] >= 0x90
    ensures d.state == 8 ==> s[0] < 0x90
  {
    if Next(d, s[0]).state == REJECT {
      RunRejected(Next(d, s[0]), s[1..]);
    }
  }

  lemma LeadStates(d: Dfa, b: byte)
    requires d.state == ACCEPT
    ensures var n := Next(d, b).state;
      && (n == 0 <==> b < 0x80) && (n == 2 <==> 0xC2 <= b < 0xE0)
      && (n == 4 <==> b == 0xE0) && (n == 5 <==> b == 0xED)
      && (n == 3 <==> 0xE0 < b < 0xF0 && b != 0xED)
      && (n == 6 <==> b == 0xF0) && (n == 7 <==> 0xF0 < b < 0xF4) && (n == 8 <==> b == 0xF4)
  {
  }

  /** Octets in the ranges of the automaton's paths are the encoding of some scalar. */
  function Decode2(a: int, b: int): (v: Scalar)
    requires 0xC2 <= a < 0xE0 && 0x80 <= b < 0xC0
    ensures Encode(v) == [a, b]
  {
    (a - 0xC0) * 64 + (b - 0x80)
  }

  lemma SixBitAppend(q: nat, r: nat)
    requires r < 64
    ensures (q * 64 + r) / 64 == q && (q * 64 + r) % 64 == r
    ensures (q * 64 + r) / 4096 == q / 64 && (q * 64 + r) / 262144 == q / 4096
  {
  }

  function Decode3(a: int, b: int, c: int): (v: Scalar)
    requires 0xE0 <= a < 0xF0 && 0x80 <= b < 0xC0 && 0x80 <= c < 0xC0
    requires (a == 0xE0 ==> b >= 0xA0) && (a == 0xED ==> b < 0xA0)
    ensures Encode(v) == [a, b, c]
  {
    var x, t, w := a - 0xE0, b - 0x80, c - 0x80;
    var q := x * 64 + t;
    SixBitAppend(x, t);
    SixBitAppend(q, w);
    q * 64 + w
  }

  function Decode4(a: int, b: int, c: int, e: int): (v: Scalar)
    requires 0xF0 <= a < 0xF5 && 0x80 <= b < 0xC0 && 0x80 <= c < 0xC0 && 0x80 <= e < 0xC0
    requires (a == 0xF0 ==> b >= 0x90) && (a == 0xF4 ==> b < 0x90)
    ensures Encode(v) == [a, b, c, e]
  {
    var x, t, u, w := a - 0xF0, b - 0x80, c - 0x80, e - 0x80;
    var q1 := x * 64 + t;
    var q2 := q1 * 64 + u;
    SixBitAppend(x, t);
    SixBitAppend(q1, u);
    SixBitAppend(q2, w);
    q2 * 64 + w
  }

  /** An accepted string that is not empty begins with an encoded scalar, and the rest is accepted. */
  lemma AcceptedHead(d: Dfa, s: seq<byte>) returns (v: Scalar)
    requires d.state == ACCEPT && s != [] && Run(d, s).state == ACCEPT
    ensures Encode(v) <= s && Run(Dfa(ACCEPT, v), s[|Encode(v)|..]).state == ACCEPT
  {
    var d1 := Next(d, s[0]);
    var r := s[1..];
    LeadStates(d, s[0]);
    if d1.state == REJECT {
      RunRejected(d1, r);
    }
    if d1.state == ACCEPT {
      v := s[0];
    } else {
      AcceptedTail(d1, r);
      v := AcceptedLong(d1, s[0], r);
      assert s == [s[0]] + r;
    }
    AcceptedRest(d, s, v);
  }

  lemma AcceptedLong(d1: Dfa, lead: byte, r: seq<byte>) returns (v: Scalar)
    requires d1.Valid() && d1.state >= 2 && Run(d1, r).state == ACCEPT
    requires d1.state == Next(START, lead).state
    ensures Encode(v) <= [lead] + r
  {
    LeadStates(START, lead);
    AcceptedTail(d1, r);
    if d1.state == 2 {
      v := Decode2(lead, r[0]);
    } else {
      var d2, r2 := Next(d1, r[0]), r[1..];
      AcceptedTail(d2, r2);
      if d1.state <= 5 {
        v := Decode3(lead, r[0], r2[0]);
      } else {
        var r3 := r2[1..];
        AcceptedTail(Next(d2, r2[0]), r3);
        v := Decode4(lead, r[0], r2[0], r3[0]);
      }
    }
  }

  lemma AcceptedRest(d: Dfa, s: seq<byte>, v: Scalar)
    requires d.state == ACCEPT && Encode(v) <= s && Run(d, s).state == ACCEPT
    ensures Run(Dfa(ACCEPT, v), s[|Encode(v)|..]).state == ACCEPT
  {
    var n := |Encode(v)|;
    assert s == Encode(v) + s[n..];
    RunConcat(d, Encode(v), s[n..]);
    RunEncoded(d, v);
  }

  /**
    * The automaton is exact: it accepts a string if and only if the string is a concatenation of
    * encoded scalar values, and the code points it held on the way are those scalars.
    */
  lemma {:induction false} AcceptedIsEncoded(d: Dfa, s: seq<byte>) returns (vs: seq<Scalar>)
    requires d.state == ACCEPT && Run(d, s).state == ACCEPT
    ensures s == EncodeAll(vs)
    decreases |s|
  {
    if s == [] {
      vs := [];
    } else {
      var v := AcceptedHead(d, s);
      var n := |Encode(v)|;
      var rest := AcceptedIsEncoded(Dfa(ACCEPT, v), s[n..]);
      vs := [v] + rest;
      assert vs[1..] == rest && s == Encode(v) + s[n..];
    }
  }

  lemma {:induction false} EncodedIsAccepted(d: Dfa, vs: seq<Scalar>)
    requires d.state == ACCEPT
    ensures Run(d, EncodeAll(vs)).state == ACCEPT
    ensures CodePoints(d, EncodeAll(vs)) == vs
    decreases |vs|
  {
    if vs != [] {
      RunEncoded(d, vs[0]);
      RunConcat(d, Encode(vs[0]), EncodeAll(vs[1..]));
      CodePointsConcat(d, Encode(vs[0]), EncodeAll(vs[1..]));
      EncodedIsAccepted(Dfa(ACCEPT, vs[0]), vs[1..]);
    }
  }

  ghost predicate IsUtf8(s: seq<byte>) {
    exists vs: seq<Scalar> :: s == EncodeAll(vs)
  }

  lemma AutomatonExact(s: seq<byte>)
    ensures Accepts(s) <==> IsUtf8(s)
    ensures Accepts(s) ==> forall vs: seq<Scalar> :: s == EncodeAll(vs) ==> vs == CodePoints(START, s)
  {
    if Accepts(s) {
      var vs := AcceptedIsEncoded(START, s);
      assert s == EncodeAll(vs);
    }
    forall vs: seq<Scalar> | s == EncodeAll(vs) ensures Accepts(s) && vs == CodePoints(START, s) {
      EncodedIsAccepted(START, vs);
    }
  }

  // ---- The program ----

  /** 0xff >> cls, a mask of the form 2^k - 1: the bits it keeps of an octet are the remainder by 2^k. */
  lemma LeadMask(b: byte, cls: nat)
    requires cls == ByteClass(b)
    ensures b % (0xFF / Bits.Pow2(cls) + 1) == LeadBits(b)
  {
    assert Bits.Pow2(0) == 1 && Bits.Pow2(1) == 2 && Bits.Pow2(2) == 4 && Bits.Pow2(3) == 8;
    assert Bits.Pow2(4) == 16 && Bits.Pow2(5) == 32;
    assert Bits.Pow2(6) == 64 && Bits.Pow2(7) == 128 && Bits.Pow2(8) == 256 && Bits.Pow2(9) == 512;
    assert Bits.Pow2(10) == 1024 && Bits.Pow2(11) == 2048;
  }

  method LookupClass(b: byte) returns (cls: nat)
    ensures cls == ByteClass(b)
  {
    ByteClassTable(b);
    cls := Utf8d(b);
  }

  method LookupState(state: nat, cls: nat) returns (next: nat)
    requires state < 9 && cls < 12
    ensures next == Transition(state, cls)
  {
    TransitionTable(state, cls);
    next := Utf8d(256 + state * 16 + cls);
  }

  /** One table-driven step on the state and the code point. */
  method DecodeNextByte(state: nat, codepoint: nat, b: byte) returns (nextState: nat, nextCodepoint: nat)
    requires state < 9
    ensures Dfa(nextState, nextCodepoint) == Next(Dfa(state, codepoint), b)
  {
    var cls := LookupClass(b);
    if state != ACCEPT {
      nextCodepoint := b % 64 + codepoint * 64 % 0x1_0000_0000;
    } else {
      LeadMask(b, cls);
      var mask := 0xFF / Bits.Pow2(cls);
      nextCodepoint := b % (mask + 1);
    }
    nextState := LookupState(state, cls);
  }

  /** Streaming validation: the automaton's two variables, kept between calls. */
  class Utf8Validator {
    var state: nat
    var codepoint: nat

    ghost predicate Valid()
      reads this
    {
      state < 9
    }

    ghost function Automaton(): Dfa
      reads this
    {
      Dfa(state, codepoint)
    }

    constructor ()
      ensures Valid() && Automaton() == START
    {
      state := ACCEPT;
      codepoint := 0;
    }

    method Consume(b: byte) returns (ok: bool)
      requires Valid()
      modifies this
      ensures Valid() && Automaton() == Next(old(Automaton()), b)
      ensures ok <==> state != REJECT
    {
      state, codepoint := DecodeNextByte(state, codepoint, b);
      ok := state != REJECT;
    }

    /** Stops at the first octet that leads to the reject state. */
    method Decode(s: seq<byte>) returns (ok: bool)
      requires Valid()
      modifies this
      ensures Valid()
      ensures ok ==> Automaton() == Run(old(Automaton()), s)
      ensures s == [] ==> ok
      ensures s != [] ==> (ok <==> Run(old(Automaton()), s).state != REJECT)
      ensures !ok ==> state == REJECT
    {
      var i := 0;
      while i < |s|
        invariant 0 <= i <= |s| && Valid()
        invariant Run(old(Automaton()), s) == Run(Automaton(), s[i..])
        invariant i > 0 ==> state != REJECT
      {
        state, codepoint := DecodeNextByte(state, codepoint, s[i]);
        assert s[i..][1..] == s[i + 1..];
        assert Run(old(Automaton()), s) == Run(Automaton(), s[i + 1..]);
        if state == REJECT {
          RunRejected(Automaton(), s[i + 1..]);
          return false;
        }
        i := i + 1;
      }
      return true;
    }

    method Complete() returns (ok: bool)
      requires Valid()
      ensures ok <==> state == ACCEPT
    {
      return state == ACCEPT;
    }

    method Reset()
      modifies this
      ensures Valid() && Automaton() == START
    {
      state := ACCEPT;
      codepoint := 0;
    }
  }

  /** A whole string: exactly the UTF-8 of section 4 of RFC 3629 is accepted. */
  method ValidateUtf8(s: seq<byte>) returns (ok: bool)
    ensures ok == Accepts(s)
    ensures ok <==> IsUtf8(s)
  {
    AutomatonExact(s);
    var v := new Utf8Validator();
    var decoded := v.Decode(s);
    if !decoded {
      return false;
    }
    ok := v.Complete();
  }
}
