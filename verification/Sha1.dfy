/** The SHA-1 block function: unrolled, in place, with rotating registers and a ring of sixteen words. */
module Sha1 {
  import Bits

  /** A 32-bit word; sums are taken modulo 2 to the 32nd. */
  type word = n: nat | n < 0x1_0000_0000

  function And(x: word, y: word): word { Both(Bits.AND, x, y) }

  function Or(x: word, y: word): word { Both(Bits.OR, x, y) }

  function Xor(x: word, y: word): word { Both(Bits.XOR, x, y) }

  function AndNot(x: word, y: word): word { Both(Bits.AND_NOT, x, y) }

  function Both(f: (bool, bool) -> bool, x: word, y: word): word {
    WordBound(f, x, y);
    Bits.Bitwise(f, x, y)
  }

  lemma WordBound(f: (bool, bool) -> bool, x: word, y: word)
    ensures Bits.Bitwise(f, x, y) < 0x1_0000_0000
  {
    Bits.Pow2Values();
    Bits.BitwiseBound(f, x, y, 32);
  }

  // The rotations to the left that the algorithm uses, as a shift and the bits that fall out of it.

  function Rol1(x: word): word { Or(x * 2 % 0x1_0000_0000, x / 0x8000_0000) }

  function Rol5(x: word): word { Or(x * 32 % 0x1_0000_0000, x / 0x800_0000) }

  function Rol30(x: word): word { Or(x * 0x4000_0000 % 0x1_0000_0000, x / 4) }

  function Add(x: word, y: word): word { (x + y) % 0x1_0000_0000 }

  function Sum5(a: word, b: word, c: word, d: word, e: word): word { (a + b + c + d + e) % 0x1_0000_0000 }

  // ---- Section 6.1 of RFC 3174 ----

  /** The registers A to E, and also a hash value H0 to H4. */
  datatype Registers = Registers(a: word, b: word, c: word, d: word, e: word)

  function Expand(w3: word, w8: word, w14: word, w16: word): word { Rol1(Xor(Xor(Xor(w3, w8), w14), w16)) }

  /** Section 6.1 (b): word t of the message schedule. */
  function Schedule(block: seq<word>, t: nat): word
    requires |block| == 16
  {
    if t < 16 then block[t]
    else Expand(Schedule(block, t - 3), Schedule(block, t - 8), Schedule(block, t - 14), Schedule(block, t - 16))
  }

  /** Section 5: the functions of the four groups of steps. */
  function Choose(b: word, c: word, d: word): word { Or(And(b, c), AndNot(d, b)) }

  function Parity(b: word, c: word, d: word): word { Xor(Xor(b, c), d) }

  function Majority(b: word, c: word, d: word): word { Or(Or(And(b, c), And(b, d)), And(c, d)) }

  function F(t: nat, b: word, c: word, d: word): word {
    if t < 20 then Choose(b, c, d) else if t < 40 then Parity(b, c, d) else if t < 60 then Majority(b, c, d)
    else Parity(b, c, d)
  }

  function K(t: nat): word {
    if t < 20 then 0x5A827999 else if t < 40 then 0x6ED9EBA1 else if t < 60 then 0x8F1BBCDC else 0xCA62C1D6
  }

  function Temp(r: Registers, f: word, w: word, k: word): word {
    Sum5(Rol5(r.a), f, r.e, w, k)
  }

  /** Section 6.1 (d): one step. */
  function Step(r: Registers, f: word, w: word, k: word): Registers {
    Registers(Temp(r, f, w, k), r.a, Rol30(r.b), r.c, r.d)
  }

  function After(h: Registers, block: seq<word>, t: nat): Registers
    requires |block| == 16
  {
    if t == 0 then h
    else
      var r := After(h, block, t - 1);
      Step(r, F(t - 1, r.b, r.c, r.d), Schedule(block, t - 1), K(t - 1))
  }

  function Sum(h: Registers, r: Registers): Registers {
    Registers(Add(h.a, r.a), Add(h.b, r.b), Add(h.c, r.c), Add(h.d, r.d), Add(h.e, r.e))
  }

  /** Section 6.1 (e): the hash value after one block. */
  function Compress(h: Registers, block: seq<word>): Registers
    requires |block| == 16
  {
    Sum(h, After(h, block, 80))
  }

  // ---- The unrolled form ----

  lemma ChooseForm(b: word, c: word, d: word)
    ensures Xor(And(b, Xor(c, d)), d) == Choose(b, c, d)
  {
    Bits.ChooseForm(b, c, d);
  }

  lemma MajorityForm(b: word, c: word, d: word)
    ensures Or(And(Or(b, c), d), And(b, c)) == Majority(b, c, d)
  {
    Bits.MajorityForm(b, c, d);
  }

  lemma ParityAt(t: nat, b: word, c: word, d: word)
    requires 20 <= t && (t < 40 || 60 <= t)
    ensures F(t, b, c, d) == Xor(Xor(b, c), d)
  {
  }

  function Wrap5(k: nat): nat { if k < 5 then k else k - 5 }

  function Wrap16(k: nat): nat { if k < 16 then k else k - 16 }

  lemma Mod5(i: nat)
    ensures (i + 1) % 5 == Wrap5(i % 5 + 1) && (i + 2) % 5 == Wrap5(i % 5 + 2)
    ensures (i + 3) % 5 == Wrap5(i % 5 + 3) && (i + 4) % 5 == Wrap5(i % 5 + 4)
  {
  }

  lemma Mod16(k: nat)
    ensures (k + 1) % 16 == Wrap16(k % 16 + 1)
  {
  }

  lemma Near16(i: nat, k: nat)
    requires i < 16 && k < 16
    ensures (i + k) % 16 == Wrap16(i + k)
  {
  }

  lemma AfterTwenty(i: nat, s: nat, off: nat, q: nat)
    requires i == 20 && s == i % 5 && off < 16 && q == (i + off) % 16
    ensures s == 0 && q == Wrap16(off + 4)
  {
  }

  /** The registers, with E at index s and the others behind it, around the end. */
  ghost predicate Holds(a: seq<word>, s: nat, r: Registers) {
    && |a| == 5 && s < 5
    && a[s] == r.e && a[Wrap5(s + 1)] == r.d && a[Wrap5(s + 2)] == r.c && a[Wrap5(s + 3)] == r.b
    && a[Wrap5(s + 4)] == r.a
  }

  /** Sixteen words of the schedule from word n on, the first at index s. */
  ghost predicate Ring(b: seq<word>, block: seq<word>, n: nat, s: nat)
    requires |block| == 16
  {
    && |b| == 16 && s < 16
    && forall k: nat :: n <= k < n + 16 ==> b[Wrap16(s + (k - n))] == Schedule(block, k)
  }

  lemma RingStarts(block: seq<word>)
    requires |block| == 16
    ensures Ring(block, block, 0, 0)
  {
  }

  /** The word that takes the place of the first one is the next one. */
  lemma RingMoves(b: seq<word>, block: seq<word>, n: nat, s: nat)
    requires |block| == 16 && Ring(b, block, n, s)
    ensures Expand(b[Wrap16(s + 13)], b[Wrap16(s + 8)], b[Wrap16(s + 2)], b[s]) == Schedule(block, n + 16)
    ensures Ring(b[s := Schedule(block, n + 16)], block, n + 1, Wrap16(s + 1))
  {
    assert b[Wrap16(s + 13)] == Schedule(block, n + 13) && b[Wrap16(s + 8)] == Schedule(block, n + 8);
    assert b[Wrap16(s + 2)] == Schedule(block, n + 2) && b[s] == Schedule(block, n);
  }

  /** One unrolled step, with E at index s. */
  function Turned(a: seq<word>, s: nat, f: word, w: word, k: word): (r: seq<word>)
    requires |a| == 5 && s < 5
    ensures |r| == 5
  {
    a[s := Sum5(a[s], f, w, k, Rol5(a[Wrap5(s + 4)]))][Wrap5(s + 3) := Rol30(a[Wrap5(s + 3)])]
  }

  lemma TurnIsStep(a: seq<word>, s: nat, r: Registers, f: word, w: word, k: word)
    requires Holds(a, s, r)
    ensures Holds(Turned(a, s, f, w, k), Wrap5(s + 1), Step(r, f, w, k))
  {
  }

  method Turn(a: array<word>, i: nat, f: word, w: word, k: word)
    requires a.Length == 5
    modifies a
    ensures a[..] == Turned(old(a[..]), i % 5, f, w, k)
  {
    Mod5(i);
    a[i % 5] := Sum5(a[i % 5], f, w, k, Rol5(a[(i + 4) % 5]));
    a[(i + 3) % 5] := Rol30(a[(i + 3) % 5]);
  }

  /** Step t of the plain algorithm, at index i. */
  method TurnAt(a: array<word>, i: nat, f: word, w: word, k: word,
                ghost s: nat, ghost h: Registers, ghost block: seq<word>, ghost t: nat)
    requires a.Length == 5 && |block| == 16 && s == i % 5 && Holds(a[..], s, After(h, block, t))
    requires f == F(t, a[(i + 3) % 5], a[(i + 2) % 5], a[(i + 1) % 5]) && w == Schedule(block, t) && k == K(t)
    modifies a
    ensures Holds(a[..], Wrap5(s + 1), After(h, block, t + 1))
  {
    Mod5(i);
    TurnIsStep(a[..], s, After(h, block, t), f, w, k);
    Turn(a, i, f, w, k);
  }

  /** A word of the schedule takes the place of the one sixteen before it. */
  method Renew(b: array<word>, i: nat, ghost block: seq<word>, ghost n: nat)
    requires b.Length == 16 && |block| == 16 && i < 16 && Ring(b[..], block, n, i)
    modifies b
    ensures b[i] == Schedule(block, n + 16) && Ring(b[..], block, n + 1, Wrap16(i + 1))
  {
    RingMoves(b[..], block, n, i);
    Near16(i, 13);
    Near16(i, 8);
    Near16(i, 2);
    b[i] := Rol1(Xor(Xor(Xor(b[(i + 13) % 16], b[(i + 8) % 16]), b[(i + 2) % 16]), b[i]));
  }

  method ChooseTurn(a: array<word>, i: nat, w: word, k: word,
                ghost s: nat, ghost h: Registers, ghost block: seq<word>, ghost t: nat)
    requires a.Length == 5 && |block| == 16 && s == i % 5 && Holds(a[..], s, After(h, block, t))
    requires t < 20 && w == Schedule(block, t) && k == K(t)
    modifies a
    ensures Holds(a[..], Wrap5(s + 1), After(h, block, t + 1))
  {
    var f := Xor(And(a[(i + 3) % 5], Xor(a[(i + 2) % 5], a[(i + 1) % 5])), a[(i + 1) % 5]);
    ChooseForm(a[(i + 3) % 5], a[(i + 2) % 5], a[(i + 1) % 5]);
    TurnAt(a, i, f, w, k, s, h, block, t);
  }

  method ParityTurn(a: array<word>, i: nat, w: word, k: word,
                ghost s: nat, ghost h: Registers, ghost block: seq<word>, ghost t: nat)
    requires a.Length == 5 && |block| == 16 && s == i % 5 && Holds(a[..], s, After(h, block, t))
    requires 20 <= t && (t < 40 || 60 <= t) && w == Schedule(block, t) && k == K(t)
    modifies a
    ensures Holds(a[..], Wrap5(s + 1), After(h, block, t + 1))
  {
    var f := Xor(Xor(a[(i + 3) % 5], a[(i + 2) % 5]), a[(i + 1) % 5]);
    ParityAt(t, a[(i + 3) % 5], a[(i + 2) % 5], a[(i + 1) % 5]);
    TurnAt(a, i, f, w, k, s, h, block, t);
  }

  method MajorityTurn(a: array<word>, i: nat, w: word, k: word,
                ghost s: nat, ghost h: Registers, ghost block: seq<word>, ghost t: nat)
    requires a.Length == 5 && |block| == 16 && s == i % 5 && Holds(a[..], s, After(h, block, t))
    requires 40 <= t < 60 && w == Schedule(block, t) && k == K(t)
    modifies a
    ensures Holds(a[..], Wrap5(s + 1), After(h, block, t + 1))
  {
    var f := Or(And(Or(a[(i + 3) % 5], a[(i + 2) % 5]), a[(i + 1) % 5]), And(a[(i + 3) % 5], a[(i + 2) % 5]));
    MajorityForm(a[(i + 3) % 5], a[(i + 2) % 5], a[(i + 1) % 5]);
    TurnAt(a, i, f, w, k, s, h, block, t);
  }

  /** Steps 0 to 15. */
  method Group1(a: array<word>, b: array<word>, ghost h: Registers)
    requires a.Length == 5 && b.Length == 16 && a != b && Holds(a[..], 0, h)
    modifies a
    ensures Holds(a[..], 1, After(h, b[..], 16))
  {
    ghost var s, block := 0, b[..];
    for i := 0 to 16
      invariant s == i % 5 && Holds(a[..], s, After(h, block, i)) && b[..] == block
    {
      ChooseTurn(a, i, b[i], 0x5A827999, s, h, block, i);
      Mod5(i);
      s := Wrap5(s + 1);
    }
    assert s == 1;
  }

  method Step2(a: array<word>, b: array<word>, i: nat, ghost s: nat, ghost q: nat, ghost h: Registers,
                ghost block: seq<word>, ghost t: nat)
    requires a.Length == 5 && b.Length == 16 && a != b && |block| == 16 && i < 4 && t == 16 + i
    requires s == (1 + i) % 5 && Holds(a[..], s, After(h, block, t)) && q == i && Ring(b[..], block, t - 16, q)
    modifies a, b
    ensures Holds(a[..], Wrap5(s + 1), After(h, block, t + 1)) && Ring(b[..], block, t - 15, Wrap16(q + 1))
  {
    var j := i;
    ghost var registers := a[..];
    Renew(b, j, block, t - 16);
    assert a[..] == registers;
    ghost var ring := b[..];
    ChooseTurn(a, 1 + i, b[j], 0x5A827999, s, h, block, t);
    assert b[..] == ring;
  }

  /** Steps 16 to 19. */
  method Group2(a: array<word>, b: array<word>, ghost h: Registers, ghost block: seq<word>)
    requires a.Length == 5 && b.Length == 16 && a != b && |block| == 16
    requires Holds(a[..], 1, After(h, block, 16)) && Ring(b[..], block, 0, 0)
    modifies a, b
    ensures Holds(a[..], 0, After(h, block, 20)) && Ring(b[..], block, 4, 4)
  {
    ghost var s, q, t := 1, 0, 16;
    var i := 0;
    while i < 4
      invariant 0 <= i <= 4 && t == 16 + i && s == (1 + i) % 5 && q == i
      invariant Holds(a[..], s, After(h, block, t)) && Ring(b[..], block, t - 16, q)
    {
      Step2(a, b, i, s, q, h, block, t);
      Mod5(1 + i);
      Mod16(i + 0);
      s, q, t, i := Wrap5(s + 1), Wrap16(q + 1), t + 1, i + 1;
    }
    assert i == 4;
    assert t == 20 && s == 0 && q == 4;
  }

  method Step3(a: array<word>, b: array<word>, i: nat, ghost s: nat, ghost q: nat, ghost h: Registers,
                ghost block: seq<word>, ghost t: nat)
    requires a.Length == 5 && b.Length == 16 && a != b && |block| == 16 && i < 20 && t == 20 + i
    requires s == i % 5 && Holds(a[..], s, After(h, block, t)) && q == (i + 4) % 16 && Ring(b[..], block, t - 16, q)
    modifies a, b
    ensures Holds(a[..], Wrap5(s + 1), After(h, block, t + 1)) && Ring(b[..], block, t - 15, Wrap16(q + 1))
  {
    var j := (i + 4) % 16;
    ghost var registers := a[..];
    Renew(b, j, block, t - 16);
    assert a[..] == registers;
    ghost var ring := b[..];
    ParityTurn(a, i, b[j], 0x6ED9EBA1, s, h, block, t);
    assert b[..] == ring;
  }

  /** Steps 20 to 39. */
  method Group3(a: array<word>, b: array<word>, ghost h: Registers, ghost block: seq<word>)
    requires a.Length == 5 && b.Length == 16 && a != b && |block| == 16
    requires Holds(a[..], 0, After(h, block, 20)) && Ring(b[..], block, 4, 4)
    modifies a, b
    ensures Holds(a[..], 0, After(h, block, 40)) && Ring(b[..], block, 24, 8)
  {
    ghost var s, q, t := 0, 4, 20;
    var i := 0;
    while i < 20
      invariant 0 <= i <= 20 && t == 20 + i && s == i % 5 && q == (i + 4) % 16
      invariant Holds(a[..], s, After(h, block, t)) && Ring(b[..], block, t - 16, q)
    {
      Step3(a, b, i, s, q, h, block, t);
      Mod5(i);
      Mod16(i + 4);
      s, q, t, i := Wrap5(s + 1), Wrap16(q + 1), t + 1, i + 1;
    }
    AfterTwenty(i, s, 4, q);
  }

  method Step4(a: array<word>, b: array<word>, i: nat, ghost s: nat, ghost q: nat, ghost h: Registers,
                ghost block: seq<word>, ghost t: nat)
    requires a.Length == 5 && b.Length == 16 && a != b && |block| == 16 && i < 20 && t == 40 + i
    requires s == i % 5 && Holds(a[..], s, After(h, block, t)) && q == (i + 8) % 16 && Ring(b[..], block, t - 16, q)
    modifies a, b
    ensures Holds(a[..], Wrap5(s + 1), After(h, block, t + 1)) && Ring(b[..], block, t - 15, Wrap16(q + 1))
  {
    var j := (i + 8) % 16;
    ghost var registers := a[..];
    Renew(b, j, block, t - 16);
    assert a[..] == registers;
    ghost var ring := b[..];
    MajorityTurn(a, i, b[j], 0x8F1BBCDC, s, h, block, t);
    assert b[..] == ring;
  }

  /** Steps 40 to 59. */
  method Group4(a: array<word>, b: array<word>, ghost h: Registers, ghost block: seq<word>)
    requires a.Length == 5 && b.Length == 16 && a != b && |block| == 16
    requires Holds(a[..], 0, After(h, block, 40)) && Ring(b[..], block, 24, 8)
    modifies a, b
    ensures Holds(a[..], 0, After(h, block, 60)) && Ring(b[..], block, 44, 12)
  {
    ghost var s, q, t := 0, 8, 40;
    var i := 0;
    while i < 20
      invariant 0 <= i <= 20 && t == 40 + i && s == i % 5 && q == (i + 8) % 16
      invariant Holds(a[..], s, After(h, block, t)) && Ring(b[..], block, t - 16, q)
    {
      Step4(a, b, i, s, q, h, block, t);
      Mod5(i);
      Mod16(i + 8);
      s, q, t, i := Wrap5(s + 1), Wrap16(q + 1), t + 1, i + 1;
    }
    AfterTwenty(i, s, 8, q);
  }

  method Step5(a: array<word>, b: array<word>, i: nat, ghost s: nat, ghost q: nat, ghost h: Registers,
                ghost block: seq<word>, ghost t: nat)
    requires a.Length == 5 && b.Length == 16 && a != b && |block| == 16 && i < 20 && t == 60 + i
    requires s == i % 5 && Holds(a[..], s, After(h, block, t)) && q == (i + 12) % 16 && Ring(b[..], block, t - 16, q)
    modifies a, b
    ensures Holds(a[..], Wrap5(s + 1), After(h, block, t + 1)) && Ring(b[..], block, t - 15, Wrap16(q + 1))
  {
    var j := (i + 12) % 16;
    ghost var registers := a[..];
    Renew(b, j, block, t - 16);
    assert a[..] == registers;
    ghost var ring := b[..];
    ParityTurn(a, i, b[j], 0xCA62C1D6, s, h, block, t);
    assert b[..] == ring;
  }

  /** Steps 60 to 79. */
  method Group5(a: array<word>, b: array<word>, ghost h: Registers, ghost block: seq<word>)
    requires a.Length == 5 && b.Length == 16 && a != b && |block| == 16
    requires Holds(a[..], 0, After(h, block, 60)) && Ring(b[..], block, 44, 12)
    modifies a, b
    ensures Holds(a[..], 0, After(h, block, 80)) && Ring(b[..], block, 64, 0)
  {
    ghost var s, q, t := 0, 12, 60;
    var i := 0;
    while i < 20
      invariant 0 <= i <= 20 && t == 60 + i && s == i % 5 && q == (i + 12) % 16
      invariant Holds(a[..], s, After(h, block, t)) && Ring(b[..], block, t - 16, q)
    {
      Step5(a, b, i, s, q, h, block, t);
      Mod5(i);
      Mod16(i + 12);
      s, q, t, i := Wrap5(s + 1), Wrap16(q + 1), t + 1, i + 1;
    }
    AfterTwenty(i, s, 12, q);
  }

  function RegistersOf(s: seq<word>): Registers
    requires |s| == 5
  {
    Registers(s[0], s[1], s[2], s[3], s[4])
  }

  /** The fast form computes the block function of section 6.1 of RFC 3174, for every hash value and block. */
  method Sha1(hash: array<word>, b: array<word>)
    requires hash.Length == 5 && b.Length == 16 && hash != b
    modifies hash, b
    ensures RegistersOf(hash[..]) == Compress(old(RegistersOf(hash[..])), old(b[..]))
  {
    ghost var h, block := RegistersOf(hash[..]), b[..];
    var a := new word[5][hash[4], hash[3], hash[2], hash[1], hash[0]];
    RingStarts(block);
    Group1(a, b, h);
    Group2(a, b, h, block);
    Group3(a, b, h, block);
    Group4(a, b, h, block);
    Group5(a, b, h, block);
    AddBack(hash, a);
    assert RegistersOf(hash[..]) == Sum(h, After(h, block, 80));
  }

  method AddBack(hash: array<word>, a: array<word>)
    requires hash.Length == 5 && a.Length == 5 && hash != a
    modifies hash
    ensures forall j :: 0 <= j < 5 ==> hash[j] == Add(old(hash[j]), a[4 - j])
  {
    for i := 0 to 5
      invariant forall j :: 0 <= j < i ==> hash[j] == Add(old(hash[j]), a[4 - j])
      invariant forall j :: i <= j < 5 ==> hash[j] == old(hash[j])
    {
      hash[i] := Add(hash[i], a[4 - i]);
    }
  }
}
