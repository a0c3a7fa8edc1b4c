/** Bitwise operations on naturals of any width. */
module Bits {
  function Pow2(n: nat): (p: nat)
    ensures p > 0
  {
    if n == 0 then 1 else 2 * Pow2(n - 1)
  }

  lemma Pow2Values()
    ensures Pow2(8) == 0x100 && Pow2(16) == 0x1_0000 && Pow2(32) == 0x1_0000_0000
  {
    Pow2Eight(0);
    Pow2Eight(8);
    Pow2Eight(16);
    Pow2Eight(24);
  }

  lemma Pow2Eight(n: nat)
    ensures Pow2(n + 8) == 256 * Pow2(n)
  {
    assert Pow2(n + 2) == 4 * Pow2(n);
    assert Pow2(n + 4) == 4 * Pow2(n + 2);
    assert Pow2(n + 6) == 4 * Pow2(n + 4);
  }

  function Bit(b: bool): nat { if b then 1 else 0 }

  /** The operation f on the bits of two numbers. */
  function Bitwise(f: (bool, bool) -> bool, x: nat, y: nat): nat
    decreases x + y
  {
    if x == 0 && y == 0 then 0 else Bit(f(x % 2 == 1, y % 2 == 1)) + 2 * Bitwise(f, x / 2, y / 2)
  }

  lemma {:induction false} BitwiseBound(f: (bool, bool) -> bool, x: nat, y: nat, width: nat)
    requires x < Pow2(width) && y < Pow2(width)
    ensures Bitwise(f, x, y) < Pow2(width)
    decreases width
  {
    if width > 0 && !(x == 0 && y == 0) {
      BitwiseBound(f, x / 2, y / 2, width - 1);
    }
  }

  lemma LowestBit(low: nat, tail: nat)
    requires low < 2
    ensures (low + 2 * tail) % 2 == low && (low + 2 * tail) / 2 == tail
  {
  }

  /** The lowest bit and the remaining bits of the result, for all operands. */
  lemma Halves(f: (bool, bool) -> bool, x: nat, y: nat)
    requires !f(false, false)
    ensures Bitwise(f, x, y) % 2 == Bit(f(x % 2 == 1, y % 2 == 1))
    ensures Bitwise(f, x, y) / 2 == Bitwise(f, x / 2, y / 2)
  {
    if x != 0 || y != 0 {
      LowestBit(Bit(f(x % 2 == 1, y % 2 == 1)), Bitwise(f, x / 2, y / 2));
    }
  }

  const AND := (p: bool, q: bool) => p && q
  const OR := (p: bool, q: bool) => p || q
  const XOR := (p: bool, q: bool) => p != q
  const AND_NOT := (p: bool, q: bool) => p && !q

  lemma SameHalves(x: nat, y: nat)
    requires x % 2 == y % 2 && x / 2 == y / 2
    ensures x == y
  {
  }

  lemma {:induction false} XorInvolutive(x: nat, y: nat)
    ensures Bitwise(XOR, Bitwise(XOR, x, y), y) == x
    decreases x + y
  {
    if x != 0 || y != 0 {
      var r := Bitwise(XOR, x, y);
      Halves(XOR, x, y);
      Halves(XOR, r, y);
      XorInvolutive(x / 2, y / 2);
      SameHalves(Bitwise(XOR, r, y), x);
    }
  }

  /** Selecting with one exclusive or less. */
  lemma {:induction false} ChooseForm(b: nat, c: nat, d: nat)
    ensures Bitwise(XOR, Bitwise(AND, b, Bitwise(XOR, c, d)), d)
         == Bitwise(OR, Bitwise(AND, b, c), Bitwise(AND_NOT, d, b))
    decreases b + c + d
  {
    if b != 0 || c != 0 || d != 0 {
      ChooseForm(b / 2, c / 2, d / 2);
      var x := Bitwise(XOR, c, d);
      Halves(XOR, c, d);
      Halves(AND, b, x);
      Halves(XOR, Bitwise(AND, b, x), d);
      Halves(AND, b, c);
      Halves(AND_NOT, d, b);
      Halves(OR, Bitwise(AND, b, c), Bitwise(AND_NOT, d, b));
      SameHalves(Bitwise(XOR, Bitwise(AND, b, x), d), Bitwise(OR, Bitwise(AND, b, c), Bitwise(AND_NOT, d, b)));
    }
  }

  /** The majority with one product less. */
  lemma {:induction false} MajorityForm(b: nat, c: nat, d: nat)
    ensures Bitwise(OR, Bitwise(AND, Bitwise(OR, b, c), d), Bitwise(AND, b, c))
         == Bitwise(OR, Bitwise(OR, Bitwise(AND, b, c), Bitwise(AND, b, d)), Bitwise(AND, c, d))
    decreases b + c + d
  {
    if b != 0 || c != 0 || d != 0 {
      MajorityForm(b / 2, c / 2, d / 2);
      var bc, bd, cd, either := Bitwise(AND, b, c), Bitwise(AND, b, d), Bitwise(AND, c, d), Bitwise(OR, b, c);
      Halves(AND, b, c);
      Halves(AND, b, d);
      Halves(AND, c, d);
      Halves(OR, b, c);
      Halves(AND, either, d);
      Halves(OR, Bitwise(AND, either, d), bc);
      Halves(OR, bc, bd);
      Halves(OR, Bitwise(OR, bc, bd), cd);
      SameHalves(Bitwise(OR, Bitwise(AND, either, d), bc), Bitwise(OR, Bitwise(OR, bc, bd), cd));
    }
  }
}
