/** Octets, octet strings, and the bitwise exclusive or that frame masking is built on. */
module Bytes {
  import Bits

  type byte = x: int | 0 <= x < 256

  /** Bitwise exclusive or. */
  function Xor(a: byte, b: byte): byte {
    Bits.Pow2Values();
    Bits.BitwiseBound(Bits.XOR, a, b, 8);
    Bits.Bitwise(Bits.XOR, a, b)
  }

  lemma XorInvolutive(a: byte, b: byte)
    ensures Xor(Xor(a, b), b) == a
  {
    Bits.XorInvolutive(a, b);
  }

  /** Section 5.3 of RFC 6455: octet i is combined with octet i mod 4 of the key. */
  function Mask(data: seq<byte>, key: seq<byte>): (masked: seq<byte>)
    requires |key| == 4
    ensures |masked| == |data|
  {
    seq(|data|, i requires 0 <= i < |data| => Xor(data[i], key[i % 4]))
  }

  /** Masking twice with one key gives the data back. */
  lemma MaskInvolutive(data: seq<byte>, key: seq<byte>)
    requires |key| == 4
    ensures Mask(Mask(data, key), key) == data
  {
    forall i | 0 <= i < |data| ensures Mask(Mask(data, key), key)[i] == data[i] {
      XorInvolutive(data[i], key[i % 4]);
    }
  }

  /** A buffer in which i octets of the data between front and tail are masked already. */
  function PartlyMasked(front: seq<byte>, data: seq<byte>, key: seq<byte>, i: nat, tail: seq<byte>): (s: seq<byte>)
    requires |key| == 4 && i <= |data|
    ensures |s| == |front| + |data| + |tail|
  {
    front + Mask(data, key)[..i] + data[i..] + tail
  }

  lemma MaskOneMore(front: seq<byte>, data: seq<byte>, key: seq<byte>, i: nat, tail: seq<byte>)
    requires |key| == 4 && i < |data|
    ensures var s := PartlyMasked(front, data, key, i, tail);
      s[|front| + i := Xor(s[|front| + i], key[i % 4])] == PartlyMasked(front, data, key, i + 1, tail)
  {
    var s := PartlyMasked(front, data, key, i, tail);
    assert s[|front| + i] == data[i];
  }

  lemma MaskedEnds(front: seq<byte>, data: seq<byte>, key: seq<byte>, tail: seq<byte>)
    requires |key| == 4
    ensures PartlyMasked(front, data, key, 0, tail) == front + data + tail
    ensures PartlyMasked(front, data, key, |data|, tail) == front + Mask(data, key) + tail
  {
  }

  /** The parts, one after the other. */
  function Flatten<T>(parts: seq<seq<T>>): seq<T> {
    if parts == [] then [] else parts[0] + Flatten(parts[1..])
  }

  lemma EmptyInFront<T>(s: seq<T>)
    ensures [] + s == s
  {
  }

  lemma ConcatAssociative<T>(a: seq<T>, b: seq<T>, c: seq<T>)
    ensures (a + b) + c == a + (b + c)
  {
  }

  lemma TailOfConcat<T>(a: seq<T>, b: seq<T>)
    requires a != []
    ensures (a + b)[1..] == a[1..] + b && (a + b)[0] == a[0]
  {
  }

  lemma HeadAndTail<T>(s: seq<T>, i: nat)
    requires i < |s|
    ensures s[i..] == [s[i]] + s[i + 1..]
  {
  }

  lemma TakeAndDrop<T>(s: seq<T>, i: nat)
    requires i <= |s|
    ensures s == s[..i] + s[i..]
  {
  }

  lemma RestOfRest<T>(s: seq<T>, from: nat, i: nat)
    requires from <= |s| && i <= |s| - from
    ensures s[from..][i..] == s[from + i..]
  {
  }

  lemma StartOfRest<T>(s: seq<T>, from: nat, i: nat)
    requires from <= |s| && i <= |s| - from
    ensures s[from..][..i] == s[from..from + i]
  {
  }

  lemma RestOfPart<T>(s: seq<T>, from: nat, end: nat, i: nat)
    requires from <= end <= |s| && i <= end - from
    ensures s[from..end][i..] == s[from + i..end]
  {
  }

  lemma PartOfPart<T>(s: seq<T>, from: nat, end: nat, i: nat, j: nat)
    requires from <= end <= |s| && i <= j <= end - from
    ensures s[from..end][i..j] == s[from + i..from + j]
  {
    var part := s[from..end];
    assert forall k :: i <= k < j ==> part[k] == s[from + k];
  }

  lemma ThreeParts<T>(s: seq<T>, i: nat, j: nat)
    requires i <= j <= |s|
    ensures s == s[..i] + s[i..j] + s[j..]
  {
  }

  lemma {:induction false} FlattenConcat<T>(a: seq<seq<T>>, b: seq<seq<T>>)
    ensures Flatten(a + b) == Flatten(a) + Flatten(b)
  {
    if a == [] {
      assert a + b == b;
    } else {
      var tail := a[1..];
      FlattenConcat(tail, b);
      assert (a + b)[1..] == tail + b;
      ConcatAssociative(a[0], Flatten(tail), Flatten(b));
    }
  }

  lemma FlattenSnoc<T>(a: seq<seq<T>>, last: seq<T>)
    ensures Flatten(a + [last]) == Flatten(a) + last
  {
    FlattenConcat(a, [last]);
    assert [last][1..] == [];
  }

  /** The images of the elements, one after the other. */
  function FlatMap<T, U>(f: T -> seq<U>, s: seq<T>): seq<U> {
    if s == [] then [] else f(s[0]) + FlatMap(f, s[1..])
  }

  lemma {:induction false} FlatMapConcat<T, U>(f: T -> seq<U>, a: seq<T>, b: seq<T>)
    ensures FlatMap(f, a + b) == FlatMap(f, a) + FlatMap(f, b)
  {
    if a == [] {
      assert a + b == b;
    } else {
      FlatMapConcat(f, a[1..], b);
      assert (a + b)[1..] == a[1..] + b;
      ConcatAssociative(f(a[0]), FlatMap(f, a[1..]), FlatMap(f, b));
    }
  }

  lemma FlatMapCons<T, U>(f: T -> seq<U>, x: T, s: seq<T>)
    ensures FlatMap(f, [x] + s) == f(x) + FlatMap(f, s)
  {
    assert ([x] + s)[1..] == s;
  }

  lemma FlatMapOne<T, U>(f: T -> seq<U>, x: T)
    ensures FlatMap(f, [x]) == f(x)
  {
    assert [x][1..] == [];
  }

  lemma FlatMapSnoc<T, U>(f: T -> seq<U>, s: seq<T>, x: T)
    ensures FlatMap(f, s + [x]) == FlatMap(f, s) + f(x)
  {
    FlatMapConcat(f, s, [x]);
    assert [x][1..] == [];
  }

  lemma {:induction false} FlattenIsFlatMap<T, U>(f: T -> seq<U>, s: seq<T>, parts: seq<seq<U>>)
    requires |parts| == |s| && forall i :: 0 <= i < |s| ==> parts[i] == f(s[i])
    ensures Flatten(parts) == FlatMap(f, s)
    decreases |s|
  {
    if s != [] {
      FlattenIsFlatMap(f, s[1..], parts[1..]);
    }
  }

  /** s holds the images of the first k elements, and a proper part of the next one. */
  ghost predicate CutAt<T, U>(f: T -> seq<U>, xs: seq<T>, s: seq<U>, k: nat, rest: seq<U>) {
    && k <= |xs|
    && s == FlatMap(f, xs[..k]) + rest
    && (if k < |xs| then rest <= f(xs[k]) && rest != f(xs[k]) else rest == [])
  }

  /** Every prefix of concatenated images is cut somewhere. */
  lemma {:induction false} FindCut<T, U>(f: T -> seq<U>, xs: seq<T>, s: seq<U>) returns (k: nat, rest: seq<U>)
    requires s <= FlatMap(f, xs)
    ensures CutAt(f, xs, s, k, rest)
    decreases |xs|
  {
    if xs == [] {
      k, rest := 0, [];
    } else if f(xs[0]) <= s {
      var head := f(xs[0]);
      var tail := s[|head|..];
      assert s == head + tail;
      var j;
      j, rest := FindCut(f, xs[1..], tail);
      k := j + 1;
      assert xs[..k][1..] == xs[1..][..j];
      ConcatAssociative(head, FlatMap(f, xs[1..][..j]), rest);
    } else {
      k, rest := 0, s;
    }
  }

  function Fold<S, E>(f: (S, E) -> S, s: S, events: seq<E>): S {
    if events == [] then s else Fold(f, f(s, events[0]), events[1..])
  }

  lemma FoldOne<S, E>(f: (S, E) -> S, s: S, e: E)
    ensures Fold(f, s, [e]) == f(s, e)
  {
  }

  lemma {:induction false} FoldConcat<S, E>(f: (S, E) -> S, s: S, a: seq<E>, b: seq<E>)
    ensures Fold(f, s, a + b) == Fold(f, Fold(f, s, a), b)
    decreases |a|
  {
    if a == [] {
      assert a + b == b;
    } else {
      assert (a + b)[1..] == a[1..] + b;
      FoldConcat(f, f(s, a[0]), a[1..], b);
    }
  }
}
