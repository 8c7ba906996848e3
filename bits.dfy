/** Bitwise operations on n-bit words, defined one bit at a time on
    non-negative integers, and the unsigned view of a 32-bit `int`. */
module Bits {
  import opened Words
  import opened Modes

  datatype BitOp = AndBits | OrBits | XorBits

  /** The truth table of one bit position. */
  function Combine(op: BitOp, x: nat, y: nat): (c: nat)
    requires x <= 1 && y <= 1
    ensures c <= 1
  {
    match op
    case AndBits => if x == 1 && y == 1 then 1 else 0
    case OrBits => if x == 1 || y == 1 then 1 else 0
    case XorBits => if x != y then 1 else 0
  }

  /** The low n bits of a and b combined position by position. */
  function Bitwise(op: BitOp, a: nat, b: nat, n: nat): (r: nat)
    ensures r < Pow2(n)
  {
    if n == 0 then 0 else 2 * Bitwise(op, a / 2, b / 2, n - 1) + Combine(op, a % 2, b % 2)
  }

  /** The low n bits of u, each one flipped. */
  function Complement(u: nat, n: nat): (r: nat)
    ensures r < Pow2(n)
  {
    if n == 0 then 0 else 2 * Complement(u / 2, n - 1) + (1 - u % 2)
  }

  /** Bit k of a bitwise result is the truth table applied to bit k of the
      operands. */
  lemma {:induction false} BitwiseBit(op: BitOp, a: nat, b: nat, n: nat, k: nat)
    requires k < n
    ensures Bit(Bitwise(op, a, b, n), k) == Combine(op, Bit(a, k), Bit(b, k))
  {
    if k > 0 {
      BitwiseBit(op, a / 2, b / 2, n - 1, k - 1);
    }
  }

  /** Flipping all n bits of u is subtracting it from 2^n - 1. */
  lemma {:induction false} ComplementValue(u: nat, n: nat)
    requires u < Pow2(n)
    ensures Complement(u, n) == Pow2(n) - 1 - u
  {
    if n > 0 {
      ComplementValue(u / 2, n - 1);
    }
  }

  /** Exclusive or with the same word twice gives the original word. */
  lemma {:induction false} XorTwice(a: nat, b: nat, n: nat)
    requires a < Pow2(n)
    ensures Bitwise(XorBits, Bitwise(XorBits, a, b, n), b, n) == a
  {
    if n > 0 {
      XorTwice(a / 2, b / 2, n - 1);
    }
  }

  lemma Pow2Of32()
    ensures Pow2(32) == TwoTo32
  {
    Pow2Table();
    assert Pow2(16) == 65536;
    assert Pow2(20) == 0x10_0000;
    assert Pow2(24) == 0x100_0000;
    assert Pow2(28) == 0x1000_0000;
  }

  /** The two's-complement bit pattern of an `int`, as an unsigned number. */
  function Unsigned(x: int): (u: nat)
    ensures u < TwoTo32
    ensures (x - u) % TwoTo32 == 0
  {
    x % TwoTo32
  }

  /** Reading a 32-bit pattern as signed and back loses nothing. */
  lemma UnsignedOfWrap(u: nat)
    requires u < TwoTo32
    ensures Unsigned(Wrap32(u)) == u
  {
  }

  lemma WrapOfUnsigned(x: int)
    requires IsInt32(x)
    ensures Wrap32(Unsigned(x)) == x
  {
    WrapCongruent(Unsigned(x), x, -((x - Unsigned(x)) / TwoTo32));
  }

  /** A 32-bit bitwise operation on two `int`s, read back as an `int`. */
  function Word(op: BitOp, a: int, b: int): (r: int)
    ensures IsInt32(r)
    ensures forall k :: 0 <= k < 32 ==>
      Bit(Unsigned(r), k) == Combine(op, Bit(Unsigned(a), k), Bit(Unsigned(b), k))
  {
    var w := Bitwise(op, Unsigned(a), Unsigned(b), 32);
    Pow2Of32();
    UnsignedOfWrap(w);
    forall k | 0 <= k < 32
      ensures Bit(w, k) == Combine(op, Bit(Unsigned(a), k), Bit(Unsigned(b), k))
    {
      BitwiseBit(op, Unsigned(a), Unsigned(b), 32, k);
    }
    Wrap32(w)
  }
}
