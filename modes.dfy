/** The 6502 addressing modes as one-hot flags, and the mapping from a flag
    to the dense index used by the 13-entry opcode arrays. */
module Modes {

  /** Declared in the order of the addressing_modes enumeration. */
  datatype Mode =
    | Unused | Accumulator | Absolute | AbsoluteIX | AbsoluteIY | Immediate
    | Implied | Indirect | IndirectIX | IndirectIY | Relative | Zeropage
    | ZeropageIX | ZeropageIY

  function Pow2(k: nat): (p: nat)
    ensures p >= 1
  {
    if k == 0 then 1 else 2 * Pow2(k - 1)
  }

  /** Position of the mode in the declaration. */
  function BitPos(m: Mode): (k: nat)
    ensures k <= 13
  {
    match m
    case Unused => 0
    case Accumulator => 1
    case Absolute => 2
    case AbsoluteIX => 3
    case AbsoluteIY => 4
    case Immediate => 5
    case Implied => 6
    case Indirect => 7
    case IndirectIX => 8
    case IndirectIY => 9
    case Relative => 10
    case Zeropage => 11
    case ZeropageIX => 12
    case ZeropageIY => 13
  }

  /** The enumeration constant; each one is the power of two at its
      declaration position, so exactly one bit is set. */
  function Flag(m: Mode): (f: nat)
    ensures f == Pow2(BitPos(m))
    ensures 1 <= f <= 0x2000
  {
    Pow2Table();
    match m
    case Unused => 0x0001
    case Accumulator => 0x0002
    case Absolute => 0x0004
    case AbsoluteIX => 0x0008
    case AbsoluteIY => 0x0010
    case Immediate => 0x0020
    case Implied => 0x0040
    case Indirect => 0x0080
    case IndirectIX => 0x0100
    case IndirectIY => 0x0200
    case Relative => 0x0400
    case Zeropage => 0x0800
    case ZeropageIX => 0x1000
    case ZeropageIY => 0x2000
  }

  lemma Pow2Table()
    ensures Pow2(0) == 1 && Pow2(1) == 2 && Pow2(2) == 4 && Pow2(3) == 8
    ensures Pow2(4) == 16 && Pow2(5) == 32 && Pow2(6) == 64 && Pow2(7) == 128
    ensures Pow2(8) == 256 && Pow2(9) == 512 && Pow2(10) == 1024
    ensures Pow2(11) == 2048 && Pow2(12) == 4096 && Pow2(13) == 8192
  {
    assert Pow2(4) == 16;
    assert Pow2(8) == 256;
    assert Pow2(12) == 4096;
  }

  /** Bit k of v. */
  function Bit(v: nat, k: nat): (b: nat)
    ensures b <= 1
  {
    if k == 0 then v % 2 else Bit(v / 2, k - 1)
  }

  lemma DivUnique(v: nat, d: nat, q: nat, r: nat)
    requires d > 0 && v == d * q + r && r < d
    ensures v / d == q
  {
    var q', r' := v / d, v % d;
    assert d * q + r == d * q' + r';
    if q' < q {
      MulGap(d, q', q);
    } else if q < q' {
      MulGap(d, q, q');
    }
  }

  lemma MulGap(d: nat, a: nat, b: nat)
    requires a < b
    ensures d * a + d <= d * b
  {
    var k := b - a;
    assert d * b == d * a + d * k;
    assert d * k == d + d * (k - 1);
  }

  lemma HalfThenDivide(v: nat, p: nat)
    requires p > 0
    ensures (v / 2) / p == v / (2 * p)
  {
    var q := (v / 2) / p;
    var r := (v / 2) % p;
    assert v == (2 * p) * q + (2 * r + v % 2);
    DivUnique(v, 2 * p, q, 2 * r + v % 2);
  }

  /** Bit k of v is the parity of v shifted right by k. */
  lemma {:induction false} BitByDivision(v: nat, k: nat)
    ensures Bit(v, k) == (v / Pow2(k)) % 2
  {
    if k > 0 {
      BitByDivision(v / 2, k - 1);
      HalfThenDivide(v, Pow2(k - 1));
    }
  }

  /** Bitwise AND of two non-negative words, as the C `&` computes it. */
  function And(a: nat, b: nat): (r: nat)
    ensures r <= a
  {
    if a == 0 || b == 0 then 0
    else 2 * And(a / 2, b / 2) + (if a % 2 == 1 && b % 2 == 1 then 1 else 0)
  }

  lemma {:induction false} Pow2Bit(p: nat, k: nat)
    ensures Bit(Pow2(p), k) == if p == k then 1 else 0
  {
    if k > 0 && p > 0 {
      Pow2Bit(p - 1, k - 1);
    } else if k > 0 {
      ZeroBit(k - 1);
    }
  }

  lemma {:induction false} ZeroBit(k: nat)
    ensures Bit(0, k) == 0
  {
    if k > 0 {
      ZeroBit(k - 1);
    }
  }

  /** Each mode constant has exactly one bit set: the bit at its position. */
  lemma FlagOneHot(m: Mode, k: nat)
    ensures Bit(Flag(m), k) == if k == BitPos(m) then 1 else 0
  {
    Pow2Bit(BitPos(m), k);
  }

  /** No two modes share a bit. */
  lemma FlagsDisjoint(a: Mode, b: Mode, k: nat)
    requires a != b
    ensures Bit(Flag(a), k) == 0 || Bit(Flag(b), k) == 0
    ensures And(Flag(a), Flag(b)) == 0
  {
    FlagOneHot(a, k);
    FlagOneHot(b, k);
    AndOneHot(BitPos(a), Flag(b));
    FlagOneHot(b, BitPos(a));
  }

  /** ANDing a one-hot word 1<<k with a mask tests bit k of the mask. */
  lemma {:induction false} AndOneHot(k: nat, mask: nat)
    ensures And(Pow2(k), mask) != 0 <==> Bit(mask, k) == 1
  {
    if k > 0 && mask != 0 {
      AndOneHot(k - 1, mask / 2);
      assert Pow2(k) / 2 == Pow2(k - 1);
    } else if k > 0 {
      ZeroBit(k);
    }
  }

  /** The shared ordering of every opcode array: dense index k holds the
      opcode for DenseOrder[k]. */
  const DenseOrder: seq<Mode> :=
    [Accumulator, Absolute, AbsoluteIX, AbsoluteIY, Immediate, Implied, Indirect,
     IndirectIX, IndirectIY, Relative, Zeropage, ZeropageIX, ZeropageIY]

  /** The index in the second comment column: bit position minus one. */
  function DenseIndex(m: Mode): (k: int)
    ensures m == Unused <==> k == -1
    ensures m != Unused ==> 0 <= k < |DenseOrder| && DenseOrder[k] == m
  {
    BitPos(m) - 1
  }

  /** The dense index is a bijection between the 13 real modes and 0..12. */
  lemma DenseIndexBijective(a: Mode, b: Mode, k: nat)
    requires k < |DenseOrder|
    ensures DenseIndex(a) == DenseIndex(b) ==> a == b
    ensures DenseIndex(DenseOrder[k]) == k
  {
    assert DenseOrder[DenseIndex(DenseOrder[k])] == DenseOrder[k];
    assert forall i, j :: 0 <= i < j < |DenseOrder| ==> DenseOrder[i] != DenseOrder[j];
  }

  /** The number of right shifts that take v to zero. */
  function BitLength(v: nat): (n: nat)
    ensures v == 0 <==> n == 0
  {
    if v == 0 then 0 else 1 + BitLength(v / 2)
  }

  /** What mode2dec returns for v. */
  function Mode2DecValue(v: nat): int
  {
    if v == 0 then -1 else BitLength(v) - 2
  }

  /** mode2dec: count the shifts, then subtract two. */
  method Mode2Dec(val: nat) returns (r: int)
    requires val < 0x1_0000_0000
    ensures r == Mode2DecValue(val)
  {
    if val == 0 {
      return -1;
    }
    var i := 0;
    var v := val;
    while v != 0
      invariant i + BitLength(v) == BitLength(val)
      decreases v
    {
      i := i + 1;
      v := v / 2;
    }
    r := i - 2;
  }

  lemma {:induction false} BitLengthPow2(k: nat)
    ensures BitLength(Pow2(k)) == k + 1
  {
    if k > 0 {
      BitLengthPow2(k - 1);
      assert Pow2(k) / 2 == Pow2(k - 1);
    }
  }

  /** mode2dec of a one-hot flag 1<<k is k-1: the dense index. */
  lemma Mode2DecOfFlag(m: Mode)
    ensures Mode2DecValue(Flag(m)) == DenseIndex(m)
    ensures m == Unused ==> Mode2DecValue(Flag(m)) == -1
  {
    BitLengthPow2(BitPos(m));
  }

  /** mode2dec on the largest mode gives the last slot of a 13-entry array,
      and the largest value it can report for any 14-bit mask is 12. */
  lemma {:induction false} Mode2DecBounds(v: nat)
    requires 0 < v < 0x4000
    ensures -1 <= Mode2DecValue(v) <= 12
  {
    BitLengthMonotone(v, 0x3FFF);
    assert BitLength(0x3FFF) == 14;
  }

  lemma {:induction false} BitLengthMonotone(a: nat, b: nat)
    requires a <= b
    ensures BitLength(a) <= BitLength(b)
  {
    if a != 0 {
      BitLengthMonotone(a / 2, b / 2);
    }
  }
}
