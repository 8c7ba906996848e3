/** The machine words the assembler computes with: C `int` is 32-bit two's
    complement and `unsigned long` is 64-bit (an LP64 target). */
module Words {

  const TwoTo31: int := 0x8000_0000
  const TwoTo32: int := 0x1_0000_0000
  const TwoTo64: int := 0x1_0000_0000_0000_0000
  const ULongMax: int := TwoTo64 - 1

  predicate IsInt32(x: int)
  {
    -TwoTo31 <= x < TwoTo31
  }

  /** A value that fits a byte is its own low byte. */
  lemma LowByteOfByte(v: int)
    requires 0 <= v < 256
    ensures v % 256 == v
  {
  }

  /** Conversion to `int`: keep the low 32 bits, read them as signed. */
  function Wrap32(x: int): (r: int)
    ensures IsInt32(r)
    ensures (x - r) % TwoTo32 == 0
    ensures IsInt32(x) ==> r == x
  {
    var m := x % TwoTo32;
    if m >= TwoTo31 then m - TwoTo32 else m
  }

  /** Wrapping is a ring homomorphism: wrapping an operand first changes
      nothing about a wrapped product. */
  lemma WrapMul(a: int, b: int)
    ensures Wrap32(a * Wrap32(b)) == Wrap32(a * b)
  {
    var k := (b - Wrap32(b)) / TwoTo32;
    assert b - Wrap32(b) == k * TwoTo32;
    assert a * b - a * Wrap32(b) == (a * k) * TwoTo32;
    WrapCongruent(a * b, a * Wrap32(b), a * k);
  }

  lemma WrapCongruent(x: int, y: int, k: int)
    requires x - y == k * TwoTo32
    ensures Wrap32(x) == Wrap32(y)
  {
    assert x % TwoTo32 == y % TwoTo32;
  }

  function Abs(x: int): nat
  {
    if x < 0 then -x else x
  }

  /** Euclidean division of naturals brackets the dividend. */
  lemma DivBrackets(x: nat, y: nat)
    requires y > 0
    ensures 0 <= x / y && (x / y) * y <= x < (x / y + 1) * y
  {
    var n, r := x / y, x % y;
    assert x == n * y + r && 0 <= r < y;
    assert (n + 1) * y == n * y + y;
  }

  /** C division: the quotient is truncated toward zero. */
  function TruncDiv(a: int, b: int): (q: int)
    requires b != 0
    ensures Abs(q) * Abs(b) <= Abs(a) < (Abs(q) + 1) * Abs(b)
    ensures q == 0 || ((q > 0) <==> ((a > 0) == (b > 0)))
  {
    var n := Abs(a) / Abs(b);
    DivBrackets(Abs(a), Abs(b));
    if (a >= 0) == (b > 0) then n else -n
  }

  /** C remainder: takes the sign of the dividend. */
  function TruncMod(a: int, b: int): (r: int)
    requires b != 0
    ensures a == b * TruncDiv(a, b) + r
    ensures Abs(r) < Abs(b)
  {
    a - b * TruncDiv(a, b)
  }
}
