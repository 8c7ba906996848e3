/** The operator table of the expression evaluator and the operator
    functions it points to.  Every operator computes on 32-bit `int`s:
    results wrap modulo 2^32, shift counts are taken modulo 32 (what an
    x86 shift instruction does; C leaves larger counts undefined), `>>` is
    arithmetic, and `/`, `%` truncate toward zero. */
module Operators {
  import opened Words
  import opened Lexer
  import opened Errors
  import Modes
  import opened Bits

  datatype Assoc = AssocNone | AssocLeft | AssocRight

  /** The op_ids enumeration. */
  datatype OpId =
    | OpNotUsed | ParenOpen | ParenClose | Comma | LogicalNot | Invert | Mul | Div | Mod
    | Add | Sub | ShiftUp | ShiftDown | BitAnd | Exp | BitOr | BitXor

  /** One row of the table: the operator text, its id, its associativity,
      its binding level (lower binds tighter) and whether it is unary. */
  datatype Op = Op(text: string, id: OpId, assoc: Assoc, level: nat, unary: bool)

  const OpenOp: Op := Op("(", ParenOpen, AssocNone, 20, false)
  const CloseOp: Op := Op(")", ParenClose, AssocNone, 20, false)

  /** The rows of `ops`, without the terminating empty row. */
  const Ops: seq<Op> := [
    OpenOp,
    CloseOp,
    Op(",", Comma, AssocLeft, 1, false),
    Op("!", LogicalNot, AssocRight, 2, true),
    Op("~", Invert, AssocRight, 2, true),
    Op("*", Mul, AssocLeft, 3, false),
    Op("/", Div, AssocLeft, 3, false),
    Op("%", Mod, AssocLeft, 3, false),
    Op("+", Add, AssocLeft, 4, false),
    Op("-", Sub, AssocLeft, 4, false),
    Op("<<", ShiftUp, AssocLeft, 5, false),
    Op(">>", ShiftDown, AssocLeft, 6, false),
    Op("&", BitAnd, AssocLeft, 8, false),
    Op("^", Exp, AssocLeft, 9, false),
    Op("|", BitOr, AssocLeft, 10, false),
    Op(":", BitXor, AssocLeft, 11, false)
  ]

  /** The row of the table that carries an operator id (the terminator's
      id has no row; `(` stands in for it). */
  function Row(id: OpId): Op
  {
    match id
    case OpNotUsed => OpenOp
    case ParenOpen => Ops[0]
    case ParenClose => Ops[1]
    case Comma => Ops[2]
    case LogicalNot => Ops[3]
    case Invert => Ops[4]
    case Mul => Ops[5]
    case Div => Ops[6]
    case Mod => Ops[7]
    case Add => Ops[8]
    case Sub => Ops[9]
    case ShiftUp => Ops[10]
    case ShiftDown => Ops[11]
    case BitAnd => Ops[12]
    case Exp => Ops[13]
    case BitOr => Ops[14]
    case BitXor => Ops[15]
  }

  /** The operator is one of the table's rows. */
  predicate Listed(op: Op)
  {
    op.id != OpNotUsed && op == Row(op.id)
  }

  /** Every row of the table is listed. */
  lemma RowListed(k: nat)
    requires k < |Ops|
    ensures Listed(Ops[k])
  {
  }

  /** The row at index k, known to be listed. */
  function OpAt(k: nat): (op: Op)
    requires k < |Ops|
    ensures op == Ops[k] && Listed(op)
  {
    RowListed(k);
    Ops[k]
  }

  /** Facts about the table the evaluator relies on: every row has a level
      between 1 and 20 (so the scan over it stops only at the terminator),
      exactly `!` and `~` are unary, and only the parentheses sit at 20. */
  lemma TableShape(op: Op)
    requires Listed(op)
    ensures 1 <= op.level <= 20
    ensures op.unary <==> op.id in {LogicalNot, Invert}
    ensures op.level == 20 <==> op.id in {ParenOpen, ParenClose}
    ensures op.id == ParenOpen <==> op == OpenOp
    ensures op.assoc == AssocNone <==> op.level == 20
    ensures 1 <= |op.text| <= 2
  {
  }

  // The operator functions

  /** eval_not: logical negation. */
  function EvalNot(a1: int): (r: int)
    ensures r == 0 || r == 1
    ensures r == 1 <==> a1 == 0
  {
    if a1 == 0 then 1 else 0
  }

  /** eval_inv: bitwise complement of the 32 bits. */
  function EvalInv(a1: int): (r: int)
    ensures IsInt32(r)
    ensures IsInt32(a1) ==> r == -a1 - 1
  {
    ComplementOfInt(a1);
    Wrap32(Complement(Unsigned(a1), 32))
  }

  lemma ComplementOfInt(a: int)
    ensures IsInt32(a) ==> Wrap32(Complement(Unsigned(a), 32)) == -a - 1
  {
    Pow2Of32();
    ComplementValue(Unsigned(a), 32);
    if IsInt32(a) {
      var c := Complement(Unsigned(a), 32);
      if a >= 0 {
        assert Unsigned(a) == a;
        assert c == TwoTo32 - 1 - a;
        WrapCongruent(c, -a - 1, 1);
      } else {
        assert Unsigned(a) == a + TwoTo32;
        assert c == -a - 1;
      }
    }
  }

  /** eval_mul, eval_add and eval_sub: the exact result reduced to 32 bits. */
  function EvalMul(a1: int, a2: int): (r: int)
    ensures IsInt32(r) && (a1 * a2 - r) % TwoTo32 == 0
  {
    Wrap32(a1 * a2)
  }

  function EvalAdd(a1: int, a2: int): (r: int)
    ensures IsInt32(r) && (a1 + a2 - r) % TwoTo32 == 0
  {
    Wrap32(a1 + a2)
  }

  function EvalSub(a1: int, a2: int): (r: int)
    ensures IsInt32(r) && (a1 - a2 - r) % TwoTo32 == 0
  {
    Wrap32(a1 - a2)
  }

  /** Subtraction undoes addition on 32-bit values, overflow included. */
  lemma AddSubInverse(a: int, b: int)
    requires IsInt32(a) && IsInt32(b)
    ensures EvalSub(EvalAdd(a, b), b) == a
  {
    var s := EvalAdd(a, b);
    var k := (a + b - s) / TwoTo32;
    assert a + b - s == k * TwoTo32;
    WrapCongruent(s - b, a, -k);
  }

  /** eval_div and eval_mod: a zero divisor ends the process; otherwise the
      quotient truncates toward zero and the remainder takes the dividend's
      sign.  INT_MIN / -1 wraps. */
  function EvalDiv(a1: int, a2: int): (r: Res<int>)
    ensures r.Abort? <==> a2 == 0
    ensures r.Abort? ==> r.fatal == DivisionByZero
    ensures r.Ok? ==> IsInt32(r.val)
    ensures r.Ok? && IsInt32(a1) && !(a1 == -TwoTo31 && a2 == -1) ==>
      Abs(r.val) * Abs(a2) <= Abs(a1) < (Abs(r.val) + 1) * Abs(a2)
  {
    if a2 == 0 then Abort(DivisionByZero)
    else
      QuotientFits(a1, a2);
      Ok(Wrap32(TruncDiv(a1, a2)))
  }

  function EvalMod(a1: int, a2: int): (r: Res<int>)
    ensures r.Abort? <==> a2 == 0
    ensures r.Abort? ==> r.fatal == DivisionByZero
    ensures r.Ok? && IsInt32(a1) && IsInt32(a2) ==> Abs(r.val) < Abs(a2) && r.val == TruncMod(a1, a2)
  {
    if a2 == 0 then Abort(DivisionByZero)
    else
      RemainderFits(a1, a2);
      Ok(Wrap32(TruncMod(a1, a2)))
  }

  lemma QuotientFits(a: int, b: int)
    requires b != 0
    ensures IsInt32(a) && !(a == -TwoTo31 && b == -1) ==> IsInt32(TruncDiv(a, b))
  {
    var q := TruncDiv(a, b);
    if Abs(b) == 1 {
      OneTimes(Abs(q));
    } else {
      MulMonotone(Abs(q), 2, Abs(b));
    }
  }

  lemma OneTimes(n: nat)
    ensures n * 1 == n
  {
  }

  lemma MulMonotone(n: nat, x: nat, y: nat)
    requires x <= y
    ensures n * x <= n * y
  {
  }

  lemma RemainderFits(a: int, b: int)
    requires b != 0
    ensures IsInt32(a) && IsInt32(b) ==> IsInt32(TruncMod(a, b))
  {
  }

  /** Division and remainder recombine into the dividend whenever the
      quotient is representable. */
  lemma DivModIdentity(a: int, b: int)
    requires IsInt32(a) && IsInt32(b) && b != 0 && !(a == -TwoTo31 && b == -1)
    ensures EvalDiv(a, b).val * b + EvalMod(a, b).val == a
  {
    var q := TruncDiv(a, b);
    QuotientFits(a, b);
    assert EvalDiv(a, b).val == q;
    assert EvalMod(a, b).val == TruncMod(a, b) == a - b * q;
    assert q * b == b * q;
  }

  /** eval_shift_up: shift left by the count modulo 32, keeping 32 bits. */
  function EvalShiftUp(a1: int, a2: int): (r: int)
    ensures IsInt32(r) && (a1 * Modes.Pow2(a2 % 32) - r) % TwoTo32 == 0
  {
    Wrap32(a1 * Modes.Pow2(a2 % 32))
  }

  /** eval_shift_dn: arithmetic shift right by the count modulo 32, which
      rounds toward minus infinity. */
  function EvalShiftDown(a1: int, a2: int): (r: int)
    ensures r * Modes.Pow2(a2 % 32) <= a1 < (r + 1) * Modes.Pow2(a2 % 32)
  {
    a1 / Modes.Pow2(a2 % 32)
  }

  /** A left shift that does not overflow is undone by a right shift. */
  lemma ShiftRoundTrip(a: int, k: int)
    requires 0 <= k < 32
    requires 0 <= a * Modes.Pow2(k) < TwoTo31
    ensures EvalShiftDown(EvalShiftUp(a, k), k) == a
  {
    var p := Modes.Pow2(k);
    assert k % 32 == k;
    assert EvalShiftUp(a, k) == Wrap32(a * p) == a * p;
    assert EvalShiftDown(a * p, k) == (a * p) / p;
    MulDivCancel(a, p);
  }

  lemma MulDivCancel(a: int, p: int)
    requires p > 0
    ensures (a * p) / p == a
  {
    var q := (a * p) / p;
    var r := (a * p) % p;
    assert a * p == q * p + r && 0 <= r < p;
    assert (a - q) * p == r;
    if a - q >= 1 {
      MulMonotone(p, 1, a - q);
    } else if a - q <= -1 {
      MulMonotone(p, 1, q - a);
    }
  }

  /** eval_and, eval_or and eval_xor: bitwise on the 32 bits. */
  function EvalAnd(a1: int, a2: int): (r: int)
    ensures IsInt32(r)
    ensures forall k :: 0 <= k < 32 ==> Modes.Bit(Unsigned(r), k) == Combine(AndBits, Modes.Bit(Unsigned(a1), k), Modes.Bit(Unsigned(a2), k))
  {
    Word(AndBits, a1, a2)
  }

  function EvalOr(a1: int, a2: int): (r: int)
    ensures IsInt32(r)
    ensures forall k :: 0 <= k < 32 ==> Modes.Bit(Unsigned(r), k) == Combine(OrBits, Modes.Bit(Unsigned(a1), k), Modes.Bit(Unsigned(a2), k))
  {
    Word(OrBits, a1, a2)
  }

  function EvalXor(a1: int, a2: int): (r: int)
    ensures IsInt32(r)
    ensures forall k :: 0 <= k < 32 ==> Modes.Bit(Unsigned(r), k) == Combine(XorBits, Modes.Bit(Unsigned(a1), k), Modes.Bit(Unsigned(a2), k))
  {
    Word(XorBits, a1, a2)
  }

  /** `:` with the same right operand twice gives the left operand back. */
  lemma XorInvolution(a: int, b: int)
    requires IsInt32(a)
    ensures EvalXor(EvalXor(a, b), b) == a
  {
    Pow2Of32();
    var w := Bitwise(XorBits, Unsigned(a), Unsigned(b), 32);
    UnsignedOfWrap(w);
    XorTwice(Unsigned(a), Unsigned(b), 32);
    WrapOfUnsigned(a);
  }

  /** eval_exp: 0 for a negative exponent, 1 for zero, otherwise a1 times
      the next smaller power; every product is a 32-bit `int`. */
  function EvalExp(a1: int, a2: int): (r: int)
    ensures IsInt32(r)
    decreases a2
  {
    if a2 < 0 then 0 else if a2 == 0 then 1 else Wrap32(a1 * EvalExp(a1, a2 - 1))
  }

  function Pow(a: int, n: nat): int
  {
    if n == 0 then 1 else a * Pow(a, n - 1)
  }

  /** Wrapping at each step gives the true power reduced to 32 bits. */
  lemma {:induction false} ExpIsPower(a: int, n: nat)
    ensures EvalExp(a, n) == Wrap32(Pow(a, n))
  {
    if n > 0 {
      ExpIsPower(a, n - 1);
      WrapMul(a, Pow(a, n - 1));
    }
  }

  /** eval_comma: the left operand. */
  function EvalComma(a1: int, a2: int): (r: int)
    ensures r == a1
  {
    a1
  }

  /** Calling an operator's eval pointer.  The parentheses have none, and
      calling through it ends the process. */
  function Apply(op: Op, a1: int, a2: int): (r: Res<int>)
    ensures r.Abort? <==> op.id in {OpNotUsed, ParenOpen, ParenClose} || (op.id in {Div, Mod} && a2 == 0)
  {
    match op.id
    case OpNotUsed => Abort(NullEvaluator)
    case ParenOpen => Abort(NullEvaluator)
    case ParenClose => Abort(NullEvaluator)
    case Comma => Ok(EvalComma(a1, a2))
    case LogicalNot => Ok(EvalNot(a1))
    case Invert => Ok(EvalInv(a1))
    case Mul => Ok(EvalMul(a1, a2))
    case Div => EvalDiv(a1, a2)
    case Mod => EvalMod(a1, a2)
    case Add => Ok(EvalAdd(a1, a2))
    case Sub => Ok(EvalSub(a1, a2))
    case ShiftUp => Ok(EvalShiftUp(a1, a2))
    case ShiftDown => Ok(EvalShiftDown(a1, a2))
    case BitAnd => Ok(EvalAnd(a1, a2))
    case Exp => Ok(EvalExp(a1, a2))
    case BitOr => Ok(EvalOr(a1, a2))
    case BitXor => Ok(EvalXor(a1, a2))
  }

  // is_operator

  /** The operator text appears at position j of the line. */
  predicate TextAt(text: string, s: string, j: nat)
  {
    forall t :: 0 <= t < |text| ==> At(s, j + t) == text[t]
  }

  /** The first row at or after k whose text appears at j. */
  function FindOp(s: string, j: nat, k: nat): (r: Option<nat>)
    ensures r.Some? ==> k <= r.value < |Ops| && TextAt(Ops[r.value].text, s, j)
    ensures r.Some? ==> forall i :: k <= i < r.value ==> !TextAt(Ops[i].text, s, j)
    ensures r.None? ==> forall i :: k <= i < |Ops| ==> !TextAt(Ops[i].text, s, j)
    decreases |Ops| - k
  {
    if k >= |Ops| then None
    else if TextAt(Ops[k].text, s, j) then Some(k)
    else FindOp(s, j, k + 1)
  }

  /** is_operator: scans the rows until the terminator (level 0). */
  method IsOperator(s: string, j: nat) returns (r: Option<nat>)
    ensures r == FindOp(s, j, 0)
  {
    var k := 0;
    while k < |Ops|
      invariant 0 <= k <= |Ops|
      invariant FindOp(s, j, 0) == FindOp(s, j, k)
    {
      if TextAt(Ops[k].text, s, j) {
        return Some(k);
      }
      k := k + 1;
    }
    return None;
  }

  /** The characters that start an operator: any of ( ) , ! ~ * / % + - &
      ^ | : on its own, and < or > only when doubled. */
  predicate StartsOperator(s: string, j: nat)
  {
    At(s, j) in "(),!~*/%+-&^|:" || (At(s, j) in "<>" && At(s, j + 1) == At(s, j))
  }

  /** Each row's text is one of the starting characters on its own, or a
      doubled < or >. */
  lemma RowText(k: nat)
    requires k < |Ops|
    ensures |Ops[k].text| == 1 || Ops[k].text in {"<<", ">>"}
    ensures |Ops[k].text| == 1 ==> Ops[k].text[0] in "(),!~*/%+-&^|:"
  {
  }

  /** Nothing but an operator start is taken for an operator: in particular
      a single < or > is not one. */
  lemma FoundStartsOperator(s: string, j: nat)
    requires FindOp(s, j, 0).Some?
    ensures StartsOperator(s, j)
  {
    var text := Ops[FindOp(s, j, 0).value].text;
    RowText(FindOp(s, j, 0).value);
    assert At(s, j + 0) == text[0];
    if |text| == 2 {
      assert At(s, j + 1) == text[1];
    }
  }
}
