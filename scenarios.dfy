/** Worked examples of eval_expr and evaluate_address on concrete lines.
    Each one follows the C code step by step, so each shows what the
    assembler as written does with that line, including where that differs
    from what the expression syntax suggests. */
module Scenarios {
  import opened Errors
  import opened Words
  import opened Lexer
  import opened Symbols
  import opened Operators
  import opened Expression
  import opened Tables
  import opened Lines

  const Minus: Op := Op("-", Sub, AssocLeft, 4, false)
  const Plus: Op := Op("+", Add, AssocLeft, 4, false)
  const Star: Op := Op("*", Mul, AssocLeft, 3, false)
  const Shl: Op := Op("<<", ShiftUp, AssocLeft, 5, false)
  const E0: Env := Env([], 0, None)
  const Empty: Cells := Cells(Machine([], []), 0, 0)

  // 10-2-3: a run of subtractions is grouped from the right

  const Chain: string := "10-2-3"

  /** An operator text whose first character is not the one at j is not there. */
  lemma Differs(text: string, s: string, j: nat)
    requires |text| > 0 && At(s, j) != text[0]
    ensures !TextAt(text, s, j)
  {
    assert At(s, j + 0) != text[0];
  }

  /** A decimal digit under the cursor is a numeral read in base 10 from
      there. */
  lemma DigitOperand(env: Env, s: string, j: nat, c: Cells, wantReg: bool)
    requires EnvOk(env) && WellFormed(c.m) && IsDigit(At(s, j))
    ensures Operand(env, s, j, c, false, wantReg) == Digits(s, j, 10, c)
  {
    assert !IsAlpha(At(s, j));
  }

  /** A radix prefix followed by a digit of that radix is a numeral read
      in that base from the character after the prefix. */
  lemma PrefixedOperand(env: Env, s: string, j: nat, c: Cells, base: nat)
    requires EnvOk(env) && WellFormed(c.m)
    requires (base == 16 && At(s, j) == '$' && IsXDigit(At(s, j + 1))) ||
             (base == 2 && At(s, j) == '%' && IsDigit(At(s, j + 1))) ||
             (base == 8 && At(s, j) == '&' && IsDigit(At(s, j + 1)))
    ensures Operand(env, s, j, c, false, false) == Digits(s, j + 1, base, c)
  {
  }

  /** strtoul on an unsigned run of n digits that starts at i. */
  lemma Converted(s: string, i: nat, base: nat, n: nat, v: nat)
    requires base in {2, 8, 10, 16}
    requires FirstNonWhite(s, i) == i && At(s, i) != '-' && DigitStart(s, i, base) == i
    requires DigitRun(s, i, base) == n && 0 < n
    requires DigitsValue(s, i, n, base) == v && v <= ULongMax
    ensures StrToUL(s, i, base) == Conversion(v, i + n, false)
  {
  }

  /** A numeral strtoul reads without a range error, and that fits an
      int, is pushed when the number stack has room. */
  lemma Pushed(s: string, k: nat, base: nat, c: Cells, v: nat, stop: nat)
    requires WellFormed(c.m) && base in {2, 8, 10, 16} && |c.m.nums| < MaxNumStack
    requires StrToUL(s, k, base) == Conversion(v, stop, false) && IsInt32(v)
    ensures Digits(s, k, base, c) == Ok(Next(Cells(c.m.(nums := c.m.nums + [v]), v, c.reg), stop))
  {
  }

  lemma StepPushed(m: Machine, p: Op, m1: Machine)
    requires WellFormed(m) && Listed(p) && p.id != ParenOpen && p.id != ParenClose
    requires PopWhileBinds(m, p) == Ok(m1) && |m1.ops| < MaxOpStack
    ensures OperatorStep(m, p) == Ok(Step(m1.(ops := m1.ops + [p]), false))
  {
    assert PushOp(m1, p) == Ok(m1.(ops := m1.ops + [p]));
  }

  /** Whatever step the operator found at j takes, OperatorPart takes it. */
  lemma StepTaken(s: string, j: nat, m: Machine, k: nat, st: Step)
    requires WellFormed(m) && FindOp(s, j, 0) == Some(k)
    requires OperatorStep(m, OpAt(k)) == Ok(st)
    ensures OperatorPart(s, j, m) == Ok(Advance(st, j + |Ops[k].text|, Ops[k].id == ParenClose))
  {
    OperatorFound(s, j, m, k);
  }

  /** The three numerals of 10-2-3. */
  lemma Number1()
    ensures StrToUL(Chain, 0, 10) == Conversion(10, 2, false)
  {
    assert FirstNonWhite(Chain, 0) == 0;
    assert DigitStart(Chain, 0, 10) == 0;
    assert DigitRun(Chain, 2, 10) == 0;
    assert DigitRun(Chain, 1, 10) == 1;
    assert DigitRun(Chain, 0, 10) == 2;
    assert DigitsValue(Chain, 0, 1, 10) == 1;
    assert DigitsValue(Chain, 0, 2, 10) == 10;
    Converted(Chain, 0, 10, 2, 10);
  }

  lemma Number2()
    ensures StrToUL(Chain, 3, 10) == Conversion(2, 4, false)
  {
    assert FirstNonWhite(Chain, 3) == 3;
    assert DigitStart(Chain, 3, 10) == 3;
    assert DigitRun(Chain, 4, 10) == 0;
    assert DigitRun(Chain, 3, 10) == 1;
    assert DigitsValue(Chain, 3, 1, 10) == 2;
    Converted(Chain, 3, 10, 1, 2);
  }

  lemma Number3()
    ensures StrToUL(Chain, 5, 10) == Conversion(3, 6, false)
  {
    assert FirstNonWhite(Chain, 5) == 5;
    assert DigitStart(Chain, 5, 10) == 5;
    assert DigitRun(Chain, 5, 10) == 1;
  }

  /** Both `-` signs are found at row 9 of the table. */
  lemma MinusAt(j: nat)
    requires j == 2 || j == 4
    ensures FindOp(Chain, j, 0) == Some(9)
  {
    forall k | 0 <= k < 9 ensures !TextAt(Ops[k].text, Chain, j) {
      Differs(Ops[k].text, Chain, j);
    }
    assert TextAt(Ops[9].text, Chain, j);
  }


  lemma Digits3()
    ensures Digits(Chain, 5, 10, Cells(Machine([Minus, Minus], [10, 2]), 2, 0))
      == Ok(Next(Cells(Machine([Minus, Minus], [10, 2, 3]), 3, 0), 6))
  {
    Number3();
    Pushed(Chain, 5, 10, Cells(Machine([Minus, Minus], [10, 2]), 2, 0), 3, 6);
    assert [10, 2] + [3] == [10, 2, 3];
  }

  lemma Operand3()
    ensures Operand(E0, Chain, 5, Cells(Machine([Minus, Minus], [10, 2]), 2, 0), false, false)
      == Ok(Next(Cells(Machine([Minus, Minus], [10, 2, 3]), 3, 0), 6))
  {
    assert At(Chain, 5) == '3';
    DigitOperand(E0, Chain, 5, Cells(Machine([Minus, Minus], [10, 2]), 2, 0), false);
    Digits3();
  }

  /** The drain at the end of the line: 2-3 first, then 10-(-1). */
  lemma Drain3()
    ensures Drain(Machine([Minus, Minus], [10, 2, 3])) == Ok(Machine([], [11]))
  {
    assert Minus.id == Sub && !Minus.unary;
    assert Apply(Minus, 2, 3) == Ok(-1);
    assert Apply(Minus, 10, -1) == Ok(11);
    var m := Machine([Minus, Minus], [10, 2, 3]);
    assert [Minus, Minus][..1] == [Minus] && [Minus][..0] == [];
    assert [10, 2, 3][..2] == [10, 2] && [10, 2][..1] == [10] && [10, -1][..1] == [10] && [10][..0] == [];
    assert PopOp(m) == Ok(Popped(Minus, Machine([Minus], [10, 2, 3])));
    assert PopNum(Machine([Minus], [10, 2, 3])) == Ok(Popped(3, Machine([Minus], [10, 2])));
    assert PopNum(Machine([Minus], [10, 2])) == Ok(Popped(2, Machine([Minus], [10])));
    assert [10] + [-1] == [10, -1];
    assert PushNum(Machine([Minus], [10]), -1) == Ok(Machine([Minus], [10, -1]));
    assert PopApply(m) == Ok(Popped(Minus, Machine([Minus], [10, -1])));
    var m1 := Machine([Minus], [10, -1]);
    assert PopOp(m1) == Ok(Popped(Minus, Machine([], [10, -1])));
    assert PopNum(Machine([], [10, -1])) == Ok(Popped(-1, Machine([], [10])));
    assert PopNum(Machine([], [10])) == Ok(Popped(10, Machine([], [])));
    assert [] + [11] == [11];
    assert PushNum(Machine([], []), 11) == Ok(Machine([], [11]));
    assert PopApply(m1) == Ok(Popped(Minus, Machine([], [11])));
    assert Drain(Machine([], [11])) == Ok(Machine([], [11]));
    assert Drain(m1) == Ok(Machine([], [11]));
  }

  lemma After3()
    ensures EvalAfter(E0, Chain, 5, 5, Cells(Machine([Minus, Minus], [10, 2, 3]), 3, 0), 6, false, false)
      == Ok(EvalResult(None, Cells(Machine([], []), 11, 0), Some(6)))
  {
    NoOperatorAtEnd(Chain);
    Drain3();
    assert FirstNonWhite(Chain, 6) == 6;
  }

  // The three recursive calls of eval_expr, innermost first

  lemma ThirdCall()
    ensures Eval(E0, Chain, 5, Cells(Machine([Minus, Minus], [10, 2]), 2, 0), false, false)
      == Ok(EvalResult(None, Cells(Machine([], []), 11, 0), Some(6)))
  {
    assert FirstNonWhite(Chain, 5) == 5;
    Operand3();
    After3();
  }

  lemma Digits2()
    ensures Digits(Chain, 3, 10, Cells(Machine([Minus], [10]), 10, 0))
      == Ok(Next(Cells(Machine([Minus], [10, 2]), 2, 0), 4))
  {
    Number2();
    Pushed(Chain, 3, 10, Cells(Machine([Minus], [10]), 10, 0), 2, 4);
    assert [10] + [2] == [10, 2];
  }

  lemma Operand2()
    ensures Operand(E0, Chain, 3, Cells(Machine([Minus], [10]), 10, 0), false, false)
      == Ok(Next(Cells(Machine([Minus], [10, 2]), 2, 0), 4))
  {
    assert At(Chain, 3) == '2';
    DigitOperand(E0, Chain, 3, Cells(Machine([Minus], [10]), 10, 0), false);
    Digits2();
  }

  lemma Part2()
    ensures OperatorPart(Chain, 4, Machine([Minus], [10, 2]))
      == Ok(Advance(Step(Machine([Minus, Minus], [10, 2]), false), 5, false))
  {
    MinusAt(4);
    MinusStep2();
    assert OpAt(9) == Minus;
    StepTaken(Chain, 4, Machine([Minus], [10, 2]), 9, Step(Machine([Minus, Minus], [10, 2]), false));
  }

  lemma MinusStep2()
    ensures OperatorStep(Machine([Minus], [10, 2]), Minus) == Ok(Step(Machine([Minus, Minus], [10, 2]), false))
  {
    assert !Binds(Minus, Minus);
    assert PopWhileBinds(Machine([Minus], [10, 2]), Minus) == Ok(Machine([Minus], [10, 2]));
    assert [Minus] + [Minus] == [Minus, Minus];
    StepPushed(Machine([Minus], [10, 2]), Minus, Machine([Minus], [10, 2]));
  }

  lemma After2()
    ensures EvalAfter(E0, Chain, 3, 3, Cells(Machine([Minus], [10, 2]), 2, 0), 4, false, false)
      == Ok(EvalResult(None, Cells(Machine([], []), 11, 0), None))
  {
    Part2();
    ThirdCall();
    assert FirstNonWhite(Chain, 4) == 4 && FirstNonWhite(Chain, 5) == 5;
    assert At(Chain, 5) == '3' && !IsEndOfArg('3');
  }

  lemma SecondCall()
    ensures Eval(E0, Chain, 3, Cells(Machine([Minus], [10]), 10, 0), false, false)
      == Ok(EvalResult(None, Cells(Machine([], []), 11, 0), None))
  {
    assert FirstNonWhite(Chain, 3) == 3;
    Operand2();
    After2();
  }

  lemma Digits1()
    ensures Digits(Chain, 0, 10, Cells(Machine([], []), 0, 0))
      == Ok(Next(Cells(Machine([], [10]), 10, 0), 2))
  {
    Number1();
    Pushed(Chain, 0, 10, Empty, 10, 2);
    assert [] + [10] == [10];
  }

  lemma Operand1()
    ensures Operand(E0, Chain, 0, Cells(Machine([], []), 0, 0), false, false)
      == Ok(Next(Cells(Machine([], [10]), 10, 0), 2))
  {
    assert At(Chain, 0) == '1';
    DigitOperand(E0, Chain, 0, Cells(Machine([], []), 0, 0), false);
    Digits1();
  }

  lemma Part1()
    ensures OperatorPart(Chain, 2, Machine([], [10]))
      == Ok(Advance(Step(Machine([Minus], [10]), false), 3, false))
  {
    MinusAt(2);
    MinusStep1();
    assert OpAt(9) == Minus;
    StepTaken(Chain, 2, Machine([], [10]), 9, Step(Machine([Minus], [10]), false));
  }

  lemma MinusStep1()
    ensures OperatorStep(Machine([], [10]), Minus) == Ok(Step(Machine([Minus], [10]), false))
  {
    assert PopWhileBinds(Machine([], [10]), Minus) == Ok(Machine([], [10]));
    assert [] + [Minus] == [Minus];
    StepPushed(Machine([], [10]), Minus, Machine([], [10]));
  }

  lemma After1()
    ensures EvalAfter(E0, Chain, 0, 0, Cells(Machine([], [10]), 10, 0), 2, false, false)
      == Ok(EvalResult(None, Cells(Machine([], []), 11, 0), None))
  {
    Part1();
    SecondCall();
    assert FirstNonWhite(Chain, 2) == 2 && FirstNonWhite(Chain, 3) == 3;
    assert At(Chain, 3) == '2' && !IsEndOfArg('2');
  }

  /** 10-2-3 evaluates to 11, that is 10-(2-3): the second `-` does not
      pop the first (for a left-associative operator the loop pops only a
      strictly lower level), so both wait for the drain, which applies the
      later one first. */
  lemma SubtractionsGroupFromRight()
    ensures Eval(E0, Chain, 0, Cells(Machine([], []), 0, 0), false, false)
      == Ok(EvalResult(None, Cells(Machine([], []), 11, 0), None))
  {
    assert FirstNonWhite(Chain, 0) == 0;
    Operand1();
    After1();
  }

  // Helpers for a line that is a single operand

  /** No operator starts at the end of a line: every operator text begins
      with a visible character. */
  lemma NoOperatorAtEnd(s: string)
    ensures FindOp(s, |s|, 0).None?
  {
    forall k | 0 <= k < |Ops| ensures !TextAt(Ops[k].text, s, |s|) {
      RowListed(k);
      TableShape(Ops[k]);
      VisibleText(Ops[k]);
      Differs(Ops[k].text, s, |s|);
    }
  }

  lemma VisibleText(op: Op)
    requires Listed(op)
    ensures |op.text| > 0 && op.text[0] != '\0'
  {
  }

  /** A line whose only content is an operand read from position 0 to its
      end: nothing is left to apply, the one number becomes the value, and
      the end of the line is written through outptr. */
  lemma LoneOperand(env: Env, s: string, c: Cells, c1: Cells, v: int)
    requires EnvOk(env) && WellFormed(c.m) && |s| > 0 && !IsSpace(s[0])
    requires Operand(env, s, 0, c, false, false) == Ok(Next(c1, |s|))
    requires c1.m == Machine([], [v])
    ensures Eval(env, s, 0, c, false, false) == Ok(EvalResult(None, Cells(Machine([], []), v, c1.reg), Some(|s|)))
  {
    assert FirstNonWhite(s, 0) == 0;
    assert FirstNonWhite(s, |s|) == |s|;
    NoOperatorAtEnd(s);
    assert Drain(c1.m) == Ok(c1.m);
    assert Pop([v]) == [];
  }

  // Numerals in the other radixes

  lemma HexDigits()
    ensures StrToUL("$FF", 1, 16) == Conversion(255, 3, false)
  {
    var s := "$FF";
    assert FirstNonWhite(s, 1) == 1;
    assert DigitStart(s, 1, 16) == 1;
    assert DigitRun(s, 3, 16) == 0;
    assert DigitRun(s, 1, 16) == 2;
    assert DigitsValue(s, 1, 1, 16) == 15;
    assert DigitsValue(s, 1, 2, 16) == 255;
    Converted(s, 1, 16, 2, 255);
  }

  lemma HexNumber()
    ensures Digits("$FF", 1, 16, Empty) == Ok(Next(Cells(Machine([], [255]), 255, 0), 3))
  {
    HexDigits();
    Pushed("$FF", 1, 16, Empty, 255, 3);
    assert [] + [255] == [255];
  }

  lemma HexOperand()
    ensures Operand(E0, "$FF", 0, Empty, false, false) == Ok(Next(Cells(Machine([], [255]), 255, 0), 3))
  {
    HexStart();
    PrefixedOperand(E0, "$FF", 0, Empty, 16);
    HexNumber();
  }

  /** `$FF` is hexadecimal 255. */
  lemma HexStart()
    ensures At("$FF", 0) == '$' && IsXDigit(At("$FF", 1))
  {
    assert At("$FF", 1) == 'F';
  }

  lemma HexNumeral()
    ensures Eval(E0, "$FF", 0, Empty, false, false) == Ok(EvalResult(None, Cells(Machine([], []), 255, 0), Some(3)))
  {
    HexOperand();
    LoneOperand(E0, "$FF", Empty, Cells(Machine([], [255]), 255, 0), 255);
  }

  lemma BinaryDigits()
    ensures StrToUL("%1010", 1, 2) == Conversion(10, 5, false)
  {
    var s := "%1010";
    assert FirstNonWhite(s, 1) == 1;
    assert DigitStart(s, 1, 2) == 1;
    assert DigitRun(s, 5, 2) == 0;
    assert DigitRun(s, 3, 2) == 2;
    assert DigitRun(s, 1, 2) == 4;
    assert DigitsValue(s, 1, 2, 2) == 2;
    assert DigitsValue(s, 1, 4, 2) == 10;
    Converted(s, 1, 2, 4, 10);
  }

  lemma BinaryNumber()
    ensures Digits("%1010", 1, 2, Empty) == Ok(Next(Cells(Machine([], [10]), 10, 0), 5))
  {
    BinaryDigits();
    Pushed("%1010", 1, 2, Empty, 10, 5);
    assert [] + [10] == [10];
  }

  lemma BinaryOperand()
    ensures Operand(E0, "%1010", 0, Empty, false, false) == Ok(Next(Cells(Machine([], [10]), 10, 0), 5))
  {
    assert At("%1010", 0) == '%' && At("%1010", 1) == '1';
    PrefixedOperand(E0, "%1010", 0, Empty, 2);
    BinaryNumber();
  }

  /** `%1010` is binary 10. */
  lemma BinaryNumeral()
    ensures Eval(E0, "%1010", 0, Empty, false, false) == Ok(EvalResult(None, Cells(Machine([], []), 10, 0), Some(5)))
  {
    BinaryOperand();
    LoneOperand(E0, "%1010", Empty, Cells(Machine([], [10]), 10, 0), 10);
  }

  lemma OctalDigits()
    ensures StrToUL("&17", 1, 8) == Conversion(15, 3, false)
  {
    var s := "&17";
    assert FirstNonWhite(s, 1) == 1;
    assert DigitStart(s, 1, 8) == 1;
    assert DigitRun(s, 3, 8) == 0;
    assert DigitRun(s, 1, 8) == 2;
    assert DigitsValue(s, 1, 2, 8) == 15;
  }

  lemma OctalNumber()
    ensures Digits("&17", 1, 8, Empty) == Ok(Next(Cells(Machine([], [15]), 15, 0), 3))
  {
    OctalDigits();
    Pushed("&17", 1, 8, Empty, 15, 3);
    assert [] + [15] == [15];
  }

  lemma OctalOperand()
    ensures Operand(E0, "&17", 0, Empty, false, false) == Ok(Next(Cells(Machine([], [15]), 15, 0), 3))
  {
    assert At("&17", 0) == '&' && At("&17", 1) == '1';
    PrefixedOperand(E0, "&17", 0, Empty, 8);
    OctalNumber();
  }

  /** `&17` is octal 15. */
  lemma OctalNumeral()
    ensures Eval(E0, "&17", 0, Empty, false, false) == Ok(EvalResult(None, Cells(Machine([], []), 15, 0), Some(3)))
  {
    OctalOperand();
    LoneOperand(E0, "&17", Empty, Cells(Machine([], [15]), 15, 0), 15);
  }

  // 2<<1*1+1: the pop loop passes an operator that binds looser

  /** The incoming `+` binds `*` but not `<<`; the loop pops `*` and then,
      comparing against the `*` it just popped rather than the new top,
      pops `<<` too, so 2<<1 is applied before `+` is pushed. */
  lemma PopPassesLooserOperator()
    ensures Binds(Plus, Star) && !Binds(Plus, Shl)
    ensures PopWhileBinds(Machine([Shl, Star], [2, 1, 1]), Plus) == Ok(Machine([], [4]))
  {
    var m := Machine([Shl, Star], [2, 1, 1]);
    PopStar();
    PopShl();
    assert PopChain(Machine([], [4]), Plus, Shl) == Ok(Machine([], [4]));
    PopChainStep(Machine([Shl], [2, 1]), Plus, Star);
    PopChainStep(m, Plus, Star);
  }

  lemma PopStar()
    ensures PopApply(Machine([Shl, Star], [2, 1, 1])) == Ok(Popped(Star, Machine([Shl], [2, 1])))
  {
    assert [Shl, Star][..1] == [Shl];
    assert [2, 1, 1][..2] == [2, 1] && [2, 1][..1] == [2];
    assert Apply(Star, 1, 1) == Ok(1);
    assert [2] + [1] == [2, 1];
  }

  lemma PopShl()
    ensures PopApply(Machine([Shl], [2, 1])) == Ok(Popped(Shl, Machine([], [4])))
  {
    assert [Shl][..0] == [];
    assert [2, 1][..1] == [2] && [2][..0] == [];
    assert Modes.Pow2(1) == 2;
    assert Apply(Shl, 2, 1) == Ok(4);
    assert [] + [4] == [4];
  }

  /** What the rest of the line then does: 4+1. */
  lemma ShiftedFirst()
    ensures Drain(Machine([Plus], [4, 1])) == Ok(Machine([], [5]))
  {
    assert [Plus][..0] == [] && [4, 1][..1] == [4] && [4][..0] == [];
    assert Apply(Plus, 4, 1) == Ok(5);
    assert [] + [5] == [5];
    assert PopApply(Machine([Plus], [4, 1])) == Ok(Popped(Plus, Machine([], [5])));
  }

  /** What a loop that peeked at the new top after each pop would have
      left, `<<` still stacked under `+`, drains to 2<<(1+1) = 8. */
  lemma ShiftedLast()
    ensures Drain(Machine([Shl, Plus], [2, 1, 1])) == Ok(Machine([], [8]))
  {
    SumFirst();
    ShiftSecond();
    assert Drain(Machine([], [8])) == Ok(Machine([], [8]));
    assert Drain(Machine([Shl], [2, 2])) == Ok(Machine([], [8]));
  }

  lemma SumFirst()
    ensures PopApply(Machine([Shl, Plus], [2, 1, 1])) == Ok(Popped(Plus, Machine([Shl], [2, 2])))
  {
    assert [Shl, Plus][..1] == [Shl];
    assert [2, 1, 1][..2] == [2, 1] && [2, 1][..1] == [2];
    assert Apply(Plus, 1, 1) == Ok(2);
    assert [2] + [2] == [2, 2];
  }

  lemma ShiftSecond()
    ensures PopApply(Machine([Shl], [2, 2])) == Ok(Popped(Shl, Machine([], [8])))
  {
    assert [Shl][..0] == [];
    assert [2, 2][..1] == [2] && [2][..0] == [];
    assert Modes.Pow2(2) == 4;
    assert Apply(Shl, 2, 2) == Ok(8);
    assert [] + [8] == [8];
  }

  // FOO+1 and PC+2: a name is looked up by the whole argument

  const Glued: string := "FOO+1"
  const Foo: Env := Env([Entry(None, None, "FOO", 3, 5)], 0, None)

  /** `+` does not end an argument, so the whole of FOO+1 is the argument. */
  lemma GluedArg()
    ensures Arg(Glued, 0) == Glued
  {
    assert FirstNonWhite(Glued, 0) == 0;
    assert ArgEnd(Glued, 5) == 5;
    assert ArgEnd(Glued, 0) == 5;
  }

  /** A name the argument does not start with is not a prefix of it. */
  lemma FirstDiffers(a: string, b: string)
    requires |a| > 0 && |b| > 0 && a[0] != b[0]
    ensures !IsPrefix(a, b)
  {
    if |a| <= |b| {
      assert b[..|a|][0] == b[0];
    }
  }

  /** No built-in name begins FOO+1. */
  lemma GluedNoBuiltIn()
    ensures FindBuiltIn(Glued, 0).None?
  {
    forall k | 0 <= k < |BuiltIns| ensures !IsPrefix(BuiltIns[k].name, Glued) {
      assert |BuiltIns[k].name| > 0 && BuiltIns[k].name[0] != 'F';
      FirstDiffers(BuiltIns[k].name, Glued);
    }
  }

  /** With FOO defined, FOO+1 is not found: the argument FOO+1 is longer
      than the name FOO, so it is not a prefix of it, while FOO alone is
      found.  No built-in matches either, and the built-in scan crashes on
      the table's sentinel. */
  lemma GluedNameAborts()
    ensures Lookup(Foo.symbols, "FOO", 0) == Some(0)
    ensures Eval(Foo, Glued, 0, Empty, false, false) == Abort(NullBuiltInName)
  {
    assert FirstNonWhite("FOO", 0) == 0;
    assert ArgEnd("FOO", 3) == 3;
    assert ArgEnd("FOO", 0) == 3;
    assert Arg("FOO", 0) == "FOO";
    assert "FOO"[..3] == "FOO";
    GluedArg();
    GluedNoBuiltIn();
    assert !IsPrefix(Glued, "FOO");
    assert Lookup(Foo.symbols, Glued, 0).None?;
    assert At(Glued, 0) == 'F' && IsAlpha('F');
    assert FirstNonWhite(Glued, 0) == 0;
    assert Operand(Foo, Glued, 0, Empty, false, false) == Abort(NullBuiltInName);
  }

  const PcPlus: string := "PC+2"

  lemma PcPlusArg()
    ensures Arg(PcPlus, 0) == PcPlus && ArgStop(PcPlus, 0) == 4
  {
    assert FirstNonWhite(PcPlus, 0) == 0;
    assert ArgEnd(PcPlus, 4) == 4;
    assert ArgEnd(PcPlus, 0) == 4;
  }

  /** Only the sixth built-in name, PC, begins PC+2. */
  lemma PcPlusBuiltIn()
    ensures FindBuiltIn(PcPlus, 0) == Some(5)
  {
    PcPlusArg();
    forall k | 0 <= k < 5 ensures !IsPrefix(BuiltIns[k].name, PcPlus) {
      assert |BuiltIns[k].name| > 0 && BuiltIns[k].name[0] != 'P';
      FirstDiffers(BuiltIns[k].name, PcPlus);
    }
    assert PcPlus[..2] == "PC";
    assert IsPrefix(BuiltIns[5].name, PcPlus);
  }

  /** PC+2 evaluates to the program counter: the built-in check matches PC
      at the start of the argument and moves the cursor to the end of the
      whole argument, so +2 is never read. */
  lemma BuiltInSkipsRest(pc: int)
    ensures Eval(Env([], pc, None), PcPlus, 0, Empty, false, false)
      == Ok(EvalResult(None, Cells(Machine([], []), pc, 0), Some(4)))
  {
    var env := Env([], pc, None);
    PcPlusArg();
    PcPlusBuiltIn();
    assert Lookup(env.symbols, PcPlus, 0).None?;
    assert At(PcPlus, 0) == 'P' && IsAlpha('P');
    assert [] + [pc] == [pc];
    assert Name(env, PcPlus, 0, Empty, false) == Ok(Next(Cells(Machine([], [pc]), 0, 0), 4));
    assert Operand(env, PcPlus, 0, Empty, false, false) == Ok(Next(Cells(Machine([], [pc]), 0, 0), 4));
    LoneOperand(env, PcPlus, Empty, Cells(Machine([], [pc]), 0, 0), pc);
  }

  // 1+$G, then 2: the stacks are not reset between expressions

  const Dangling: string := "1+$G"
  const Carried: Cells := Cells(Machine([Plus], [1]), 1, 0)

  lemma DanglingDigits()
    ensures StrToUL(Dangling, 0, 10) == Conversion(1, 1, false)
  {
    assert FirstNonWhite(Dangling, 0) == 0;
    assert DigitStart(Dangling, 0, 10) == 0;
    assert DigitRun(Dangling, 1, 10) == 0;
    assert DigitRun(Dangling, 0, 10) == 1;
    assert DigitsValue(Dangling, 0, 1, 10) == 1;
  }

  lemma DanglingNumber()
    ensures Digits(Dangling, 0, 10, Empty) == Ok(Next(Cells(Machine([], [1]), 1, 0), 1))
  {
    DanglingDigits();
    Pushed(Dangling, 0, 10, Empty, 1, 1);
    assert [] + [1] == [1];
  }

  lemma DanglingOperand()
    ensures Operand(E0, Dangling, 0, Empty, false, false) == Ok(Next(Cells(Machine([], [1]), 1, 0), 1))
  {
    assert At(Dangling, 0) == '1';
    DigitOperand(E0, Dangling, 0, Empty, false);
    DanglingNumber();
  }

  lemma DanglingPlus()
    ensures OperatorPart(Dangling, 1, Machine([], [1])) == Ok(Advance(Step(Carried.m, false), 2, false))
  {
    PlusFound();
    PlusStep();
    assert OpAt(8) == Plus;
    StepTaken(Dangling, 1, Machine([], [1]), 8, Step(Machine([Plus], [1]), false));
  }

  lemma PlusStep()
    ensures OperatorStep(Machine([], [1]), Plus) == Ok(Step(Machine([Plus], [1]), false))
  {
    assert PopWhileBinds(Machine([], [1]), Plus) == Ok(Machine([], [1]));
    assert [] + [Plus] == [Plus];
    StepPushed(Machine([], [1]), Plus, Machine([], [1]));
  }

  lemma PlusFound()
    ensures FindOp(Dangling, 1, 0) == Some(8)
  {
    forall k | 0 <= k < 8 ensures !TextAt(Ops[k].text, Dangling, 1) {
      Differs(Ops[k].text, Dangling, 1);
    }
    assert TextAt(Ops[8].text, Dangling, 1);
  }

  /** The recursive call on $G: `$` with no hex digit after it. */
  lemma DanglingBadHex()
    ensures Eval(E0, Dangling, 2, Carried, false, false) == Ok(EvalResult(Some(NotAValidNumber), Carried, None))
  {
    assert FirstNonWhite(Dangling, 2) == 2;
    assert At(Dangling, 2) == '$' && At(Dangling, 3) == 'G' && !IsXDigit('G');
    assert Operand(E0, Dangling, 2, Carried, false, false) == Ok(Stop(NotAValidNumber, Carried));
  }

  lemma SumDigits()
    ensures Digits("2", 0, 10, Cells(Carried.m, 0, 0)) == Ok(Next(Cells(Machine([Plus], [1, 2]), 2, 0), 1))
  {
    var t := "2";
    assert FirstNonWhite(t, 0) == 0;
    assert DigitStart(t, 0, 10) == 0;
    assert DigitRun(t, 1, 10) == 0;
    assert DigitRun(t, 0, 10) == 1;
    assert DigitsValue(t, 0, 1, 10) == 2;
    Converted(t, 0, 10, 1, 2);
    Pushed(t, 0, 10, Cells(Carried.m, 0, 0), 2, 1);
    assert [1] + [2] == [1, 2];
  }

  lemma SumDrain()
    ensures Drain(Machine([Plus], [1, 2])) == Ok(Machine([], [3]))
  {
    assert [Plus][..0] == [] && [1, 2][..1] == [1] && [1][..0] == [];
    assert Apply(Plus, 1, 2) == Ok(3);
    assert [] + [3] == [3];
    assert PopApply(Machine([Plus], [1, 2])) == Ok(Popped(Plus, Machine([], [3])));
  }

  lemma SumOperand()
    ensures Operand(E0, "2", 0, Cells(Carried.m, 0, 0), false, false) == Ok(Next(Cells(Machine([Plus], [1, 2]), 2, 0), 1))
  {
    assert At("2", 0) == '2';
    DigitOperand(E0, "2", 0, Cells(Carried.m, 0, 0), false);
    SumDigits();
  }

  lemma DanglingFirst()
    ensures Eval(E0, Dangling, 0, Empty, false, false) == Ok(EvalResult(Some(NotAValidNumber), Carried, None))
  {
    assert FirstNonWhite(Dangling, 0) == 0 && FirstNonWhite(Dangling, 1) == 1 && FirstNonWhite(Dangling, 2) == 2;
    DanglingOperand();
    DanglingPlus();
    DanglingBadHex();
    assert At(Dangling, 2) == '$' && !IsEndOfArg('$');
  }

  lemma SumSecond()
    ensures Eval(E0, "2", 0, Cells(Carried.m, 0, 0), false, false)
      == Ok(EvalResult(None, Cells(Machine([], []), 3, 0), Some(1)))
  {
    assert FirstNonWhite("2", 0) == 0 && FirstNonWhite("2", 1) == 1;
    SumOperand();
    NoOperatorAtEnd("2");
    SumDrain();
    assert Pop([3]) == [];
  }

  /** An error return leaves behind what the call had stacked: 1+$G is
      NOT_A_VALID_NUMBER with 1 and `+` still on the stacks.
      Nothing resets them, so the next expression, 2, completes that sum
      and evaluates to 3. */
  lemma StacksCarryOver()
    ensures Eval(E0, Dangling, 0, Empty, false, false) == Ok(EvalResult(Some(NotAValidNumber), Carried, None))
    ensures Eval(E0, "2", 0, Cells(Carried.m, 0, 0), false, false)
      == Ok(EvalResult(None, Cells(Machine([], []), 3, 0), Some(1)))
  {
    DanglingFirst();
    SumSecond();
  }

  // *: the built-in name for the PC is never looked up

  const Asterisk: string := "*"

  /** `*` is not a letter, so no name is read; it is found as the
      multiplication operator and pushed, and the line ends after it. */
  lemma StarPushed(env: Env)
    requires EnvOk(env)
    ensures Eval(env, Asterisk, 0, Empty, false, false) == Finish(Cells(Machine([Star], []), 0, 0), 1)
  {
    assert FirstNonWhite(Asterisk, 0) == 0 && FirstNonWhite(Asterisk, 1) == 1;
    assert At(Asterisk, 0) == '*' && !IsAlpha('*') && !IsDigit('*') && '*' !in "-+$%&";
    assert Operand(env, Asterisk, 0, Empty, false, false) == Ok(Next(Empty, 0));
    StarPart();
  }

  lemma StarFound()
    ensures FindOp(Asterisk, 0, 0) == Some(5)
  {
    forall k | 0 <= k < 5 ensures !TextAt(Ops[k].text, Asterisk, 0) {
      Differs(Ops[k].text, Asterisk, 0);
    }
    assert TextAt(Ops[5].text, Asterisk, 0);
  }

  lemma StarPart()
    ensures OperatorPart(Asterisk, 0, Machine([], [])) == Ok(Advance(Step(Machine([Star], []), false), 1, false))
  {
    StarFound();
    StarStep();
    assert OpAt(5) == Star;
    StepTaken(Asterisk, 0, Machine([], []), 5, Step(Machine([Star], []), false));
  }

  lemma StarStep()
    ensures OperatorStep(Machine([], []), Star) == Ok(Step(Machine([Star], []), false))
  {
    assert PopWhileBinds(Machine([], []), Star) == Ok(Machine([], []));
    assert [] + [Star] == [Star];
    StepPushed(Machine([], []), Star, Machine([], []));
  }

  /** The built-in table maps `*` to the PC, but eval_expr only resolves
      names that start with a letter: `*` alone is a multiplication with
      no operands, and draining it ends the process. */
  lemma StarIsNotPc(pc: int)
    ensures BuiltInFor(Asterisk, pc) == Some(pc)
    ensures Eval(Env([], pc, None), Asterisk, 0, Empty, false, false) == Abort(NumStackEmpty)
  {
    BuiltInNamesPC(Asterisk, pc);
    StarPushed(Env([], pc, None));
    assert [Star][..0] == [];
    assert PopApply(Machine([Star], [])) == Abort(NumStackEmpty);
    assert Drain(Machine([Star], [])) == Abort(NumStackEmpty);
  }

  // $10: an absolute operand goes down the indirect branch

  const Absolute: string := "$10"
  const Opened: string := "(10"

  lemma OpenedText()
    ensures Overwrite(Absolute, 0) == Opened
  {
  }

  lemma OpenedDigits()
    ensures StrToUL(Opened, 1, 10) == Conversion(10, 3, false)
  {
    assert FirstNonWhite(Opened, 1) == 1;
    assert DigitStart(Opened, 1, 10) == 1;
    assert DigitRun(Opened, 3, 10) == 0;
    assert DigitRun(Opened, 1, 10) == 2;
    assert DigitsValue(Opened, 1, 2, 10) == 10;
  }

  lemma OpenedNumber(c: Cells)
    requires c.m == Machine([OpenOp], [])
    ensures Digits(Opened, 1, 10, c) == Ok(Next(Cells(Machine([OpenOp], [10]), 10, c.reg), 3))
  {
    OpenedDigits();
    Pushed(Opened, 1, 10, c, 10, 3);
    assert [] + [10] == [10];
  }

  lemma OpenedOperand(c: Cells)
    requires c.m == Machine([OpenOp], [])
    ensures Operand(E0, Opened, 1, c, false, true) == Ok(Next(Cells(Machine([OpenOp], [10]), 10, c.reg), 3))
  {
    assert At(Opened, 1) == '1';
    DigitOperand(E0, Opened, 1, c, true);
    OpenedNumber(c);
  }

  /** The inner call on "10" after the `(`: the number is read, and at the
      end of the line the drain pops `(`, which is a binary row, so it asks
      for a second number that is not there. */
  lemma OpenedInner(c: Cells)
    requires c.m == Machine([OpenOp], [])
    ensures Eval(E0, Opened, 1, c, false, true) == Abort(NumStackEmpty)
  {
    var c1 := Cells(Machine([OpenOp], [10]), 10, c.reg);
    assert FirstNonWhite(Opened, 1) == 1 && FirstNonWhite(Opened, 3) == 3;
    OpenedOperand(c);
    NoOperatorAtEnd(Opened);
    assert [OpenOp][..0] == [] && [10][..0] == [];
    assert PopApply(c1.m) == Abort(NumStackEmpty);
    assert Drain(c1.m) == Abort(NumStackEmpty);
  }

  /** The outer call on "(10": `(` is read as an operator and pushed. */
  lemma OpenedOuter(c: Cells)
    requires c.m == Machine([], [])
    ensures Eval(E0, Opened, 0, c, false, true) == Abort(NumStackEmpty)
  {
    assert FirstNonWhite(Opened, 0) == 0 && FirstNonWhite(Opened, 1) == 1;
    assert At(Opened, 0) == '(' && !IsAlpha('(') && !IsDigit('(') && '(' !in "-+$%&";
    assert Operand(E0, Opened, 0, c, false, true) == Ok(Next(c, 0));
    assert TextAt(Ops[0].text, Opened, 0);
    assert FindOp(Opened, 0, 0) == Some(0);
    assert [] + [OpenOp] == [OpenOp];
    assert OperatorPart(Opened, 0, c.m) == Ok(Advance(Step(Machine([OpenOp], []), false), 1, false));
    OpenedInner(c.(m := Machine([OpenOp], [])));
  }

  /** An absolute operand such as `LDA $10` ends the process when the
      stacks start empty: the indirect test overwrites `$` with `(`, and
      the `(` is then drained as if it were a binary operator. */
  lemma AbsoluteOperandAborts(am: AddressMode, reg: int)
    ensures EvaluateAddress(E0, Absolute, 0, Machine([], []), am, reg) == Abort(NumStackEmpty)
  {
    assert FirstNonWhite(Absolute, 0) == 0;
    assert At(Absolute, 0) == '$' && !NamesAccumulator(Absolute, 0);
    OpenedText();
    OpenedOuter(Cells(Machine([], []), am.value, reg));
  }

  // parse: directives are matched case-sensitively before the mnemonics

  const UpperOrg: string := "ORG $10"
  const LowerOrg: string := "org $10"

  lemma OrgValue()
    ensures GetValue(UpperOrg, 3) == Some(16)
  {
    OrgArg();
    OrgDigits();
  }

  lemma OrgArg()
    ensures Arg(UpperOrg, 3) == "$10"
  {
    assert FirstNonWhite(UpperOrg, 3) == 4;
    assert ArgEnd(UpperOrg, 7) == 7;
    assert ArgEnd(UpperOrg, 4) == 7;
  }

  lemma OrgDigits()
    ensures StrToUL("$10", 1, 16) == Conversion(16, 3, false)
  {
    var t := "$10";
    assert FirstNonWhite(t, 1) == 1;
    assert DigitStart(t, 1, 16) == 1;
    assert DigitRun(t, 3, 16) == 0;
    assert DigitRun(t, 1, 16) == 2;
    assert DigitsValue(t, 1, 2, 16) == 16;
  }

  /** ORG $10 is the ORG directive (the second row of the directive
      table), which sets PC to 16 and changes nothing else. */
  lemma UpperCaseDirective(st: AsmState, junk: Junk)
    requires StateOk(st)
    ensures Parse(st, UpperOrg, 0, junk) == Effect(Done, st.(pc := 16))
  {
    OrgFound();
    assert Parse(st, UpperOrg, 0, junk) == ParseFor(Directives, Mnemonics, Some(1), st, UpperOrg, 0, junk);
    assert Directives[1] == Directive("ORG", OrgDirective);
    assert ParseFor(Directives, Mnemonics, Some(1), st, UpperOrg, 0, junk) == SetOrigin(st, UpperOrg, 3);
    OrgValue();
  }

  /** ORG is the second row of the directive table. */
  lemma OrgFound()
    ensures FindDirective(Directives, UpperOrg, 0, 0) == Some(1)
  {
    Differs(Directives[0].name, UpperOrg, 0);
    assert TextAt(Directives[1].name, UpperOrg, 0);
  }

  /** A search from row k finds nothing when no row from k on begins the
      word. */
  lemma {:induction false} NoRowFrom(rows: seq<Mnemonic>, w: string, k: nat)
    requires forall i :: k <= i < |rows| ==> !IsPrefix(rows[i].name, w)
    ensures FindMnemonic(rows, w, k).None?
    decreases |rows| - k
  {
    if k < |rows| {
      NoRowFrom(rows, w, k + 1);
    }
  }

  /** No mnemonic name begins ORG: ORA is the only name that starts with
      O, and it differs in the third letter. */
  lemma NoMnemonicOrg()
    ensures FindMnemonic(Mnemonics, "ORG", 0).None?
  {
    var w := "ORG";
    forall i | 0 <= i < |Mnemonics| ensures !IsPrefix(Mnemonics[i].name, w) {
      if i == 34 {
        assert Mnemonics[34].name == "ORA";
        assert w[..3][2] != "ORA"[2];
      } else {
        assert |Mnemonics[i].name| == 3 && Mnemonics[i].name[0] != 'O';
        FirstDiffers(Mnemonics[i].name, w);
      }
    }
    NoRowFrom(Mnemonics, w, 0);
  }

  /** org $10 in lower case is no directive; upper-cased, its word ORG is
      no mnemonic either, so the line is NO_VALID_DIRECTIVE_OR_MNEMONIC
      and nothing changes. */
  lemma LowerCaseDirective(st: AsmState, junk: Junk)
    requires StateOk(st)
    ensures Parse(st, LowerOrg, 0, junk) == Effect(Failed(NoValidDirectiveOrMnemonic), st)
  {
    LowerNoDirective();
    LowerWord();
    NoMnemonicOrg();
    assert Parse(st, LowerOrg, 0, junk) == ParseFor(Directives, Mnemonics, None, st, LowerOrg, 0, junk);
  }

  /** Directive names are compared as written, and org is not ORG. */
  lemma LowerNoDirective()
    ensures FindDirective(Directives, LowerOrg, 0, 0).None?
  {
    forall k | 0 <= k < |Directives| ensures !TextAt(Directives[k].name, LowerOrg, 0) {
      Differs(Directives[k].name, LowerOrg, 0);
    }
  }

  /** The word strntoupper makes of org $10. */
  lemma LowerWord()
    ensures UpperWord(LowerOrg, 0, 10) == "ORG"
  {
    assert FirstNonWhite(LowerOrg, 0) == 0;
    assert UpperRun(LowerOrg, 3, 7) == [];
    assert UpperRun(LowerOrg, 2, 8) == "G";
    assert UpperRun(LowerOrg, 1, 9) == "RG";
  }

  // (10): a `)` with the `(` directly on top drops it, so a parenthesised
  // lone operand evaluates to that operand

  const Wrapped: string := "(10)"

  lemma WrappedDigits()
    ensures StrToUL(Wrapped, 1, 10) == Conversion(10, 3, false)
  {
    assert FirstNonWhite(Wrapped, 1) == 1;
    assert DigitStart(Wrapped, 1, 10) == 1;
    assert DigitRun(Wrapped, 3, 10) == 0;
    assert DigitRun(Wrapped, 1, 10) == 2;
    assert DigitsValue(Wrapped, 1, 2, 10) == 10;
  }

  lemma WrappedOperand(c: Cells)
    requires c.m == Machine([OpenOp], [])
    ensures Operand(E0, Wrapped, 1, c, false, false) == Ok(Next(Cells(Machine([OpenOp], [10]), 10, c.reg), 3))
  {
    assert At(Wrapped, 1) == '1';
    DigitOperand(E0, Wrapped, 1, c, false);
    WrappedDigits();
    Pushed(Wrapped, 1, 10, c, 10, 3);
    assert [] + [10] == [10];
  }

  /** The `)` at 3 meets the `(` on top of the operator stack and drops it;
      an operator is expected after it. */
  lemma WrappedClose()
    ensures OperatorPart(Wrapped, 3, Machine([OpenOp], [10]))
      == Ok(Advance(Step(Machine([], [10]), false), 4, true))
  {
    assert Ops[0].text == "(" && At(Wrapped, 3) == ')';
    Differs(Ops[0].text, Wrapped, 3);
    assert TextAt(Ops[1].text, Wrapped, 3);
    assert FindOp(Wrapped, 3, 0) == Some(1);
    assert [OpenOp][..0] == [];
    assert CloseParen(Machine([OpenOp], [10])) == Ok(Step(Machine([], [10]), false));
    StepTaken(Wrapped, 3, Machine([OpenOp], [10]), 1, Step(Machine([], [10]), false));
  }

  /** The inner call on "10)": the number is read, the `)` drops the `(`,
      and at the end of the line the lone number becomes *value. */
  lemma WrappedInner(c: Cells)
    requires c.m == Machine([OpenOp], [])
    ensures Eval(E0, Wrapped, 1, c, false, false)
      == Ok(EvalResult(None, Cells(Machine([], []), 10, c.reg), Some(4)))
  {
    assert FirstNonWhite(Wrapped, 1) == 1 && FirstNonWhite(Wrapped, 3) == 3 && FirstNonWhite(Wrapped, 4) == 4;
    WrappedOperand(c);
    WrappedClose();
    assert IsEndOfArg(At(Wrapped, 4));
    assert Drain(Machine([], [10])) == Ok(Machine([], [10]));
    assert [10][..0] == [];
  }

  /** `(10)` evaluates to 10 whatever *value held, and leaves both stacks
      empty: the outer call pushes `(` and the inner call reads the rest. */
  lemma ParenthesisedOperand(v: int, r: int)
    ensures Eval(E0, Wrapped, 0, Cells(Machine([], []), v, r), false, false)
         == Ok(EvalResult(None, Cells(Machine([], []), 10, r), None))
  {
    var c := Cells(Machine([], []), v, r);
    assert FirstNonWhite(Wrapped, 0) == 0 && FirstNonWhite(Wrapped, 1) == 1;
    assert At(Wrapped, 0) == '(' && !IsAlpha('(') && !IsDigit('(') && '(' !in "-+$%&";
    assert Operand(E0, Wrapped, 0, c, false, false) == Ok(Next(c, 0));
    assert TextAt(Ops[0].text, Wrapped, 0);
    assert FindOp(Wrapped, 0, 0) == Some(0);
    assert [] + [OpenOp] == [OpenOp];
    assert OperatorPart(Wrapped, 0, c.m) == Ok(Advance(Step(Machine([OpenOp], []), false), 1, false));
    WrappedInner(c.(m := Machine([OpenOp], [])));
  }
}
