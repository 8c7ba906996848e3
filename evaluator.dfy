/** The evaluator's global state in expr.c: an operator stack and a number
    stack, each a fixed array of 256 slots with a count, and the functions
    that work on them.  Every method is proved to do what the function of
    the same step in expression.dfy says, on Model(), the stacks' contents
    read as a Machine. */
module Evaluation {
  import opened Words
  import opened Lexer
  import opened Errors
  import opened Operators
  import opened Symbols
  import opened Expression
  import Modes

  /** The error that ends the process, if a step ends it. */
  function FatalOf<T>(r: Res<T>): (f: Option<Fatal>)
    ensures f.Some? <==> r.Abort?
  {
    if r.Abort? then Some(r.fatal) else None
  }

  /** A method's view of a Stage: the cells other than the stacks, and the
      cursor or the error code. */
  datatype Progress = Going(value: int, reg: int, cur: nat) | Stopped(err: ErrorId, value: int, reg: int)

  function ProgressOf(r: Res<Stage>): Res<Progress>
  {
    match r
    case Abort(f) => Abort(f)
    case Ok(Next(c, cur)) => Ok(Going(c.value, c.reg, cur))
    case Ok(Stop(e, c)) => Ok(Stopped(e, c.value, c.reg))
  }

  /** A method's view of an Advance. */
  datatype Moved = Moved(mismatch: bool, cur: nat, opE: bool)

  function MovedOf(r: Res<Advance>): Res<Moved>
  {
    match r
    case Abort(f) => Abort(f)
    case Ok(a) => Ok(Moved(a.st.mismatch, a.cur, a.opE))
  }

  /** A method's view of an EvalResult: the return code, *value, *reg and
      what was written through outptr. */
  datatype Reply = Reply(err: Option<ErrorId>, value: int, reg: int, out: Option<nat>)

  function ReplyOf(r: Res<EvalResult>): Res<Reply>
  {
    match r
    case Abort(f) => Abort(f)
    case Ok(e) => Ok(Reply(e.err, e.c.value, e.c.reg, e.out))
  }

  /** A method's view of an Addressed: the return code and the mode struct. */
  datatype AddrReply = AddrReply(err: Option<ErrorId>, am: AddressMode)

  function AddrReplyOf(r: Res<Addressed>): Res<AddrReply>
  {
    match r
    case Abort(f) => Abort(f)
    case Ok(a) => Ok(AddrReply(a.err, a.am))
  }

  class Evaluator {
    const opstack: array<Op>
    var nopstack: nat
    const numstack: array<int>
    var nnumstack: nat

    ghost predicate Valid()
      reads this, opstack
    {
      opstack.Length == MaxOpStack && numstack.Length == MaxNumStack &&
      nopstack <= MaxOpStack && nnumstack <= MaxNumStack &&
      forall i :: 0 <= i < nopstack ==> Listed(opstack[i])
    }

    /** The stacks' contents, bottom first. */
    ghost function Model(): (m: Machine)
      reads this, opstack, numstack
      requires Valid()
      ensures WellFormed(m)
    {
      Machine(opstack[..nopstack], numstack[..nnumstack])
    }

    /** Both stacks start empty. */
    constructor ()
      ensures Valid() && Model() == Machine([], [])
    {
      opstack := new Op[MaxOpStack];
      numstack := new int[MaxNumStack];
      nopstack, nnumstack := 0, 0;
    }

    method PushOpStack(op: Op) returns (f: Option<Fatal>)
      requires Valid() && Listed(op)
      modifies this, opstack
      ensures Valid()
      ensures f == FatalOf(PushOp(old(Model()), op))
      ensures f.None? ==> Model() == PushOp(old(Model()), op).val
    {
      if nopstack > MaxOpStack - 1 {
        return Some(OpStackOverflow);
      }
      opstack[nopstack] := op;
      nopstack := nopstack + 1;
      f := None;
      assert opstack[..nopstack] == old(opstack[..nopstack]) + [op];
    }

    method PopOpStack() returns (f: Option<Fatal>, op: Op)
      requires Valid()
      modifies this
      ensures Valid()
      ensures f == FatalOf(PopOp(old(Model())))
      ensures f.None? ==> op == PopOp(old(Model())).val.item && Model() == PopOp(old(Model())).val.rest
    {
      if nopstack == 0 {
        return Some(OpStackEmpty), OpenOp;
      }
      nopstack := nopstack - 1;
      f, op := None, opstack[nopstack];
    }

    /** peek_opstack: the top operator, which it reads without popping;
        an empty stack ends the process. */
    function PeekOpStack(): (r: Res<Op>)
      reads this, opstack
      requires Valid()
      ensures r == PeekOp(Model())
      ensures r.Ok? ==> Listed(r.val)
    {
      if nopstack == 0 then Abort(OpStackEmpty) else Ok(opstack[nopstack - 1])
    }

    method PushNumStack(v: int) returns (f: Option<Fatal>)
      requires Valid()
      modifies this, numstack
      ensures Valid()
      ensures f == FatalOf(PushNum(old(Model()), v))
      ensures f.None? ==> Model() == PushNum(old(Model()), v).val
    {
      if nnumstack > MaxNumStack - 1 {
        return Some(NumStackOverflow);
      }
      numstack[nnumstack] := v;
      nnumstack := nnumstack + 1;
      f := None;
      assert numstack[..nnumstack] == old(numstack[..nnumstack]) + [v];
    }

    method PopNumStack() returns (f: Option<Fatal>, v: int)
      requires Valid()
      modifies this
      ensures Valid()
      ensures f == FatalOf(PopNum(old(Model())))
      ensures f.None? ==> v == PopNum(old(Model())).val.item && Model() == PopNum(old(Model())).val.rest
    {
      if nnumstack == 0 {
        return Some(NumStackEmpty), 0;
      }
      nnumstack := nnumstack - 1;
      f, v := None, numstack[nnumstack];
    }
  
    /** One pass of a pop loop: pop an operator and its operands, apply it,
        push the result. */
    method ApplyTop() returns (f: Option<Fatal>, op: Op)
      requires Valid()
      modifies this, numstack
      ensures Valid()
      ensures f == FatalOf(PopApply(old(Model())))
      ensures f.None? ==> op == PopApply(old(Model())).val.item && Model() == PopApply(old(Model())).val.rest
    {
      f, op := PopOpStack();
      if f.Some? {
        return;
      }
      var a2;
      f, a2 := PopNumStack();
      if f.Some? {
        return;
      }
      var r;
      if op.unary {
        r := Apply(op, a2, 0);
      } else {
        var a1;
        f, a1 := PopNumStack();
        if f.Some? {
          return;
        }
        r := Apply(op, a1, a2);
      }
      if r.Abort? {
        return Some(r.fatal), op;
      }
      f := PushNumStack(r.val);
    }

    /** One pass of the pop loop: apply the top operator; the chain from
        the operator popped goes on from the new stacks. */
    method PopPass(p: Op, last: Op) returns (f: Option<Fatal>, next: Op)
      requires Valid() && nopstack > 0 && Binds(p, last)
      modifies this, numstack
      ensures Valid()
      ensures f.Some? ==> PopChain(old(Model()), p, last) == Abort(f.value)
      ensures f.None? ==> nopstack < old(nopstack) && PopChain(Model(), p, next) == PopChain(old(Model()), p, last)
    {
      PopChainStep(Model(), p, last);
      f, next := ApplyTop();
    }

    /** The pop loop for an ordinary operator p; opSe is the top peeked
        before it, and after each pass the operator just popped. */
    method PopWhileBindsLoop(p: Op, opSe: Op) returns (f: Option<Fatal>)
      requires Valid()
      requires nopstack > 0 ==> opSe == opstack[nopstack - 1]
      modifies this, numstack
      ensures Valid()
      ensures f == FatalOf(PopWhileBinds(old(Model()), p))
      ensures f.None? ==> Model() == PopWhileBinds(old(Model()), p).val
    {
      var last := opSe;
      if nopstack > 0 {
        assert Top(Model().ops) == opSe;
      }
      while nopstack > 0 && Binds(p, last)
        invariant Valid()
        invariant PopChain(Model(), p, last) == PopWhileBinds(old(Model()), p)
        decreases nopstack
      {
        f, last := PopPass(p, last);
        if f.Some? {
          return;
        }
      }
      assert PopChain(Model(), p, last) == Ok(Model());
      f := None;
    }

    /** One pass of the inner loop of the closing-parenthesis branch: apply
        the top operator, then peek at the new top. */
    method ClosePass() returns (f: Option<Fatal>, top: Op)
      requires Valid()
      modifies this, numstack
      ensures Valid()
      ensures f == FatalOf(ClosePassStep(old(Model())))
      ensures f.None? ==> Model() == ClosePassStep(old(Model())).val && top == opstack[nopstack - 1]
    {
      f, top := ApplyTop();
      if f.Some? {
        return;
      }
      var peek := PeekOpStack();
      if peek.Abort? {
        return Some(peek.fatal), top;
      }
      top := peek.val;
    }

    /** The inner loop of the closing-parenthesis branch: it compares
        against the peeked top and peeks again after every pass. */
    method CloseLoopRun() returns (f: Option<Fatal>)
      requires Valid() && nopstack > 0
      modifies this, numstack
      ensures Valid()
      ensures f == FatalOf(CloseLoop(old(Model()), CloseOp))
      ensures f.None? ==> Model() == CloseLoop(old(Model()), CloseOp).val
    {
      var opSe := opstack[nopstack - 1];
      while nopstack > 0 && Binds(CloseOp, opSe)
        invariant Valid() && nopstack > 0 && opSe == opstack[nopstack - 1]
        invariant CloseLoop(Model(), CloseOp) == CloseLoop(old(Model()), CloseOp)
        decreases nopstack
      {
        CloseLoopStep(Model(), CloseOp);
        f, opSe := ClosePass();
        if f.Some? {
          return;
        }
      }
      f := None;
    }

    /** The closing-parenthesis branch.  When the top is not `(`, the outer
        loop's first pass runs the inner loop, which can only end by ending
        the process (CloseLoopAborts), so the push of `)` and further passes
        are never reached.  Otherwise the `(` is popped, and an empty stack
        or another operator there is a mismatch. */
    method CloseParenthesis() returns (f: Option<Fatal>, mismatch: bool)
      requires Valid()
      modifies this, numstack
      ensures Valid()
      ensures f == FatalOf(CloseParen(old(Model())))
      ensures f.None? ==> Model() == CloseParen(old(Model())).val.m && mismatch == CloseParen(old(Model())).val.mismatch
    {
      if nopstack > 0 && opstack[nopstack - 1].id != ParenOpen {
        CloseLoopAborts(Model());
        f := CloseLoopRun();
        return f, false;
      }
      if nopstack > 0 {
        var op;
        f, op := PopOpStack();
        return None, op.id != ParenOpen;
      }
      return None, true;
    }

    /** The end-of-argument loop: apply every pending operator. */
    method DrainAll() returns (f: Option<Fatal>)
      requires Valid()
      modifies this, numstack
      ensures Valid()
      ensures f == FatalOf(Drain(old(Model())))
      ensures f.None? ==> Model() == Drain(old(Model())).val
    {
      while nopstack > 0
        invariant Valid()
        invariant Drain(Model()) == Drain(old(Model()))
        decreases nopstack
      {
        var op;
        f, op := ApplyTop();
        if f.Some? {
          return;
        }
      }
      f := None;
    }
  
    /** The work done for operator p; opSe is the peeked top. */
    method OperatorStepRun(p: Op, opSe: Op) returns (f: Option<Fatal>, mismatch: bool)
      requires Valid() && Listed(p)
      requires nopstack > 0 ==> opSe == opstack[nopstack - 1]
      modifies this, opstack, numstack
      ensures Valid()
      ensures f == FatalOf(OperatorStep(old(Model()), p))
      ensures f.None? ==> Model() == OperatorStep(old(Model()), p).val.m && mismatch == OperatorStep(old(Model()), p).val.mismatch
    {
      mismatch := false;
      if p.id == ParenOpen {
        f := PushOpStack(p);
      } else if p.id == ParenClose {
        f, mismatch := CloseParenthesis();
      } else {
        f := PopWhileBindsLoop(p, opSe);
        if f.None? {
          ShrinkKeepsWellFormed(old(Model()), Model());
          f := PushOpStack(p);
        }
      }
    }

    /** The operator part of one call: is_operator at cursor j, a peek at
        the top when there is one, then the step for the operator found. */
    method ReadOperator(s: string, j: nat) returns (r: Res<Moved>)
      requires Valid()
      modifies this, opstack, numstack
      ensures Valid()
      ensures r == MovedOf(OperatorPart(s, j, old(Model())))
      ensures r.Ok? ==> Model() == OperatorPart(s, j, old(Model())).val.st.m
    {
      ghost var m0 := Model();
      var k := IsOperator(s, j);
      if k.None? {
        assert OperatorPart(s, j, m0) == Ok(Advance(Step(m0, false), j, false));
        r := Ok(Moved(false, j, false));
        assert r == MovedOf(OperatorPart(s, j, m0));
        return;
      }
      OperatorFound(s, j, m0, k.value);
      var p := OpAt(k.value);
      // op_se is left unset when the stack is empty; it is not read then
      var opSe := p;
      var f: Option<Fatal>;
      if nopstack > 0 {
        opSe := PeekOpStack().val;
      }
      var mismatch;
      assert Listed(p);
      assert nopstack > 0 ==> opSe == opstack[nopstack - 1];
      assert Model() == m0;
      ghost var st := OperatorStep(m0, p);
      f, mismatch := OperatorStepRun(p, opSe);
      if f.Some? {
        assert OperatorPart(s, j, m0).Abort?;
        r := Abort(f.value);
        assert r == MovedOf(OperatorPart(s, j, m0));
        return;
      }
      assert st.Ok? && mismatch == st.val.mismatch;
      ghost var adv := OperatorPart(s, j, m0).val;
      assert adv == Advance(st.val, j + |p.text|, p.id == ParenClose);
      assert MovedOf(OperatorPart(s, j, m0)) == Ok(Moved(adv.st.mismatch, adv.cur, adv.opE));
      assert adv.cur == j + |p.text|;
      assert adv.opE == (p.id == ParenClose);
      assert adv.st.mismatch == mismatch;
      r := Ok(Moved(mismatch, j + |p.text|, p.id == ParenClose));
      assert r == MovedOf(OperatorPart(s, j, m0));
    }
  
    /** A numeral at cursor j: the base prefix, then strtoul, whose result
        is stored in *value before errno is looked at. */
    method ReadNumber(s: string, j: nat, value: int, reg: int) returns (r: Res<Progress>)
      requires Valid()
      requires IsDigit(At(s, j)) || At(s, j) in "-+$%&"
      modifies this, numstack
      ensures Valid()
      ensures r == ProgressOf(Numeral(s, j, Cells(old(Model()), value, reg)))
      ensures r.Ok? ==> Model() == Numeral(s, j, Cells(old(Model()), value, reg)).val.c.m
    {
      var ch := At(s, j);
      if (ch == '+' || ch == '-') && !IsDigit(At(s, j + 1)) {
        return Ok(Stopped(NotAValidNumber, value, reg));
      }
      var base, k := 10, j;
      if ch == '$' {
        base, k := 16, j + 1;
        if !IsXDigit(At(s, k)) {
          return Ok(Stopped(NotAValidNumber, value, reg));
        }
      } else if ch == '%' {
        base, k := 2, j + 1;
        if !IsDigit(At(s, k)) {
          return Ok(Stopped(NotAValidNumber, value, reg));
        }
      } else if ch == '&' {
        base, k := 8, j + 1;
        if !IsDigit(At(s, k)) {
          return Ok(Stopped(NotAValidNumber, value, reg));
        }
      }
      r := ReadDigits(s, k, base, value, reg);
    }

    /** strtoul, the store into *value, the errno test and the push. */
    method ReadDigits(s: string, k: nat, base: nat, value: int, reg: int) returns (r: Res<Progress>)
      requires Valid() && base in {2, 8, 10, 16}
      modifies this, numstack
      ensures Valid()
      ensures r == ProgressOf(Digits(s, k, base, Cells(old(Model()), value, reg)))
      ensures r.Ok? ==> Model() == Digits(s, k, base, Cells(old(Model()), value, reg)).val.c.m
    {
      var conv := StrToUL(s, k, base);
      var v := Wrap32(conv.value);
      if conv.erange {
        return Ok(Stopped(NotAValidNumber, v, reg));
      }
      var f := PushNumStack(v);
      if f.Some? {
        return Abort(f.value);
      }
      return Ok(Going(v, reg, conv.stop));
    }

    /** The operand part of one call: a user symbol, else a built-in (the
        built-in scan crashes on any other name), else a numeral; *reg is
        written only for a built-in. */
    method ReadOperand(syms: SymbolTable, pc: int, alias: Option<nat>, s: string, j: nat, value: int, reg: int, opExpected: bool, wantReg: bool)
      returns (r: Res<Progress>)
      requires Valid() && syms.Valid()
      modifies this, numstack
      ensures Valid()
      ensures r == ProgressOf(Operand(Env(syms.entries, pc, alias), s, j, Cells(old(Model()), value, reg), opExpected, wantReg))
      ensures r.Ok? ==> Model() == Operand(Env(syms.entries, pc, alias), s, j, Cells(old(Model()), value, reg), opExpected, wantReg).val.c.m
    {
      var ch := At(s, j);
      if !opExpected && IsAlpha(ch) {
        var se, next := syms.LookFor(s, j);
        if se.Some? {
          var f := PushNumStack(if alias == se then value else syms.entries[se.value].value);
          if f.Some? {
            return Abort(f.value);
          }
          return Ok(Going(value, reg, next));
        }
        var bis;
        bis, next := CheckBuiltIn(s, j);
        if bis.Abort? {
          return Abort(bis.fatal);
        }
        var v := BuiltInValue(BuiltIns[bis.val].getter, pc);
        var f := PushNumStack(v);
        if f.Some? {
          return Abort(f.value);
        }
        return Ok(Going(value, if wantReg then v else reg, next));
      } else if !opExpected && (IsDigit(ch) || ch in "-+$%&") {
        r := ReadNumber(s, j, value, reg);
      } else {
        r := Ok(Going(value, reg, j));
      }
    }

    /** The end of the argument: drain the operator stack; if a number is
        left, pop it into *value and write the cursor through outptr. */
    method FinishExpr(value: int, reg: int, j: nat) returns (r: Res<Reply>)
      requires Valid()
      modifies this, numstack
      ensures Valid()
      ensures r == ReplyOf(Finish(Cells(old(Model()), value, reg), j))
      ensures r.Ok? ==> Model() == Finish(Cells(old(Model()), value, reg), j).val.c.m
    {
      var f := DrainAll();
      if f.Some? {
        return Abort(f.value);
      }
      if nnumstack > 0 {
        var v;
        f, v := PopNumStack();
        return Ok(Reply(None, v, reg, Some(j)));
      }
      return Ok(Reply(None, value, reg, None));
    }
  
    /** eval_expr(s + pos, outptr, value, opExpected, wantReg ? reg : NULL):
        one operand, then the rest of the call in EvalTail. */
    method EvalExpr(syms: SymbolTable, pc: int, alias: Option<nat>, s: string, pos: nat, value: int, opExpected: bool, reg: int, wantReg: bool)
      returns (r: Res<Reply>)
      requires Valid() && syms.Valid()
      modifies this, opstack, numstack
      ensures Valid()
      ensures r == ReplyOf(Eval(Env(syms.entries, pc, alias), s, pos, Cells(old(Model()), value, reg), opExpected, wantReg))
      ensures r.Ok? ==> Model() == Eval(Env(syms.entries, pc, alias), s, pos, Cells(old(Model()), value, reg), opExpected, wantReg).val.c.m
      decreases if pos < |s| then |s| - pos else 0, opExpected, 1
    {
      var j := SkipWhite(s, pos);
      var operand := ReadOperand(syms, pc, alias, s, j, value, reg, opExpected, wantReg);
      if operand.Abort? {
        return Abort(operand.fatal);
      }
      if operand.val.Stopped? {
        return Ok(Reply(Some(operand.val.err), operand.val.value, operand.val.reg, None));
      }
      r := EvalTail(syms, pc, alias, s, pos, j, operand.val.value, operand.val.reg, operand.val.cur, opExpected, wantReg);
    }

    /** The rest of one call of eval_expr, after an operand that left the
        cursor at k: at most one operator, then either the end of the
        argument or the recursive call. */
    method EvalTail(syms: SymbolTable, pc: int, alias: Option<nat>, s: string, pos: nat, j: nat,
                    value: int, reg: int, k: nat, opExpected: bool, wantReg: bool)
      returns (r: Res<Reply>)
      requires Valid() && syms.Valid()
      requires j == FirstNonWhite(s, pos) && j <= k
      modifies this, opstack, numstack
      ensures Valid()
      ensures r == ReplyOf(EvalAfter(Env(syms.entries, pc, alias), s, pos, j, Cells(old(Model()), value, reg), k, opExpected, wantReg))
      ensures r.Ok? ==> Model() == EvalAfter(Env(syms.entries, pc, alias), s, pos, j, Cells(old(Model()), value, reg), k, opExpected, wantReg).val.c.m
      decreases if pos < |s| then |s| - pos else 0, opExpected, 0
    {
      ghost var env := Env(syms.entries, pc, alias);
      ghost var c1 := Cells(Model(), value, reg);
      var j2 := SkipWhite(s, k);
      ghost var adv := OperatorPart(s, j2, c1.m);
      var moved := ReadOperator(s, j2);
      if moved.Abort? {
        return Abort(moved.fatal);
      }
      ghost var c2 := c1.(m := adv.val.st.m);
      assert c2 == Cells(Model(), value, reg);
      if moved.val.mismatch {
        return Ok(Reply(Some(ParanthesisMissmatch), value, reg, None));
      }
      var j3 := SkipWhite(s, moved.val.cur);
      if !IsEndOfArg(At(s, j3)) {
        if j3 == j && !moved.val.opE && !opExpected {
          // the call would repeat itself with the same arguments forever
          return Abort(Diverges);
        }
        r := EvalExpr(syms, pc, alias, s, j3, value, moved.val.opE, reg, wantReg);
        if r.Ok? {
          r := Ok(r.val.(out := None));
        }
        return;
      }
      r := FinishExpr(value, reg, j3);
    }

    /** evaluate_address on the line s from pos; am is the caller's mode
        struct and reg the value the uninitialised register local holds. */
    method EvaluateAddressRun(syms: SymbolTable, pc: int, s: string, pos: nat, am: AddressMode, reg: int)
      returns (r: Res<AddrReply>)
      requires Valid() && syms.Valid()
      modifies this, opstack, numstack
      ensures Valid()
      ensures r == AddrReplyOf(EvaluateAddress(Env(syms.entries, pc, None), s, pos, old(Model()), am, reg))
      ensures r.Ok? ==> Model() == EvaluateAddress(Env(syms.entries, pc, None), s, pos, old(Model()), am, reg).val.m
    {
      var j := SkipWhite(s, pos);
      if At(s, j) == '#' {
        var am1 := am.(mode := Modes.Flag(Modes.Immediate));
        var e := EvalExpr(syms, pc, None, s, j + 1, am1.value, false, reg, false);
        if e.Abort? {
          return Abort(e.fatal);
        }
        var am2 := am1.(value := e.val.value);
        if e.val.err.Some? {
          return Ok(AddrReply(e.val.err, am2));
        }
        if am2.value > 255 || am2.value < 0 {
          return Ok(AddrReply(Some(AsmAddrImmediateToBig), am2));
        }
        return Ok(AddrReply(None, am2));
      } else if (At(s, j) == 'A' || At(s, j) == 'a') && IsEndOfArg(At(s, j + 1)) {
        var am1 := am.(mode := Modes.Flag(Modes.Accumulator));
        var k := SkipWhite(s, j + 1);
        if !IsEndOfLine(At(s, k)) {
          return Ok(AddrReply(Some(AsmUnexpectedCharacter), am1));
        }
        return Ok(AddrReply(None, am1));
      } else {
        // the test assigns `(` to the first character, and `(` is not zero
        var t := Overwrite(s, j);
        var e := EvalExpr(syms, pc, None, t, j, am.value, false, reg, true);
        if e.Abort? {
          return Abort(e.fatal);
        }
        var am1 := am.(value := e.val.value);
        if e.val.err.Some? {
          return Ok(AddrReply(e.val.err, am1));
        }
        if e.val.reg == BuiltInX {
          return Ok(AddrReply(None, am1.(mode := Modes.Flag(Modes.IndirectIX))));
        } else if e.val.reg == BuiltInY {
          return Ok(AddrReply(None, am1.(mode := Modes.Flag(Modes.IndirectIY))));
        }
        return Ok(AddrReply(Some(AsmInvalidAddressingMode), am1));
      }
    }
  }
}
