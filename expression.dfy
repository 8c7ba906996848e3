/** The expression evaluator as functions on values: the two bounded
    stacks, one application of an operator, the loops that pop operators,
    the handling of a closing parenthesis, the reading of one operand, and
    eval_expr itself, one term per recursive call.  The class in
    evaluator.dfy runs the same steps on arrays and is proved equal to
    these functions. */
module Expression {
  import opened Words
  import opened Lexer
  import opened Errors
  import opened Operators
  import opened Symbols
  import opened Modes

  const MaxOpStack: nat := 256
  const MaxNumStack: nat := 256

  /** The contents of the operator stack and the number stack, bottom first. */
  datatype Machine = Machine(ops: seq<Op>, nums: seq<int>)

  predicate WellFormed(m: Machine)
  {
    |m.ops| <= MaxOpStack && |m.nums| <= MaxNumStack &&
    forall i :: 0 <= i < |m.ops| ==> Listed(m.ops[i])
  }

  function Top<T>(s: seq<T>): T
    requires |s| > 0
  {
    s[|s| - 1]
  }

  function Pop<T>(s: seq<T>): seq<T>
    requires |s| > 0
  {
    s[..|s| - 1]
  }

  /** An item taken off a stack and the machine that remains. */
  datatype Popped<T> = Popped(item: T, rest: Machine)

  // push_opstack, pop_opstack, peek_opstack, push_numstack, pop_numstack

  function PushOp(m: Machine, op: Op): (r: Res<Machine>)
    ensures r.Abort? <==> |m.ops| >= MaxOpStack
    ensures r.Abort? ==> r.fatal == OpStackOverflow
    ensures r.Ok? ==> r.val.ops == m.ops + [op] && r.val.nums == m.nums
  {
    if |m.ops| > MaxOpStack - 1 then Abort(OpStackOverflow) else Ok(m.(ops := m.ops + [op]))
  }

  function PopOp(m: Machine): (r: Res<Popped<Op>>)
    ensures r.Abort? <==> |m.ops| == 0
    ensures r.Abort? ==> r.fatal == OpStackEmpty
    ensures r.Ok? ==> r.val.item == m.ops[|m.ops| - 1] && r.val.rest.ops == m.ops[..|m.ops| - 1] && r.val.rest.nums == m.nums
  {
    if |m.ops| == 0 then Abort(OpStackEmpty) else Ok(Popped(Top(m.ops), m.(ops := Pop(m.ops))))
  }

  function PeekOp(m: Machine): (r: Res<Op>)
    ensures r.Abort? <==> |m.ops| == 0
    ensures r.Abort? ==> r.fatal == OpStackEmpty
    ensures r.Ok? ==> r.val == m.ops[|m.ops| - 1]
  {
    if |m.ops| == 0 then Abort(OpStackEmpty) else Ok(Top(m.ops))
  }

  function PushNum(m: Machine, v: int): (r: Res<Machine>)
    ensures r.Abort? <==> |m.nums| >= MaxNumStack
    ensures r.Abort? ==> r.fatal == NumStackOverflow
    ensures r.Ok? ==> r.val.nums == m.nums + [v] && r.val.ops == m.ops
  {
    if |m.nums| > MaxNumStack - 1 then Abort(NumStackOverflow) else Ok(m.(nums := m.nums + [v]))
  }

  function PopNum(m: Machine): (r: Res<Popped<int>>)
    ensures r.Abort? <==> |m.nums| == 0
    ensures r.Abort? ==> r.fatal == NumStackEmpty
    ensures r.Ok? ==> r.val.item == m.nums[|m.nums| - 1] && r.val.rest.nums == m.nums[..|m.nums| - 1] && r.val.rest.ops == m.ops
  {
    if |m.nums| == 0 then Abort(NumStackEmpty) else Ok(Popped(Top(m.nums), m.(nums := Pop(m.nums))))
  }

  /** Both stacks are last in, first out: a pop after a successful push
      returns the pushed item and the machine from before the push. */
  lemma StackLifo(m: Machine, op: Op, v: int)
    ensures PushOp(m, op).Ok? ==>
      PeekOp(PushOp(m, op).val) == Ok(op) && PopOp(PushOp(m, op).val) == Ok(Popped(op, m))
    ensures PushNum(m, v).Ok? ==> PopNum(PushNum(m, v).val) == Ok(Popped(v, m))
  {
    if PushOp(m, op).Ok? {
      assert Pop(m.ops + [op]) == m.ops;
    }
    if PushNum(m, v).Ok? {
      assert Pop(m.nums + [v]) == m.nums;
    }
  }

  // Applying one operator

  function Arity(op: Op): nat
  {
    if op.unary then 1 else 2
  }

  /** The number stack after applying op: the right operand was on top, the
      left one below it, and eval(left, right) replaced them; a unary
      operator replaced its one operand by eval(x, 0). */
  predicate Applied(before: seq<int>, op: Op, after: seq<int>)
  {
    |before| >= Arity(op) && |after| == |before| - Arity(op) + 1 &&
    after[..|after| - 1] == before[..|before| - Arity(op)] &&
    (if op.unary then Apply(op, before[|before| - 1], 0) == Ok(after[|after| - 1])
     else Apply(op, before[|before| - 2], before[|before| - 1]) == Ok(after[|after| - 1]))
  }

  /** The body shared by all pop loops: pop an operator, pop its operands,
      push the result.  The popped operator is returned as well. */
  function PopApply(m: Machine): (r: Res<Popped<Op>>)
    ensures r.Ok? ==> |m.ops| > 0 && r.val.item == Top(m.ops) && r.val.rest.ops == Pop(m.ops)
    ensures r.Ok? ==> |m.nums| >= Arity(r.val.item) && |r.val.rest.nums| == |m.nums| - Arity(r.val.item) + 1
    ensures |m.ops| == 0 ==> r == Abort(OpStackEmpty)
    ensures |m.ops| > 0 && |m.nums| < Arity(Top(m.ops)) ==> r == Abort(NumStackEmpty)
  {
    match PopOp(m)
    case Abort(f) => Abort(f)
    case Ok(p) =>
      match PopNum(p.rest)
      case Abort(f) => Abort(f)
      case Ok(a2) =>
        if p.item.unary then
          match Apply(p.item, a2.item, 0)
          case Abort(f) => Abort(f)
          case Ok(v) =>
            match PushNum(a2.rest, v)
            case Abort(f) => Abort(f)
            case Ok(m2) => Ok(Popped(p.item, m2))
        else
          match PopNum(a2.rest)
          case Abort(f) => Abort(f)
          case Ok(a1) =>
            match Apply(p.item, a1.item, a2.item)
            case Abort(f) => Abort(f)
            case Ok(v) =>
              match PushNum(a1.rest, v)
              case Abort(f) => Abort(f)
              case Ok(m2) => Ok(Popped(p.item, m2))
  }

  /** A successful pass replaces the operator's operands by its value. */
  lemma PopApplyApplies(m: Machine)
    ensures PopApply(m).Ok? ==> Applied(m.nums, PopApply(m).val.item, PopApply(m).val.rest.nums)
  {
    if PopApply(m).Ok? {
      var p := PopOp(m).val;
      var a2 := PopNum(p.rest).val;
      if p.item.unary {
        var m2 := PushNum(a2.rest, Apply(p.item, a2.item, 0).val).val;
        assert m2.nums[..|m2.nums| - 1] == a2.rest.nums;
      } else {
        var a1 := PopNum(a2.rest).val;
        var m2 := PushNum(a1.rest, Apply(p.item, a1.item, a2.item).val).val;
        assert m.nums[..|m.nums| - 2] == a1.rest.nums;
        assert m2.nums[..|m2.nums| - 1] == a1.rest.nums;
      }
    }
  }

  /** Taking operators off the top and numbers off the stack keeps a
      machine well formed. */
  lemma ShrinkKeepsWellFormed(m: Machine, m1: Machine)
    requires WellFormed(m)
    requires |m1.ops| <= |m.ops| && m1.ops == m.ops[..|m1.ops|] && |m1.nums| <= |m.nums|
    ensures WellFormed(m1)
  {
    assert forall i :: 0 <= i < |m1.ops| ==> m1.ops[i] == m.ops[i];
  }

  /** The comparison both pop loops make: a left-associative incoming
      operator pops while its level is strictly greater, any other one while
      it is greater or equal. */
  predicate Binds(p: Op, q: Op)
  {
    if p.assoc == AssocLeft then p.level > q.level else p.level >= q.level
  }

  /** The pop loop for an ordinary incoming operator.  After a pop the
      operator compared next is the one just popped, not the new top, so
      the next operator down is popped on the strength of the previous
      one's level. */
  function PopChain(m: Machine, p: Op, last: Op): (r: Res<Machine>)
    ensures r.Ok? ==> |r.val.ops| <= |m.ops| && r.val.ops == m.ops[..|r.val.ops|]
    ensures r.Ok? ==> |r.val.nums| <= |m.nums|
    ensures !Binds(p, last) || |m.ops| == 0 ==> r == Ok(m)
    decreases |m.ops|
  {
    if |m.ops| > 0 && Binds(p, last) then
      match PopApply(m)
      case Abort(f) => Abort(f)
      case Ok(q) => PopChain(q.rest, p, q.item)
    else Ok(m)
  }

  /** One pass of the pop loop: the chain is the popped top's chain on
      the rest, or the abort of the pop. */
  lemma PopChainStep(m: Machine, p: Op, last: Op)
    requires |m.ops| > 0 && Binds(p, last)
    ensures PopApply(m).Abort? ==> PopChain(m, p, last) == Abort(PopApply(m).fatal)
    ensures PopApply(m).Ok? ==> PopChain(m, p, last) == PopChain(PopApply(m).val.rest, p, PopApply(m).val.item)
  {
  }

  /** How deep the chain pops, from the operators alone: it stops at the
      first compared operator that does not bind, or when the stack has
      run empty. */
  function ChainDepth(ops: seq<Op>, p: Op, last: Op): (n: nat)
    ensures n <= |ops|
    decreases |ops|
  {
    if |ops| > 0 && Binds(p, last) then ChainDepth(Pop(ops), p, Top(ops)) else |ops|
  }

  /** Which operators a chain of that depth pops: every popped operator
      but the deepest binds, and the deepest one does not unless the stack
      ran empty. */
  lemma {:induction false} ChainDepthPops(ops: seq<Op>, p: Op, last: Op)
    ensures var n := ChainDepth(ops, p, last);
      (forall i :: n < i < |ops| ==> Binds(p, ops[i])) &&
      (0 < n < |ops| ==> !Binds(p, ops[n])) &&
      (n < |ops| ==> Binds(p, last))
    decreases |ops|
  {
    if |ops| > 0 && Binds(p, last) {
      ChainDepthPops(Pop(ops), p, Top(ops));
      var n := ChainDepth(ops, p, last);
      forall i | n < i < |ops| ensures Binds(p, ops[i]) {
        if i < |ops| - 1 {
          assert ops[i] == Pop(ops)[i];
        }
      }
    }
  }

  /** The chain on the machine pops exactly that deep. */
  lemma {:induction false} PopChainDepth(m: Machine, p: Op, last: Op)
    requires PopChain(m, p, last).Ok?
    ensures |PopChain(m, p, last).val.ops| == ChainDepth(m.ops, p, last)
    decreases |m.ops|
  {
    if |m.ops| > 0 && Binds(p, last) {
      var q := PopApply(m).val;
      PopChainDepth(q.rest, p, q.item);
    }
  }

  /** Which operators the chain pops on the machine. */
  lemma PopChainPops(m: Machine, p: Op, last: Op)
    requires PopChain(m, p, last).Ok?
    ensures var r := PopChain(m, p, last).val;
      (forall i :: |r.ops| < i < |m.ops| ==> Binds(p, m.ops[i])) &&
      (0 < |r.ops| < |m.ops| ==> !Binds(p, m.ops[|r.ops|])) &&
      (|r.ops| < |m.ops| ==> Binds(p, last))
  {
    PopChainDepth(m, p, last);
    ChainDepthPops(m.ops, p, last);
  }

  /** The loop as entered: the operator compared first is the peeked top. */
  function PopWhileBinds(m: Machine, p: Op): (r: Res<Machine>)
    ensures r.Ok? ==> |r.val.ops| <= |m.ops| && r.val.ops == m.ops[..|r.val.ops|]
    ensures r.Ok? ==> |r.val.nums| <= |m.nums|
    ensures |m.ops| == 0 || !Binds(p, Top(m.ops)) ==> r == Ok(m)
  {
    if |m.ops| == 0 then Ok(m) else PopChain(m, p, Top(m.ops))
  }

  /** Once the top binds, the loop pops it and every operator below it down
      to and including the first that does not bind: one operator more than
      a loop that peeked again after each pop would take. */
  lemma PopWhileBindsPops(m: Machine, p: Op)
    requires PopWhileBinds(m, p).Ok?
    ensures var r := PopWhileBinds(m, p).val;
      (forall i :: |r.ops| < i < |m.ops| ==> Binds(p, m.ops[i])) &&
      (0 < |r.ops| < |m.ops| ==> !Binds(p, m.ops[|r.ops|]))
  {
    if |m.ops| > 0 {
      PopChainPops(m, p, Top(m.ops));
    }
  }

  /** One pass of the inner loop of the closing-parenthesis branch: pop
      and apply, then peek at the new top, which ends the process when the
      stack has run empty. */
  function ClosePassStep(m: Machine): (r: Res<Machine>)
    ensures r.Ok? ==> 0 < |r.val.ops| < |m.ops|
  {
    PeekAfter(PopApply(m))
  }

  /** The peek that follows the pop of a pass. */
  function PeekAfter(q: Res<Popped<Op>>): (r: Res<Machine>)
    ensures q.Abort? ==> r == Abort(q.fatal)
    ensures q.Ok? ==> r == (if |q.val.rest.ops| == 0 then Abort(OpStackEmpty) else Ok(q.val.rest))
  {
    match q
    case Abort(f) => Abort(f)
    case Ok(p) =>
      match PeekOp(p.rest)
      case Abort(f) => Abort(f)
      case Ok(_) => Ok(p.rest)
  }

  /** The inner loop of the closing-parenthesis branch: passes while the
      peeked top binds to `)`. */
  function CloseLoop(m: Machine, p: Op): (r: Res<Machine>)
    requires |m.ops| > 0
    ensures r.Ok? ==> |r.val.ops| > 0 && !Binds(p, Top(r.val.ops))
    decreases |m.ops|
  {
    if Binds(p, Top(m.ops)) then
      match ClosePassStep(m)
      case Abort(f) => Abort(f)
      case Ok(rest) => CloseLoop(rest, p)
    else Ok(m)
  }

  /** One pass of the inner loop: the loop is the pass's loop on what the
      pass leaves, or the abort of the pass. */
  lemma CloseLoopStep(m: Machine, p: Op)
    requires |m.ops| > 0 && Binds(p, Top(m.ops))
    ensures ClosePassStep(m).Abort? ==> CloseLoop(m, p) == Abort(ClosePassStep(m).fatal)
    ensures ClosePassStep(m).Ok? ==> CloseLoop(m, p) == CloseLoop(ClosePassStep(m).val, p)
  {
  }

  /** `)` sits at level 20, the top level of the table, so every stacked
      operator binds to it, `(` included, and the loop can only end by
      ending the process. */
  lemma {:induction false} CloseLoopAborts(m: Machine)
    requires WellFormed(m) && |m.ops| > 0
    ensures CloseLoop(m, CloseOp).Abort?
    decreases |m.ops|
  {
    TableShape(Top(m.ops));
    assert Binds(CloseOp, Top(m.ops));
    var q := ClosePassStep(m);
    if q.Ok? {
      ShrinkKeepsWellFormed(m, q.val);
      CloseLoopAborts(q.val);
    }
  }

  /** What an operator step leaves: the machine, and whether it ended in
      PARANTHESIS_MISSMATCH. */
  datatype Step = Step(m: Machine, mismatch: bool)

  /** The closing-parenthesis branch.  When the top is not `(` the outer
      loop's first pass ends the process (CloseLoopAborts), so the pushes of
      `)` and further passes are never reached.  Otherwise the `(` is
      popped; an empty stack is a mismatch. */
  function CloseParen(m: Machine): (r: Res<Step>)
    requires WellFormed(m)
    ensures |m.ops| == 0 ==> r == Ok(Step(m, true))
    ensures |m.ops| > 0 && Top(m.ops).id == ParenOpen ==> r == Ok(Step(m.(ops := Pop(m.ops)), false))
    ensures |m.ops| > 0 && Top(m.ops).id != ParenOpen ==> r.Abort?
  {
    if |m.ops| > 0 && PeekOp(m).val.id != ParenOpen then
      CloseLoopAborts(m);
      Abort(CloseLoop(m, CloseOp).fatal)
    else if |m.ops| > 0 then
      var q := PopOp(m).val;
      if q.item.id != ParenOpen then Ok(Step(q.rest, true)) else Ok(Step(q.rest, false))
    else Ok(Step(m, true))
  }

  /** The work done for an operator found in the input. */
  function OperatorStep(m: Machine, p: Op): (r: Res<Step>)
    requires WellFormed(m) && Listed(p)
    ensures r.Ok? ==> WellFormed(r.val.m)
    ensures r.Ok? && r.val.mismatch ==> p.id == ParenClose
    ensures p.id == ParenOpen ==> (r.Ok? <==> |m.ops| < MaxOpStack)
    ensures p.id == ParenOpen && r.Ok? ==> r.val == Step(m.(ops := m.ops + [p]), false)
  {
    if p.id == ParenOpen then
      (match PushOp(m, p)
       case Abort(f) => Abort(f)
       case Ok(m1) => Ok(Step(m1, false)))
    else if p.id == ParenClose then
      var r := CloseParen(m);
      if r.Ok? then
        ShrinkKeepsWellFormed(m, r.val.m);
        r
      else r
    else
      match PopWhileBinds(m, p)
      case Abort(f) => Abort(f)
      case Ok(m1) =>
        ShrinkKeepsWellFormed(m, m1);
        PushKeepsWellFormed(m1, p);
        match PushOp(m1, p)
        case Abort(f) => Abort(f)
        case Ok(m2) => Ok(Step(m2, false))
  }

  lemma PushKeepsWellFormed(m: Machine, p: Op)
    requires WellFormed(m) && Listed(p)
    ensures PushOp(m, p).Ok? ==> WellFormed(PushOp(m, p).val)
  {
  }

  /** The operator part of one call, at cursor j: the step taken, where the
      cursor goes, and whether an operator is expected next (after `)`). */
  datatype Advance = Advance(st: Step, cur: nat, opE: bool)

  function OperatorPart(s: string, j: nat, m: Machine): (r: Res<Advance>)
    requires WellFormed(m)
    ensures r.Ok? ==> WellFormed(r.val.st.m) && j <= r.val.cur
    ensures r.Ok? && r.val.cur == j ==> r.val.st == Step(m, false) && !r.val.opE
    ensures FindOp(s, j, 0).None? ==> r == Ok(Advance(Step(m, false), j, false))
  {
    match FindOp(s, j, 0)
    case None => Ok(Advance(Step(m, false), j, false))
    case Some(k) =>
      var p := OpAt(k);
      TableShape(p);
      match OperatorStep(m, p)
      case Abort(f) => Abort(f)
      case Ok(st) => Ok(Advance(st, j + |p.text|, p.id == ParenClose))
  }

  /** When an operator is found, the operator part is that operator's
      step, and the cursor moves past its text. */
  lemma OperatorFound(s: string, j: nat, m: Machine, k: nat)
    requires WellFormed(m) && FindOp(s, j, 0) == Some(k)
    ensures OperatorPart(s, j, m).Abort? <==> OperatorStep(m, OpAt(k)).Abort?
    ensures OperatorPart(s, j, m).Abort? ==> OperatorPart(s, j, m).fatal == OperatorStep(m, OpAt(k)).fatal
    ensures OperatorPart(s, j, m).Ok? ==>
      OperatorPart(s, j, m).val == Advance(OperatorStep(m, OpAt(k)).val, j + |Ops[k].text|, Ops[k].id == ParenClose)
  {
  }

  /** How many numbers the operators on a stack consume in all. */
  function Consumed(ops: seq<Op>): nat
  {
    if |ops| == 0 then 0 else Consumed(Pop(ops)) + Arity(Top(ops)) - 1
  }

  /** The end-of-argument loop: apply every pending operator.  Each binary
      operator leaves one number fewer. */
  function Drain(m: Machine): (r: Res<Machine>)
    ensures r.Ok? ==> r.val.ops == [] && |r.val.nums| + Consumed(m.ops) == |m.nums|
    decreases |m.ops|
  {
    if |m.ops| == 0 then Ok(m)
    else
      match PopApply(m)
      case Abort(f) => Abort(f)
      case Ok(q) => Drain(q.rest)
  }

  // One call of eval_expr

  /** The symbols visible to the evaluator, the program counter, and the
      entry (if any) whose value field is the *value cell of the call: a
      `name = expr` line evaluates straight into the new entry, so a use of
      that name inside the expression reads whatever was last stored. */
  datatype Env = Env(symbols: seq<Entry>, pc: int, alias: Option<nat>)

  predicate EnvOk(env: Env)
  {
    forall i :: 0 <= i < |env.symbols| ==> env.symbols[i].nameLength >= 1
  }

  /** The stacks plus the two cells eval_expr writes through: *value and,
      when a register pointer is passed, *reg. */
  datatype Cells = Cells(m: Machine, value: int, reg: int)

  /** After the operand: go on from cursor cur, or return an error code. */
  datatype Stage = Next(c: Cells, cur: nat) | Stop(err: ErrorId, c: Cells)

  /** strtoul from cursor k in the given base; its result, cut to an int,
      is stored in *value before errno is looked at, and pushed when errno
      is clear. */
  function Digits(s: string, k: nat, base: nat, c: Cells): (r: Res<Stage>)
    requires WellFormed(c.m) && base in {2, 8, 10, 16}
    ensures r.Ok? ==> WellFormed(r.val.c.m)
    ensures r.Ok? && r.val.Next? ==> r.val.cur == StrToUL(s, k, base).stop
    ensures r.Ok? && r.val.Next? ==> r.val.c.m.ops == c.m.ops && r.val.c.reg == c.reg
    ensures r.Ok? && r.val.Next? ==> r.val.c.m.nums == c.m.nums + [r.val.c.value]
    ensures r.Ok? && r.val.Stop? ==> r.val.err == NotAValidNumber && r.val.c.m == c.m
    ensures r.Abort? ==> r.fatal == NumStackOverflow
    ensures StrToUL(s, k, base).erange ==> r.Ok? && r.val.Stop? && r.val.c.value == -1 && r.val.c.reg == c.reg
    ensures !StrToUL(s, k, base).erange && r.Ok? ==> r.val.Next? && r.val.c.value == Wrap32(StrToUL(s, k, base).value)
  {
    var conv := StrToUL(s, k, base);
    var v := Wrap32(conv.value);
    WrapULongMax();
    if conv.erange then Ok(Stop(NotAValidNumber, c.(value := v)))
    else
      match PushNum(c.m, v)
      case Abort(f) => Abort(f)
      case Ok(m1) => Ok(Next(Cells(m1, v, c.reg), conv.stop))
  }

  /** A numeral: hexadecimal after `$`, binary after `%`, octal after `&`,
      decimal otherwise. */
  function Numeral(s: string, j: nat, c: Cells): (r: Res<Stage>)
    requires WellFormed(c.m)
    requires IsDigit(At(s, j)) || At(s, j) in "-+$%&"
    ensures r.Ok? ==> WellFormed(r.val.c.m)
    ensures r.Ok? && r.val.Next? ==> j < r.val.cur && r.val.c.m.ops == c.m.ops
    ensures r.Ok? && r.val.Next? ==> r.val.c.m.nums == c.m.nums + [r.val.c.value] && r.val.c.reg == c.reg
    ensures r.Ok? && r.val.Stop? ==> r.val.err == NotAValidNumber && r.val.c.m == c.m
    ensures (At(s, j) in "+-" && !IsDigit(At(s, j + 1))) ==> r == Ok(Stop(NotAValidNumber, c))
    ensures At(s, j) == '$' && !IsXDigit(At(s, j + 1)) ==> r == Ok(Stop(NotAValidNumber, c))
    ensures At(s, j) in "%&" && !IsDigit(At(s, j + 1)) ==> r == Ok(Stop(NotAValidNumber, c))
  {
    var ch := At(s, j);
    if (ch == '+' || ch == '-') && !IsDigit(At(s, j + 1)) then Ok(Stop(NotAValidNumber, c))
    else if ch == '$' then
      if !IsXDigit(At(s, j + 1)) then Ok(Stop(NotAValidNumber, c)) else Digits(s, j + 1, 16, c)
    else if ch == '%' then
      if !IsDigit(At(s, j + 1)) then Ok(Stop(NotAValidNumber, c)) else Digits(s, j + 1, 2, c)
    else if ch == '&' then
      if !IsDigit(At(s, j + 1)) then Ok(Stop(NotAValidNumber, c)) else Digits(s, j + 1, 8, c)
    else
      assert DigitVal(At(s, j), 10).Some? || (At(s, j) in "+-" && DigitVal(At(s, j + 1), 10).Some?);
      Digits(s, j, 10, c)
  }

  /** A name operand: a user symbol (its value is pushed and the cursor
      moves past its name), else a built-in (its value is pushed, and also
      stored in *reg when the caller asked for it).  A name that is neither
      crashes in the built-in scan, so the SYMBOL_NOT_FOUND return that
      follows it in eval_expr is never reached. */
  function Name(env: Env, s: string, j: nat, c: Cells, wantReg: bool): (r: Res<Stage>)
    requires EnvOk(env) && WellFormed(c.m) && IsAlpha(At(s, j))
    ensures r.Ok? ==> WellFormed(r.val.c.m)
    ensures r.Ok? && r.val.Next? ==> j < r.val.cur && r.val.c.m.ops == c.m.ops
    ensures r.Ok? && r.val.Next? ==> |r.val.c.m.nums| == |c.m.nums| + 1 && r.val.c.m.nums[..|c.m.nums|] == c.m.nums
    ensures r.Ok? && r.val.Next? ==> r.val.c.value == c.value
    ensures r.Ok? ==> r.val.Next?
    ensures Lookup(env.symbols, s, j).None? && FindBuiltIn(Arg(s, j), 0).None? ==> r == Abort(NullBuiltInName)
    ensures !wantReg ==> r.Ok? ==> r.val.c.reg == c.reg
    ensures r.Ok? && Lookup(env.symbols, s, j).Some? ==>
      var i := Lookup(env.symbols, s, j).value;
      r.val.c.m.nums == c.m.nums + [if env.alias == Some(i) then c.value else env.symbols[i].value] &&
      r.val.cur == j + env.symbols[i].nameLength && r.val.c.reg == c.reg
    ensures r.Ok? && Lookup(env.symbols, s, j).None? ==>
      FindBuiltIn(Arg(s, j), 0).Some? &&
      var v := BuiltInValue(BuiltIns[FindBuiltIn(Arg(s, j), 0).value].getter, env.pc);
      r.val.c.m.nums == c.m.nums + [v] && r.val.cur == ArgStop(s, j) && (wantReg ==> r.val.c.reg == v)
  {
    match Lookup(env.symbols, s, j)
    case Some(i) =>
      var v := if env.alias == Some(i) then c.value else env.symbols[i].value;
      (match PushNum(c.m, v)
       case Abort(f) => Abort(f)
       case Ok(m1) => Ok(Next(c.(m := m1), j + env.symbols[i].nameLength)))
    case None =>
      match FindBuiltIn(Arg(s, j), 0)
      case None => Abort(NullBuiltInName)
      case Some(k) =>
        var v := BuiltInValue(BuiltIns[k].getter, env.pc);
        match PushNum(c.m, v)
        case Abort(f) => Abort(f)
        case Ok(m1) => Ok(Next(Cells(m1, c.value, if wantReg then v else c.reg), ArgStop(s, j)))
  }

  /** The operand part of one call: a name (user symbol first, then
      built-in), a numeral, or nothing. */
  function Operand(env: Env, s: string, j: nat, c: Cells, opExpected: bool, wantReg: bool): (r: Res<Stage>)
    requires EnvOk(env) && WellFormed(c.m)
    ensures r.Ok? ==> WellFormed(r.val.c.m)
    ensures r.Ok? && r.val.Next? ==> j <= r.val.cur && (r.val.cur == j ==> r.val.c == c)
    ensures r.Ok? && r.val.Next? ==> r.val.c.m.ops == c.m.ops && |r.val.c.m.nums| <= |c.m.nums| + 1
    ensures r.Ok? && r.val.Stop? ==> r.val.c.m == c.m && r.val.err == NotAValidNumber
    ensures opExpected ==> r == Ok(Next(c, j))
    ensures !wantReg ==> r.Ok? ==> r.val.c.reg == c.reg
  {
    var ch := At(s, j);
    if !opExpected && IsAlpha(ch) then Name(env, s, j, c, wantReg)
    else if !opExpected && (IsDigit(ch) || ch in "-+$%&") then Numeral(s, j, c)
    else Ok(Next(c, j))
  }

  /** What one top-level call of eval_expr returns: the error code (None for
      OK), the stacks and cells, and what it wrote through outptr. */
  datatype EvalResult = EvalResult(err: Option<ErrorId>, c: Cells, out: Option<nat>)

  /** The end of the argument: every pending operator is applied, and if a
      number is left the top one becomes *value and the cursor is written
      through outptr. */
  function Finish(c: Cells, j: nat): (r: Res<EvalResult>)
    requires WellFormed(c.m)
    ensures r.Ok? ==> r.val.err.None? && r.val.c.m.ops == [] && WellFormed(r.val.c.m) && r.val.c.reg == c.reg
    ensures r.Ok? && r.val.out.Some? ==> r.val.out.value == j
    ensures r.Ok? ==> Drain(c.m).Ok? && (r.val.out.Some? <==> |Drain(c.m).val.nums| > 0)
    ensures r.Ok? && r.val.out.Some? ==>
      r.val.c.value == Top(Drain(c.m).val.nums) && r.val.c.m.nums == Pop(Drain(c.m).val.nums)
  {
    match Drain(c.m)
    case Abort(f) => Abort(f)
    case Ok(m1) =>
      if |m1.nums| > 0 then Ok(EvalResult(None, Cells(m1.(nums := Pop(m1.nums)), Top(m1.nums), c.reg), Some(j)))
      else Ok(EvalResult(None, c.(m := m1), None))
  }

  /** eval_expr(s + pos, outptr, value, opExpected, wantReg ? reg : NULL).
      A call reads one operand, then at most one operator, and recurses while
      the argument goes on.  A call that consumed nothing and would recurse
      on the very same state never ends (Diverges).  The result of a
      recursive call is returned unchanged, except that it wrote its cursor
      into this call's local pointer, not the caller's: out is None. */
  function Eval(env: Env, s: string, pos: nat, c: Cells, opExpected: bool, wantReg: bool): (r: Res<EvalResult>)
    requires EnvOk(env) && WellFormed(c.m)
    ensures r.Ok? ==> WellFormed(r.val.c.m)
    ensures r.Ok? && r.val.err.Some? ==> (r.val.err.value == NotAValidNumber || r.val.err.value == ParanthesisMissmatch)
    ensures r.Ok? && r.val.err.None? ==> r.val.c.m.ops == []
    ensures !wantReg && r.Ok? ==> r.val.c.reg == c.reg
    decreases if pos < |s| then |s| - pos else 0, opExpected, 1
  {
    var j := FirstNonWhite(s, pos);
    match Operand(env, s, j, c, opExpected, wantReg)
    case Abort(f) => Abort(f)
    case Ok(Stop(e, c1)) => Ok(EvalResult(Some(e), c1, None))
    case Ok(Next(c1, k)) => EvalAfter(env, s, pos, j, c1, k, opExpected, wantReg)
  }

  /** The rest of one call of eval_expr after an operand read from j that
      left the cells c1 and the cursor at k: at most one operator, then the
      end of the argument or the recursive call. */
  function EvalAfter(env: Env, s: string, pos: nat, j: nat, c1: Cells, k: nat, opExpected: bool, wantReg: bool)
    : (r: Res<EvalResult>)
    requires EnvOk(env) && WellFormed(c1.m)
    requires j == FirstNonWhite(s, pos) && j <= k
    ensures r.Ok? ==> WellFormed(r.val.c.m)
    ensures r.Ok? && r.val.err.Some? ==> (r.val.err.value == NotAValidNumber || r.val.err.value == ParanthesisMissmatch)
    ensures r.Ok? && r.val.err.None? ==> r.val.c.m.ops == []
    ensures !wantReg && r.Ok? ==> r.val.c.reg == c1.reg
    decreases if pos < |s| then |s| - pos else 0, opExpected, 0
  {
    var j2 := FirstNonWhite(s, k);
    match OperatorPart(s, j2, c1.m)
    case Abort(f) => Abort(f)
    case Ok(adv) =>
      var c2 := c1.(m := adv.st.m);
      if adv.st.mismatch then Ok(EvalResult(Some(ParanthesisMissmatch), c2, None))
      else
        var j3 := FirstNonWhite(s, adv.cur);
        if !IsEndOfArg(At(s, j3)) then
          if j3 == j && !adv.opE && !opExpected then Abort(Diverges)
          else
            match Eval(env, s, j3, c2, adv.opE, wantReg)
            case Abort(f) => Abort(f)
            case Ok(inner) => Ok(inner.(out := None))
        else Finish(c2, j3)
  }

  // evaluate_address

  /** struct address_mode: a mode flag and a value.  Either field may hold
      whatever the caller's uninitialised variable held. */
  datatype AddressMode = AddressMode(mode: int, value: int)

  /** What evaluate_address leaves: the code, the mode struct, the stacks. */
  datatype Addressed = Addressed(err: Option<ErrorId>, am: AddressMode, m: Machine)

  /** The line after `*buf = '('` at position j: the character there is
      replaced, or the terminator if j is at the end. */
  function Overwrite(s: string, j: nat): (t: string)
    ensures |t| == if j < |s| then |s| else j + 1
    ensures At(t, j) == '(' && forall k :: 0 <= k < |t| && k != j ==> t[k] == At(s, k)
  {
    seq(if j < |s| then |s| else j + 1, k requires 0 <= k => if k == j then '(' else At(s, k))
  }

  /** The `#` branch of evaluate_address: immediate mode; the text after
      the `#` is evaluated and must lie in 0..255. */
  function Immediate(env: Env, s: string, j: nat, m: Machine, am: AddressMode, reg: int): (r: Res<Addressed>)
    requires EnvOk(env) && WellFormed(m)
    ensures r.Ok? ==> WellFormed(r.val.m) && r.val.am.mode == Flag(Modes.Immediate)
    ensures r.Ok? && r.val.err.None? ==> 0 <= r.val.am.value <= 255
    ensures r.Ok? ==>
      var e := Eval(env, s, j + 1, Cells(m, am.value, reg), false, false);
      e.Ok? && e.val.c.value == r.val.am.value &&
      (r.val.err == Some(AsmAddrImmediateToBig) <==> e.val.err.None? && !(0 <= e.val.c.value <= 255))
  {
    var am1 := am.(mode := Flag(Modes.Immediate));
    match Eval(env, s, j + 1, Cells(m, am1.value, reg), false, false)
    case Abort(f) => Abort(f)
    case Ok(e) =>
      var am2 := am1.(value := e.c.value);
      if e.err.Some? then Ok(Addressed(e.err, am2, e.c.m))
      else if am2.value > 255 || am2.value < 0 then Ok(Addressed(Some(AsmAddrImmediateToBig), am2, e.c.m))
      else Ok(Addressed(None, am2, e.c.m))
  }

  /** The third branch of evaluate_address: the operand, its first
      character overwritten with `(`, is evaluated with a register cell;
      register X means indirect-X, register Y indirect-Y, anything else is
      an invalid addressing mode. */
  function Indirect(env: Env, s: string, j: nat, m: Machine, am: AddressMode, reg: int): (r: Res<Addressed>)
    requires EnvOk(env) && WellFormed(m)
    ensures r.Ok? ==> WellFormed(r.val.m)
    ensures r.Ok? && r.val.err.None? ==> (r.val.am.mode == Flag(IndirectIX) || r.val.am.mode == Flag(IndirectIY))
    ensures r.Ok? ==>
      var e := Eval(env, Overwrite(s, j), j, Cells(m, am.value, reg), false, true);
      e.Ok? && r.val.am.value == e.val.c.value &&
      (e.val.err.None? && e.val.c.reg == BuiltInX ==> r.val.err.None? && r.val.am.mode == Flag(IndirectIX)) &&
      (e.val.err.None? && e.val.c.reg == BuiltInY ==> r.val.err.None? && r.val.am.mode == Flag(IndirectIY)) &&
      (e.val.err.None? && e.val.c.reg != BuiltInX && e.val.c.reg != BuiltInY ==>
        r.val.err == Some(AsmInvalidAddressingMode))
  {
    match Eval(env, Overwrite(s, j), j, Cells(m, am.value, reg), false, true)
    case Abort(f) => Abort(f)
    case Ok(e) =>
      var am1 := am.(value := e.c.value);
      if e.err.Some? then Ok(Addressed(e.err, am1, e.c.m))
      else if e.c.reg == BuiltInX then Ok(Addressed(None, am1.(mode := Flag(IndirectIX)), e.c.m))
      else if e.c.reg == BuiltInY then Ok(Addressed(None, am1.(mode := Flag(IndirectIY)), e.c.m))
      else Ok(Addressed(Some(AsmInvalidAddressingMode), am1, e.c.m))
  }

  /** A lone `A` or `a` names the accumulator. */
  predicate NamesAccumulator(s: string, j: nat)
  {
    (At(s, j) == 'A' || At(s, j) == 'a') && IsEndOfArg(At(s, j + 1))
  }

  /** evaluate_address: skip white space, then take one of three
      branches.  The third branch's test assigns `(` instead of comparing,
      so it is taken for every operand that is neither immediate nor the
      accumulator; reg is the value the uninitialised register local holds. */
  function EvaluateAddress(env: Env, s: string, pos: nat, m: Machine, am: AddressMode, reg: int): (r: Res<Addressed>)
    requires EnvOk(env) && WellFormed(m)
    ensures r.Ok? ==> WellFormed(r.val.m)
    ensures r.Ok? && r.val.err.None? ==>
      (r.val.am.mode == Flag(Modes.Immediate) || r.val.am.mode == Flag(Accumulator) || r.val.am.mode == Flag(IndirectIX) || r.val.am.mode == Flag(IndirectIY))
    ensures var j := FirstNonWhite(s, pos);
      At(s, j) == '#' ==> r == Immediate(env, s, j, m, am, reg)
    ensures var j := FirstNonWhite(s, pos);
      At(s, j) != '#' && NamesAccumulator(s, j) ==>
        r == Ok(Addressed(if IsEndOfLine(At(s, FirstNonWhite(s, j + 1))) then None else Some(AsmUnexpectedCharacter),
                          am.(mode := Flag(Accumulator)), m))
    ensures var j := FirstNonWhite(s, pos);
      At(s, j) != '#' && !NamesAccumulator(s, j) ==> r == Indirect(env, s, j, m, am, reg)
  {
    var j := FirstNonWhite(s, pos);
    if At(s, j) == '#' then
      Immediate(env, s, j, m, am, reg)
    else if NamesAccumulator(s, j) then
      var am1 := am.(mode := Flag(Accumulator));
      if !IsEndOfLine(At(s, FirstNonWhite(s, j + 1))) then Ok(Addressed(Some(AsmUnexpectedCharacter), am1, m))
      else Ok(Addressed(None, am1, m))
    else
      Indirect(env, s, j, m, am, reg)
  }
}
