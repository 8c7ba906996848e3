/** What the assembler does with one source line: the label, the `=`/EQU
    assignment, the directive and mnemonic dispatch, and the handlers that
    do work (CPU, ORG, ASL, LDA, LDX, SEI).  The globals the handlers touch
    (cpu, PC, the symbol list, the two expression stacks and the bytes
    handed to output) make up an AsmState; a handler is a function from the
    state before to an Effect: the code it returns and the state after. */
module Lines {
  import opened Words
  import opened Lexer
  import opened Errors
  import opened Operators
  import opened Symbols
  import opened Modes
  import opened Expression
  import opened Tables

  /** One call of output(): the address it was written at and the bytes. */
  datatype Chunk = Chunk(addr: int, bytes: seq<int>)

  /** The globals: the selected cpu, PC, the symbol list, the expression
      stacks (they survive from one line to the next) and the output. */
  datatype AsmState = AsmState(cpu: Cpu, pc: int, symbols: seq<Entry>, m: Machine, out: seq<Chunk>)

  predicate StateOk(st: AsmState)
  {
    EnvOk(Env(st.symbols, st.pc, None)) && WellFormed(st.m)
  }

  /** A handler's return code and the globals afterwards.  After Aborted
      the process has ended and the state means nothing. */
  datatype Effect = Effect(outcome: Outcome, st: AsmState)

  /** What the handlers' uninitialised locals hold: the address_mode
      struct, the register cell evaluate_address passes to eval_expr, and
      asm_sei's data byte. */
  datatype Junk = Junk(am: AddressMode, reg: int, byte: int)

  /** output(): the bytes go out at PC, and PC (an int) moves past them. */
  function Emit(st: AsmState, bytes: seq<int>): AsmState
  {
    st.(out := st.out + [Chunk(st.pc, bytes)], pc := Wrap32(st.pc + |bytes|))
  }

  /** The output after is the output before plus at most one chunk. */
  predicate OutGrows(before: seq<Chunk>, after: seq<Chunk>)
  {
    |before| <= |after| <= |before| + 1 && after[..|before|] == before
  }

  /** A statement's effect on the globals: the symbol list stays, the
      output gains at most one chunk, and the stacks stay well formed. */
  predicate StatementKeeps(st: AsmState, st': AsmState)
  {
    st'.symbols == st.symbols && OutGrows(st.out, st'.out) && StateOk(st')
  }

  /** The handlers' effect on the globals: the symbol list and cpu stay,
      the output gains at most one chunk, and the stacks are the old ones
      or those evaluate_address left. */
  predicate HandlerStep(st: AsmState, r: Res<Addressed>, st': AsmState)
  {
    st'.symbols == st.symbols && st'.cpu == st.cpu && OutGrows(st.out, st'.out) &&
    (st'.m == st.m || (r.Ok? && st'.m == r.val.m))
  }

  // dir_cpu

  /** The first cm row at or after k whose name begins the argument. */
  function FindCpu(arg: string, k: nat): (r: Option<nat>)
    ensures r.Some? ==> k <= r.value < |CpuModels| && IsPrefix(CpuModels[r.value].name, arg)
    ensures r.Some? ==> forall i :: k <= i < r.value ==> !IsPrefix(CpuModels[i].name, arg)
    ensures r.None? ==> forall i :: k <= i < |CpuModels| ==> !IsPrefix(CpuModels[i].name, arg)
    decreases |CpuModels| - k
  {
    if k >= |CpuModels| then None
    else if IsPrefix(CpuModels[k].name, arg) then Some(k)
    else FindCpu(arg, k + 1)
  }

  /** dir_cpu: the first supported model whose name begins the argument
      becomes the cpu; otherwise CPU_NOT_SUPPORTED and nothing changes. */
  function SelectCpu(st: AsmState, s: string, j: nat): Effect
  {
    match FindCpu(Arg(s, j), 0)
    case Some(k) => Effect(Done, st.(cpu := CpuModels[k].id))
    case None => Effect(Failed(CpuNotSupported), st)
  }

  // dir_org

  /** dir_org: a numeric argument becomes PC; any other argument leaves PC
      alone.  Either way the code is OK. */
  function SetOrigin(st: AsmState, s: string, j: nat): Effect
  {
    match GetValue(s, j)
    case Some(v) => Effect(Done, st.(pc := v))
    case None => Effect(Done, st)
  }

  /** ORG with a '$' and hexadecimal digits sets PC to their value
      truncated to 32 bits, or to -1 when strtoul saturates. */
  lemma OriginFromHex(st: AsmState, s: string, j: nat, ds: seq<nat>)
    requires |ds| > 0 && DigitsBelow(ds, 16) && Arg(s, j) == "$" + Spelled(ds, 16)
    ensures SetOrigin(st, s, j) ==
      Effect(Done, st.(pc := if Horner(ds, 16) <= ULongMax then Wrap32(Horner(ds, 16)) else -1))
  {
    GetValueByArg(s, j);
    GetValueHex(ds);
  }

  /** ORG with decimal digits sets PC the same way. */
  lemma OriginFromDecimal(st: AsmState, s: string, j: nat, ds: seq<nat>)
    requires |ds| > 0 && DigitsBelow(ds, 10) && Arg(s, j) == Spelled(ds, 10)
    ensures SetOrigin(st, s, j) ==
      Effect(Done, st.(pc := if Horner(ds, 10) <= ULongMax then Wrap32(Horner(ds, 10)) else -1))
  {
    GetValueByArg(s, j);
    GetValueDecimal(ds);
  }

  /** ORG with any other argument changes nothing. */
  lemma OriginIgnoresOther(st: AsmState, s: string, j: nat)
    requires !IsDigit(At(Arg(s, j), 0)) && At(Arg(s, j), 0) != '$'
    ensures SetOrigin(st, s, j) == Effect(Done, st)
  {
  }

  // asm_asl, asm_lda, asm_ldx

  /** The test `mode.mode & am->amodes`; a mode evaluate_address sets is a
      positive flag. */
  predicate Accepts(mask: nat, mode: int)
  {
    mode >= 0 && And(mode, mask) != 0
  }

  /** The mode a flag value stands for, as the handlers' switch reads it. */
  function ModeOfFlag(v: int): (r: Option<Mode>)
    ensures r.Some? ==> Flag(r.value) == v
  {
    if v == 0x0001 then Some(Unused)
    else if v == 0x0002 then Some(Accumulator)
    else if v == 0x0004 then Some(Absolute)
    else if v == 0x0008 then Some(AbsoluteIX)
    else if v == 0x0010 then Some(AbsoluteIY)
    else if v == 0x0020 then Some(Modes.Immediate)
    else if v == 0x0040 then Some(Implied)
    else if v == 0x0080 then Some(Modes.Indirect)
    else if v == 0x0100 then Some(IndirectIX)
    else if v == 0x0200 then Some(IndirectIY)
    else if v == 0x0400 then Some(Relative)
    else if v == 0x0800 then Some(Zeropage)
    else if v == 0x1000 then Some(ZeropageIX)
    else if v == 0x2000 then Some(ZeropageIY)
    else None
  }

  /** Every mode is read back from its flag. */
  lemma ModeOfFlagInverse(md: Mode)
    ensures ModeOfFlag(Flag(md)) == Some(md)
  {
  }

  /** Where the shared head of asm_asl, asm_lda and asm_ldx leaves off:
      the handler has already returned, or the mode passed the mask. */
  datatype Checked = Rejected(e: Effect) | Accepted(st: AsmState, am: AddressMode)

  /** evaluate_address on the handler's operand, over the globals; the
      mode struct and the register cell are the handler's uninitialised
      locals. */
  function Address(st: AsmState, s: string, j: nat, junk: Junk): Res<Addressed>
    requires StateOk(st)
  {
    EvaluateAddress(Env(st.symbols, st.pc, None), s, j, st.m, junk.am, junk.reg)
  }

  /** The mask test on what evaluate_address returned: its abort and its
      error code are passed on, a mode outside the mask is an invalid
      addressing mode. */
  function CheckMode(st: AsmState, r: Res<Addressed>, mask: nat): Checked
  {
    match r
    case Abort(f) => Rejected(Effect(Aborted(f), st))
    case Ok(a) =>
      var st1 := st.(m := a.m);
      if a.err.Some? then Rejected(Effect(Failed(a.err.value), st1))
      else if !Accepts(mask, a.am.mode) then Rejected(Effect(Failed(AsmInvalidAddressingMode), st1))
      else Accepted(st1, a.am)
  }

  /** What asm_asl does with evaluate_address's answer: only the mode test. */
  function AslResult(st: AsmState, r: Res<Addressed>, mask: nat): (e: Effect)
    ensures HandlerStep(st, r, e.st)
  {
    match CheckMode(st, r, mask)
    case Rejected(e) => e
    case Accepted(st1, _) => Effect(Done, st1)
  }

  /** asm_asl. */
  function AslHandler(st: AsmState, s: string, j: nat, junk: Junk, row: Mnemonic): Effect
    requires StateOk(st)
  {
    AslResult(st, Address(st, s, j, junk), row.amodes)
  }

  /** The case labels of the switch in asm_lda (and the other rows that
      share its mode list) or asm_ldx. */
  predicate SwitchCase(h: MnemonicHandler, md: Mode)
  {
    if h == Ldx then LdxListed(md) else AluListed(md)
  }

  /** The switch of asm_lda / asm_ldx on a mode that passed the mask: the
      mode must be one of the switch's cases (otherwise "internal error"
      and exit); immediate mode outputs the opcode for the mode and the
      operand byte, every other case outputs nothing. */
  function LoadSwitch(st: AsmState, am: AddressMode, row: Mnemonic): (e: Effect)
    ensures e.st.symbols == st.symbols && e.st.cpu == st.cpu && e.st.m == st.m && OutGrows(st.out, e.st.out)
  {
    match ModeOfFlag(am.mode)
    case None => Effect(Aborted(InternalError), st)
    case Some(md) =>
      if !SwitchCase(row.handler, md) then Effect(Aborted(InternalError), st)
      else if md == Modes.Immediate then
        Mode2DecOfFlag(md);
        Effect(Done, Emit(st, [row.opcodes[Mode2DecValue(am.mode)], am.value % 256]))
      else Effect(Done, st)
  }

  /** What asm_lda / asm_ldx do with evaluate_address's answer: the mode
      test, then the switch. */
  function LoadResult(st: AsmState, r: Res<Addressed>, row: Mnemonic): (e: Effect)
    ensures HandlerStep(st, r, e.st)
  {
    match CheckMode(st, r, row.amodes)
    case Rejected(e) => e
    case Accepted(st1, am) => LoadSwitch(st1, am, row)
  }

  /** asm_lda / asm_ldx. */
  function LoadHandler(st: AsmState, s: string, j: nat, junk: Junk, row: Mnemonic): Effect
    requires StateOk(st)
  {
    LoadResult(st, Address(st, s, j, junk), row)
  }

  // asm_sei

  /** asm_sei: nothing but blanks may follow; then one byte goes out, the
      handler's uninitialised data byte. */
  function SeiHandler(st: AsmState, s: string, j: nat, junk: Junk): Effect
  {
    if !IsEndOfLine(At(s, FirstNonWhite(s, j))) then Effect(Failed(AsmUnexpectedCharacter), st)
    else Effect(Done, Emit(st, [junk.byte % 256]))
  }

  // parse

  /** The handler a mnemonic row points to, on the text after the mnemonic.
      The rows without a modelled handler only clear the line and return OK. */
  function RunMnemonic(st: AsmState, s: string, j: nat, junk: Junk, row: Mnemonic): (e: Effect)
    requires StateOk(st)
    ensures StatementKeeps(st, e.st)
  {
    match row.handler
    case Asl => AslHandler(st, s, j, junk, row)
    case Lda => LoadHandler(st, s, j, junk, row)
    case Ldx => LoadHandler(st, s, j, junk, row)
    case Sei => SeiHandler(st, s, j, junk)
    case Stub => Effect(Done, st)
  }

  /** The handler a directive row points to, on the text after the name. */
  function RunDirective(st: AsmState, s: string, j: nat, d: Directive): (e: Effect)
    ensures e.st == st.(cpu := e.st.cpu, pc := e.st.pc)
  {
    match d.handler
    case CpuDirective => SelectCpu(st, s, j)
    case OrgDirective => SetOrigin(st, s, j)
    case _ => Effect(Done, st)
  }

  /** The first row at or after k of a directive table whose name is
      spelled, exactly and in upper case, at position j. */
  function FindDirective(rows: seq<Directive>, s: string, j: nat, k: nat): (r: Option<nat>)
    ensures r.Some? ==> k <= r.value < |rows| && TextAt(rows[r.value].name, s, j)
    ensures r.Some? ==> forall i :: k <= i < r.value ==> !TextAt(rows[i].name, s, j)
    ensures r.None? ==> forall i :: k <= i < |rows| ==> !TextAt(rows[i].name, s, j)
    decreases |rows| - k
  {
    if k >= |rows| then None
    else if TextAt(rows[k].name, s, j) then Some(k)
    else FindDirective(rows, s, j, k + 1)
  }

  /** The first row at or after k of a mnemonic table whose name begins
      the upper-cased word. */
  function FindMnemonic(rows: seq<Mnemonic>, word: string, k: nat): (r: Option<nat>)
    ensures r.Some? ==> k <= r.value < |rows| && IsPrefix(rows[r.value].name, word)
    ensures r.Some? ==> forall i :: k <= i < r.value ==> !IsPrefix(rows[i].name, word)
    ensures r.None? ==> forall i :: k <= i < |rows| ==> !IsPrefix(rows[i].name, word)
    decreases |rows| - k
  {
    if k >= |rows| then None
    else if IsPrefix(rows[k].name, word) then Some(k)
    else FindMnemonic(rows, word, k + 1)
  }

  /** The mnemonic half of parse: the first word, cut to ten characters
      and upper-cased, against a mnemonic table; the handler gets the text
      right after the name. */
  function MnemonicStage(rows: seq<Mnemonic>, st: AsmState, s: string, j: nat, junk: Junk): (e: Effect)
    requires StateOk(st)
    ensures StatementKeeps(st, e.st)
  {
    StageFor(rows, FindMnemonic(rows, UpperWord(s, j, 10), 0), st, s, j, junk)
  }

  /** The mnemonic stage once the search has given f. */
  function StageFor(rows: seq<Mnemonic>, f: Option<nat>, st: AsmState, s: string, j: nat, junk: Junk): (e: Effect)
    requires StateOk(st) && (f.Some? ==> f.value < |rows|)
    ensures StatementKeeps(st, e.st)
  {
    match f
    case Some(k) => RunMnemonic(st, s, j + |rows[k].name|, junk, rows[k])
    case None => Effect(Failed(NoValidDirectiveOrMnemonic), st)
  }

  /** parse over a directive table and a mnemonic table: directives
      first, compared case-sensitively on the line, then the mnemonic
      stage.  A directive's handler gets the text right after its name. */
  function ParseIn(dirs: seq<Directive>, rows: seq<Mnemonic>, st: AsmState, s: string, j: nat, junk: Junk): (e: Effect)
    requires StateOk(st)
    ensures StatementKeeps(st, e.st)
  {
    ParseFor(dirs, rows, FindDirective(dirs, s, j, 0), st, s, j, junk)
  }

  /** parse once the directive search has given f. */
  function ParseFor(dirs: seq<Directive>, rows: seq<Mnemonic>, f: Option<nat>, st: AsmState, s: string, j: nat, junk: Junk): (e: Effect)
    requires StateOk(st) && (f.Some? ==> f.value < |dirs|)
    ensures StatementKeeps(st, e.st)
  {
    match f
    case Some(k) => RunDirective(st, s, j + |dirs[k].name|, dirs[k])
    case None => MnemonicStage(rows, st, s, j, junk)
  }

  /** parse, over the program's tables ad and am. */
  function Parse(st: AsmState, s: string, j: nat, junk: Junk): Effect
    requires StateOk(st)
  {
    ParseIn(Directives, Mnemonics, st, s, j, junk)
  }

  // process_line

  /** The tail of process_line from cursor b: blanks are skipped; an empty
      or comment line returns (the C function returns no value there, Done
      here); anything else is parsed. */
  function Statement(st: AsmState, s: string, b: nat, junk: Junk): (e: Effect)
    requires StateOk(st)
    ensures StatementKeeps(st, e.st)
  {
    var k := FirstNonWhite(s, b);
    if IsEndOfLine(At(s, k)) then Effect(Done, st) else Parse(st, s, k, junk)
  }

  /** An assignment at cursor b (`=` or `EQU`): the cursor moves to the next
      blank and eval_expr stores into the new entry's value, which starts as
      PC; the code is eval_expr's.  The entry's value is eval_expr's *value
      cell throughout, so the name used inside its own expression reads the
      last numeral stored there. */
  function Assignment(st: AsmState, s: string, b: nat, i: nat): (e: Effect)
    requires StateOk(st) && i < |st.symbols|
    ensures !e.outcome.Aborted? ==>
      StateOk(e.st) && e.st.out == st.out && |e.st.symbols| == |st.symbols| &&
      e.st.symbols[i].name == st.symbols[i].name && e.st.symbols[i].nameLength == st.symbols[i].nameLength &&
      forall k :: 0 <= k < |st.symbols| && k != i ==> e.st.symbols[k] == st.symbols[k]
    ensures !e.outcome.Aborted? ==>
      e.st.cpu == st.cpu && e.st.pc == st.pc && FirstWhite(s, b).Some? &&
      var ev := Eval(Env(st.symbols, st.pc, Some(i)), s, FirstWhite(s, b).value, Cells(st.m, st.symbols[i].value, 0), false, false);
      ev.Ok? && e.st.symbols[i].value == ev.val.c.value && e.st.m == ev.val.c.m
  {
    match FirstWhite(s, b)
    case None => Effect(Aborted(ReadPastEnd), st)
    case Some(w) =>
      match Eval(Env(st.symbols, st.pc, Some(i)), s, w, Cells(st.m, st.symbols[i].value, 0), false, false)
      case Abort(f) => Effect(Aborted(f), st)
      case Ok(e) =>
        var st1 := st.(m := e.c.m, symbols := st.symbols[i := st.symbols[i].(value := e.c.value)]);
        Effect(if e.err.Some? then Failed(e.err.value) else Done, st1)
  }

  /** What process_line does before the statement: a line that does not
      start with a letter goes on from column 0 with the globals as they
      are.  A label that lookup already finds is SYMBOL_ALREADY_EXIST;
      otherwise it is appended with PC as its value, the cursor goes to
      the first blank of the line and past the blanks after it, and an `=`
      or `EQU` there makes the line an assignment. */
  datatype Head = Halt(e: Effect) | Go(st: AsmState, b: nat, assign: bool)

  function LineHead(st: AsmState, s: string): (h: Head)
    requires StateOk(st)
    ensures h.Go? ==> StateOk(h.st) && h.st.out == st.out && h.st.m == st.m
    ensures h.Go? && !h.assign ==> |h.st.symbols| <= |st.symbols| + 1 && EntriesKept(st.symbols, h.st.symbols)
    ensures h.Go? && h.assign ==> h.st.symbols == Append(st.symbols, ReadNameText(s, 0), |ReadNameText(s, 0)|, st.pc)
    ensures !IsAlpha(At(s, 0)) ==> h == Go(st, 0, false)
    ensures IsAlpha(At(s, 0)) && Lookup(st.symbols, ReadNameText(s, 0), 0).Some? ==>
      h == Halt(Effect(Failed(SymbolAlreadyExist), st))
    ensures IsAlpha(At(s, 0)) && h.Go? ==>
      h.st == st.(symbols := Append(st.symbols, ReadNameText(s, 0), |ReadNameText(s, 0)|, st.pc))
  {
    if !IsAlpha(At(s, 0)) then Go(st, 0, false)
    else
      var name := ReadNameText(s, 0);
      if Lookup(st.symbols, name, 0).Some? then Halt(Effect(Failed(SymbolAlreadyExist), st))
      else
        var st1 := st.(symbols := Append(st.symbols, name, |name|, st.pc));
        // read_and_store_label then runs to the blank after the label
        if FirstWhite(s, |name|).None? then Halt(Effect(Aborted(ReadPastEnd), st1))
        else
          match FirstWhite(s, 0)
          case None => Halt(Effect(Aborted(ReadPastEnd), st1))
          case Some(w) =>
            var b := FirstNonWhite(s, w);
            Go(st1, b, At(s, b) == '=' || TextAt("EQU", s, b))
  }

  /** Every entry present before keeps its name, length and value. */
  predicate EntriesKept(before: seq<Entry>, after: seq<Entry>)
  {
    |before| <= |after| &&
    forall i :: 0 <= i < |before| ==>
      after[i].name == before[i].name && after[i].nameLength == before[i].nameLength && after[i].value == before[i].value
  }

  /** process_line. */
  function ProcessLine(st: AsmState, s: string, junk: Junk): (e: Effect)
    requires StateOk(st)
  {
    ProcessFrom(st, s, LineHead(st, s), junk)
  }

  /** process_line once its head is known: an assignment stores into the
      entry just appended; otherwise the statement follows. */
  function ProcessFrom(st: AsmState, s: string, h: Head, junk: Junk): (e: Effect)
    requires StateOk(st)
    requires h.Go? ==> StateOk(h.st) && (h.assign ==> |h.st.symbols| == |st.symbols| + 1)
  {
    match h
    case Halt(e) => e
    case Go(st1, b, assign) =>
      if assign then Assignment(st1, s, b, |st.symbols|) else Statement(st1, s, b, junk)
  }
}
