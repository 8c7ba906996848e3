/** What the line handlers promise, stated over every input: the modes
    asm_asl, asm_lda and asm_ldx accept and the bytes they send to output,
    what parse tries first, and what process_line may change. */
module LineFacts {
  import opened Words
  import opened Lexer
  import opened Errors
  import opened Symbols
  import opened Operators
  import opened Modes
  import opened Expression
  import opened Tables
  import opened Lines

  /** What evaluate_address promises the handlers: without an error code
      the mode is one of the four it sets, and an immediate value is a
      byte. */
  predicate Reported(r: Res<Addressed>)
  {
    r.Ok? && r.val.err.None? ==>
      (r.val.am.mode == Flag(Modes.Immediate) && 0 <= r.val.am.value <= 255) ||
      r.val.am.mode == Flag(Accumulator) || r.val.am.mode == Flag(IndirectIX) || r.val.am.mode == Flag(IndirectIY)
  }

  /** An immediate operand evaluate_address reports fits a byte. */
  lemma ImmediateByte(r: Res<Addressed>)
    requires Reported(r)
    requires r.Ok? && r.val.err.None? && r.val.am.mode == Flag(Modes.Immediate)
    ensures 0 <= r.val.am.value < 256
  {
  }

  /** evaluate_address keeps that promise: the immediate mode only comes
      out of the `#` branch, which checks the byte range. */
  lemma AddressReported(st: AsmState, s: string, j: nat, junk: Junk)
    requires StateOk(st)
    ensures Reported(Address(st, s, j, junk))
  {
    var env := Env(st.symbols, st.pc, None);
    var k := FirstNonWhite(s, j);
    if At(s, k) != '#' && !NamesAccumulator(s, k) {
      assert Address(st, s, j, junk) == Expression.Indirect(env, s, k, st.m, junk.am, junk.reg);
    }
  }

  /** The mode a reported flag stands for. */
  lemma ReportedMode(r: Res<Addressed>) returns (md: Mode)
    requires Reported(r) && r.Ok? && r.val.err.None?
    ensures Flag(md) == r.val.am.mode
    ensures md == Modes.Immediate || md == Accumulator || md == IndirectIX || md == IndirectIY
  {
    var v := r.val.am.mode;
    if v == Flag(Modes.Immediate) {
      md := Modes.Immediate;
    } else if v == Flag(Accumulator) {
      md := Accumulator;
    } else if v == Flag(IndirectIX) {
      md := IndirectIX;
    } else {
      md := IndirectIY;
    }
  }

  /** asm_asl: of the modes evaluate_address reports, only the accumulator
      passes the ASL row's mask; every error and abort is passed on. */
  lemma AslCases(st: AsmState, r: Res<Addressed>)
    requires Reported(r)
    ensures var e := AslResult(st, r, ShiftModes);
      (r.Abort? ==> e == Effect(Aborted(r.fatal), st)) &&
      (r.Ok? && r.val.err.Some? ==> e == Effect(Failed(r.val.err.value), st.(m := r.val.m))) &&
      (r.Ok? && r.val.err.None? ==>
        e == Effect(if r.val.am.mode == Flag(Accumulator) then Done else Failed(AsmInvalidAddressingMode),
                    st.(m := r.val.m)))
  {
    if r.Ok? && r.val.err.None? {
      var md := ReportedMode(r);
      ShiftModesList(md);
    }
  }

  /** The switch of asm_lda on a mode the LDA row lists: immediate
      outputs $A9 and the operand's low byte, the others output nothing;
      no listed mode reaches the "internal error" exit. */
  lemma LdaSwitch(st: AsmState, am: AddressMode, row: Mnemonic, md: Mode)
    requires row.handler == Lda && row.opcodes == LdaOpcodes
    requires Flag(md) == am.mode && AluListed(md)
    ensures LoadSwitch(st, am, row) ==
      Effect(Done, if md == Modes.Immediate then Emit(st, [0xA9, am.value % 256]) else st)
  {
    ModeOfFlagInverse(md);
    if md == Modes.Immediate {
      Mode2DecOfFlag(md);
      assert row.opcodes[Mode2DecValue(am.mode)] == 0xA9;
    }
  }

  /** The switch of asm_ldx on a mode the LDX row lists: immediate
      outputs $A2 and the operand's low byte, the others output nothing. */
  lemma LdxSwitch(st: AsmState, am: AddressMode, row: Mnemonic, md: Mode)
    requires row.handler == Ldx && row.opcodes == LdxOpcodes
    requires Flag(md) == am.mode && LdxListed(md)
    ensures LoadSwitch(st, am, row) ==
      Effect(Done, if md == Modes.Immediate then Emit(st, [0xA2, am.value % 256]) else st)
  {
    ModeOfFlagInverse(md);
    if md == Modes.Immediate {
      Mode2DecOfFlag(md);
      assert row.opcodes[Mode2DecValue(am.mode)] == 0xA2;
    }
  }

  /** asm_lda and asm_ldx pass on evaluate_address's abort, and its error
      code with the stacks it left. */
  lemma LoadPassesErrors(st: AsmState, r: Res<Addressed>, row: Mnemonic)
    requires r.Abort? || r.val.err.Some?
    ensures r.Abort? ==> LoadResult(st, r, row) == Effect(Aborted(r.fatal), st)
    ensures r.Ok? ==> LoadResult(st, r, row) == Effect(Failed(r.val.err.value), st.(m := r.val.m))
  {
  }

  /** LDA immediate outputs $A9 and the operand byte at PC. */
  lemma LdaImmediate(st: AsmState, r: Res<Addressed>, row: Mnemonic)
    requires Reported(r)
    requires row.handler == Lda && row.amodes == AluModes && row.opcodes == LdaOpcodes
    requires r.Ok? && r.val.err.None? && r.val.am.mode == Flag(Modes.Immediate)
    ensures LoadResult(st, r, row) == Effect(Done, Emit(st.(m := r.val.m), [0xA9, r.val.am.value]))
  {
    var st1 := st.(m := r.val.m);
    AluModesList(Modes.Immediate);
    assert CheckMode(st, r, row.amodes) == Accepted(st1, r.val.am);
    LdaSwitch(st1, r.val.am, row, Modes.Immediate);
    ImmediateByte(r);
    LowByteOfByte(r.val.am.value);
  }

  /** LDA (zp,X) and (zp),Y pass the mask and the switch, and output
      nothing. */
  lemma LdaIndirect(st: AsmState, r: Res<Addressed>, row: Mnemonic)
    requires row.handler == Lda && row.amodes == AluModes && row.opcodes == LdaOpcodes
    requires r.Ok? && r.val.err.None?
    requires r.val.am.mode == Flag(IndirectIX) || r.val.am.mode == Flag(IndirectIY)
    ensures LoadResult(st, r, row) == Effect(Done, st.(m := r.val.m))
  {
    var md := if r.val.am.mode == Flag(IndirectIX) then IndirectIX else IndirectIY;
    AluModesList(md);
    LdaSwitch(st.(m := r.val.m), r.val.am, row, md);
  }

  /** LDA A is an invalid addressing mode: the LDA row does not list the
      accumulator. */
  lemma LdaAccumulator(st: AsmState, r: Res<Addressed>, row: Mnemonic)
    requires row.amodes == AluModes
    requires r.Ok? && r.val.err.None? && r.val.am.mode == Flag(Accumulator)
    ensures LoadResult(st, r, row) == Effect(Failed(AsmInvalidAddressingMode), st.(m := r.val.m))
  {
    AluModesList(Accumulator);
  }

  /** LDX immediate outputs $A2 and the operand byte at PC. */
  lemma LdxImmediate(st: AsmState, r: Res<Addressed>, row: Mnemonic)
    requires Reported(r)
    requires row.handler == Ldx && row.amodes == LdxModes && row.opcodes == LdxOpcodes
    requires r.Ok? && r.val.err.None? && r.val.am.mode == Flag(Modes.Immediate)
    ensures LoadResult(st, r, row) == Effect(Done, Emit(st.(m := r.val.m), [0xA2, r.val.am.value]))
  {
    var st1 := st.(m := r.val.m);
    LdxModesList(Modes.Immediate);
    assert CheckMode(st, r, row.amodes) == Accepted(st1, r.val.am);
    LdxSwitch(st1, r.val.am, row, Modes.Immediate);
    ImmediateByte(r);
    LowByteOfByte(r.val.am.value);
  }

  /** Every other mode evaluate_address reports fails the LDX row's mask:
      LDX has no accumulator and no (zp,X) or (zp),Y form. */
  lemma LdxRejects(st: AsmState, r: Res<Addressed>, row: Mnemonic)
    requires Reported(r)
    requires row.amodes == LdxModes
    requires r.Ok? && r.val.err.None? && r.val.am.mode != Flag(Modes.Immediate)
    ensures LoadResult(st, r, row) == Effect(Failed(AsmInvalidAddressingMode), st.(m := r.val.m))
  {
    var md := ReportedMode(r);
    LdxModesList(md);
  }

  /** The switches of asm_lda and asm_ldx cover their rows' masks: for
      whatever evaluate_address reports, the "internal error" exit is never
      taken. */
  lemma LoadNeverInternal(st: AsmState, r: Res<Addressed>, row: Mnemonic)
    requires Reported(r) && r.Ok?
    requires (row.handler == Lda && row.amodes == AluModes) || (row.handler == Ldx && row.amodes == LdxModes)
    ensures !LoadResult(st, r, row).outcome.Aborted?
  {
    if r.val.err.None? && Accepts(row.amodes, r.val.am.mode) {
      var md := ReportedMode(r);
      ModeOfFlagInverse(md);
      if row.handler == Lda {
        AluModesList(md);
      } else {
        LdxModesList(md);
      }
    }
  }

  // process_line

  /** A label as read_and_store_label reads it: a letter, then label
      characters. */
  predicate LabelText(name: string)
  {
    |name| >= 1 && IsAlpha(name[0]) && forall k :: 1 <= k < |name| ==> IsValidLabel(name[k])
  }

  /** From inside a label, the argument runs to the label's end. */
  lemma {:induction false} ArgEndOfLabel(name: string, j: nat)
    requires LabelText(name) && j <= |name|
    ensures ArgEnd(name, j) == |name|
    decreases |name| - j
  {
    if j < |name| {
      LabelCharIsNotEndOfArg(name[j]);
      ArgEndOfLabel(name, j + 1);
    }
  }

  /** getarg on a label gives the label back. */
  lemma ArgOfLabel(name: string)
    requires LabelText(name)
    ensures Arg(name, 0) == name
  {
    ArgEndOfLabel(name, 0);
    assert FirstNonWhite(name, 0) == 0;
    var a := seq(|name|, k requires 0 <= k < |name| => At(name, k));
    assert Arg(name, 0) == a;
    assert a == name;
  }

  /** The name process_line reads from a line that starts with a letter is
      a label. */
  lemma LineLabel(s: string)
    requires IsAlpha(At(s, 0))
    ensures LabelText(ReadNameText(s, 0))
  {
  }

  /** In the list after Append, lookup of a name no earlier entry begins
      with finds the appended entry. */
  lemma {:induction false} FindAppended(es: seq<Entry>, name: string, len: int, v: int, i: nat)
    requires i <= |es|
    requires forall k :: i <= k < |es| ==> !IsPrefix(name, es[k].name)
    ensures FindPrefix(Append(es, name, len, v), name, i) == Some(|es|)
    decreases |es| - i
  {
    var r := Append(es, name, len, v);
    if i < |es| {
      assert r[i].name == es[i].name;
      FindAppended(es, name, len, v, i + 1);
    } else {
      assert r[i].name == name;
    }
  }

  /** A label read_and_store_label stores is found again by lookup: no
      earlier entry begins with it, since lookup did not find it. */
  lemma StoredLabelFound(es: seq<Entry>, name: string, v: int)
    requires LabelText(name)
    requires Lookup(es, name, 0).None?
    ensures Lookup(Append(es, name, |name|, v), name, 0) == Some(|es|)
  {
    ArgOfLabel(name);
    FindAppended(es, name, |name|, v, 0);
  }

  /** A later label that begins an existing name clashes with it: lookup
      compares over the new name's length only. */
  lemma PrefixLabelClashes(es: seq<Entry>, name: string, k: nat)
    requires LabelText(name)
    requires k < |es| && IsPrefix(name, es[k].name)
    ensures Lookup(es, name, 0).Some?
  {
    ArgOfLabel(name);
  }

  // What a line may change

  /** process_line keeps the globals sound, adds at most one entry to the
      symbol list and changes none of the old ones, and adds at most one
      chunk of output. */
  lemma ProcessLineStep(st: AsmState, s: string, junk: Junk)
    requires StateOk(st)
    ensures var e := ProcessLine(st, s, junk);
      !e.outcome.Aborted? ==>
        StateOk(e.st) && EntriesKept(st.symbols, e.st.symbols) &&
        |e.st.symbols| <= |st.symbols| + 1 && OutGrows(st.out, e.st.out)
  {
    var h := LineHead(st, s);
    assert ProcessLine(st, s, junk) == ProcessFrom(st, s, h, junk);
  }

  /** SEI with nothing after it sends exactly one byte (the handler's
      uninitialised data byte, cut to 8 bits) to the current PC and moves
      PC one on; anything else after it is ASM_UNEXPECTED_CHARACTER with
      nothing sent. */
  lemma SeiOneByte(st: AsmState, s: string, j: nat, junk: Junk)
    ensures var e := SeiHandler(st, s, j, junk);
      IsEndOfLine(At(s, FirstNonWhite(s, j))) ==>
        e.outcome == Done && |e.st.out| == |st.out| + 1 && e.st.out[..|st.out|] == st.out &&
        e.st.out[|st.out|].addr == st.pc && |e.st.out[|st.out|].bytes| == 1 &&
        0 <= e.st.out[|st.out|].bytes[0] < 256 && e.st.pc == Wrap32(st.pc + 1)
    ensures var e := SeiHandler(st, s, j, junk);
      !IsEndOfLine(At(s, FirstNonWhite(s, j))) ==> e == Effect(Failed(AsmUnexpectedCharacter), st)
  {
    if IsEndOfLine(At(s, FirstNonWhite(s, j))) {
      var e := SeiHandler(st, s, j, junk);
      assert e.st.out == st.out + [Chunk(st.pc, [junk.byte % 256])];
    }
  }
}
