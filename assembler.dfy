/** The assembler's globals and the functions of main.c that work on them:
    dir_cpu, dir_org, asm_asl, asm_lda/asm_ldx, asm_sei, parse and
    process_line, with read_and_store_label and output.  Each method is
    proved to return the code, and leave the globals, that the function of
    the same name in Lines describes. */
module Assembly {
  import opened Words
  import opened Lexer
  import opened Errors
  import opened Operators
  import opened Symbols
  import opened Modes
  import opened Expression
  import opened Evaluation
  import opened Tables
  import opened Lines

  class Assembler {
    var cpu: Cpu
    var pc: int
    var out: seq<Chunk>
    const syms: SymbolTable
    const ev: Evaluator

    ghost predicate Valid()
      reads this, syms, ev, ev.opstack
    {
      syms.Valid() && ev.Valid()
    }

    /** The globals as one value. */
    ghost function State(): (st: AsmState)
      reads this, syms, ev, ev.opstack, ev.numstack
      requires Valid()
      ensures StateOk(st)
    {
      AsmState(cpu, pc, syms.entries, ev.Model(), out)
    }

    /** Program start: no cpu, PC 0, sym_init, empty stacks, nothing out. */
    constructor ()
      ensures Valid()
      ensures State() == AsmState(CpuUndef, 0, [], Machine([], []), [])
    {
      cpu, pc, out := CpuUndef, 0, [];
      syms := new SymbolTable.Init();
      ev := new Evaluator();
    }

    /** output(): the bytes are written at PC and PC moves past them. */
    method Output(bytes: seq<int>)
      requires Valid()
      modifies this
      ensures Valid()
      ensures State() == Emit(old(State()), bytes)
    {
      out := out + [Chunk(pc, bytes)];
      pc := Wrap32(pc + |bytes|);
    }

    /** dir_cpu: walk cm until a name begins the argument. */
    method DirCpu(s: string, j: nat) returns (o: Outcome)
      requires Valid()
      modifies this
      ensures Valid()
      ensures o == SelectCpu(old(State()), s, j).outcome
      ensures State() == SelectCpu(old(State()), s, j).st
    {
      var cpustr, _ := GetArg(s, j);
      var i := 0;
      while i < |CpuModels|
        invariant 0 <= i <= |CpuModels|
        invariant FindCpu(cpustr, i) == FindCpu(cpustr, 0)
      {
        var name := CpuModels[i].name;
        if |name| <= |cpustr| && cpustr[..|name|] == name {
          cpu := CpuModels[i].id;
          return Done;
        }
        i := i + 1;
      }
      return Failed(CpuNotSupported);
    }

    /** dir_org: a '$' argument is read in base 16, a digit-led one in base
        10; the unsigned long is stored into the int PC. */
    method DirOrg(s: string, j: nat) returns (o: Outcome)
      requires Valid()
      modifies this
      ensures Valid()
      ensures o == SetOrigin(old(State()), s, j).outcome
      ensures State() == SetOrigin(old(State()), s, j).st
    {
      var orgarg, _ := GetArg(s, j);
      if IsDigit(At(orgarg, 0)) || At(orgarg, 0) == '$' {
        var base, pos := 10, 0;
        if At(orgarg, pos) == '$' {
          base, pos := 16, pos + 1;
        }
        pc := Wrap32(StrToUL(orgarg, pos, base).value);
      }
      return Done;
    }

    /** asm_asl. */
    method AsmAsl(s: string, j: nat, junk: Junk, row: Mnemonic) returns (o: Outcome)
      requires Valid()
      modifies ev, ev.opstack, ev.numstack
      ensures Valid()
      ensures o == AslHandler(old(State()), s, j, junk, row).outcome
      ensures !o.Aborted? ==> State() == AslHandler(old(State()), s, j, junk, row).st
    {
      var a := ev.EvaluateAddressRun(syms, pc, s, j, junk.am, junk.reg);
      if a.Abort? {
        return Aborted(a.fatal);
      }
      if a.val.err.Some? {
        return Failed(a.val.err.value);
      }
      if !(a.val.am.mode >= 0 && And(a.val.am.mode, row.amodes) != 0) {
        return Failed(AsmInvalidAddressingMode);
      }
      return Done;
    }

    /** asm_lda and asm_ldx, which differ only in their switch's cases. */
    method AsmLoad(s: string, j: nat, junk: Junk, row: Mnemonic) returns (o: Outcome)
      requires Valid()
      modifies this, ev, ev.opstack, ev.numstack
      ensures Valid()
      ensures o == LoadHandler(old(State()), s, j, junk, row).outcome
      ensures !o.Aborted? ==> State() == LoadHandler(old(State()), s, j, junk, row).st
    {
      var a := ev.EvaluateAddressRun(syms, pc, s, j, junk.am, junk.reg);
      if a.Abort? {
        return Aborted(a.fatal);
      }
      if a.val.err.Some? {
        return Failed(a.val.err.value);
      }
      var mode := a.val.am.mode;
      if !(mode >= 0 && And(mode, row.amodes) != 0) {
        return Failed(AsmInvalidAddressingMode);
      }
      // the switch; its default case exits
      var md := ModeOfFlag(mode);
      if md.None? || !SwitchCase(row.handler, md.value) {
        return Aborted(InternalError);
      }
      Mode2DecOfFlag(md.value);
      var decmode := Mode2Dec(mode);
      var data0 := row.opcodes[decmode];
      if md.value == Modes.Immediate {
        Output([data0, a.val.am.value % 256]);
      }
      return Done;
    }

    /** asm_sei. */
    method AsmSei(s: string, j: nat, junk: Junk) returns (o: Outcome)
      requires Valid()
      modifies this
      ensures Valid()
      ensures o == SeiHandler(old(State()), s, j, junk).outcome
      ensures State() == SeiHandler(old(State()), s, j, junk).st
    {
      var k := SkipWhite(s, j);
      if !IsEndOfLine(At(s, k)) {
        return Failed(AsmUnexpectedCharacter);
      }
      Output([junk.byte % 256]);
      return Done;
    }

    /** The call through a directive row's function pointer. */
    method CallDirective(s: string, j: nat, d: Directive) returns (o: Outcome)
      requires Valid()
      modifies this
      ensures Valid()
      ensures o == RunDirective(old(State()), s, j, d).outcome
      ensures State() == RunDirective(old(State()), s, j, d).st
    {
      match d.handler
      case CpuDirective => o := DirCpu(s, j);
      case OrgDirective => o := DirOrg(s, j);
      case _ => o := Done;
    }

    /** The call through a mnemonic row's function pointer. */
    method CallMnemonic(s: string, j: nat, junk: Junk, row: Mnemonic) returns (o: Outcome)
      requires Valid()
      modifies this, ev, ev.opstack, ev.numstack
      ensures Valid()
      ensures o == RunMnemonic(old(State()), s, j, junk, row).outcome
      ensures !o.Aborted? ==> State() == RunMnemonic(old(State()), s, j, junk, row).st
    {
      match row.handler
      case Asl => o := AsmAsl(s, j, junk, row);
      case Lda => o := AsmLoad(s, j, junk, row);
      case Ldx => o := AsmLoad(s, j, junk, row);
      case Sei => o := AsmSei(s, j, junk);
      case Stub => o := Done;
    }

    /** The directive loop of parse: the first row whose name is spelled
        at j. */
    static method ScanDirectives(rows: seq<Directive>, s: string, j: nat) returns (r: Option<nat>)
      ensures r == FindDirective(rows, s, j, 0)
    {
      var i := 0;
      while i < |rows|
        invariant 0 <= i <= |rows|
        invariant FindDirective(rows, s, j, i) == FindDirective(rows, s, j, 0)
      {
        if TextAt(rows[i].name, s, j) {
          return Some(i);
        }
        i := i + 1;
      }
      return None;
    }

    /** The mnemonic loop of parse: the word at j is upper-cased afresh
        (at most ten characters) for every row until a name begins it. */
    static method ScanMnemonics(rows: seq<Mnemonic>, s: string, j: nat) returns (r: Option<nat>)
      ensures r == FindMnemonic(rows, UpperWord(s, j, 10), 0)
    {
      var i := 0;
      while i < |rows|
        invariant 0 <= i <= |rows|
        invariant FindMnemonic(rows, UpperWord(s, j, 10), i) == FindMnemonic(rows, UpperWord(s, j, 10), 0)
      {
        var temp := StrNToUpper(s, j, 10);
        var name := rows[i].name;
        if |name| <= |temp| && temp[..|name|] == name {
          return Some(i);
        }
        i := i + 1;
      }
      return None;
    }

    /** The mnemonic loop of parse and the call of the row found. */
    method MnemonicStage(rows: seq<Mnemonic>, s: string, j: nat, junk: Junk) returns (o: Outcome)
      requires Valid()
      modifies this, ev, ev.opstack, ev.numstack
      ensures Valid()
      ensures o == Lines.MnemonicStage(rows, old(State()), s, j, junk).outcome
      ensures !o.Aborted? ==> State() == Lines.MnemonicStage(rows, old(State()), s, j, junk).st
    {
      ghost var st0 := State();
      var k := ScanMnemonics(rows, s, j);
      assert State() == st0;
      if k.Some? {
        var row := rows[k.value];
        var p := j + |row.name|;
        assert StageFor(rows, k, st0, s, j, junk) == RunMnemonic(st0, s, p, junk, row);
        o := CallMnemonic(s, p, junk, row);
        return;
      }
      return Failed(NoValidDirectiveOrMnemonic);
    }

    /** parse over the tables dirs and rows: the directive table first,
        then the mnemonic table; the handler is called on the text right
        after the name. */
    method ParseIn(dirs: seq<Directive>, rows: seq<Mnemonic>, s: string, j: nat, junk: Junk) returns (o: Outcome)
      requires Valid()
      modifies this, ev, ev.opstack, ev.numstack
      ensures Valid()
      ensures o == Lines.ParseIn(dirs, rows, old(State()), s, j, junk).outcome
      ensures !o.Aborted? ==> State() == Lines.ParseIn(dirs, rows, old(State()), s, j, junk).st
    {
      ghost var st0 := State();
      var d := ScanDirectives(dirs, s, j);
      assert State() == st0;
      if d.Some? {
        var row := dirs[d.value];
        var p := j + |row.name|;
        o := CallDirective(s, p, row);
        assert o == ParseFor(dirs, rows, d, st0, s, j, junk).outcome;
        return;
      }
      o := MnemonicStage(rows, s, j, junk);
      assert o == ParseFor(dirs, rows, d, st0, s, j, junk).outcome;
    }

    /** parse. */
    method Parse(s: string, j: nat, junk: Junk) returns (o: Outcome)
      requires Valid()
      modifies this, ev, ev.opstack, ev.numstack
      ensures Valid()
      ensures o == Lines.Parse(old(State()), s, j, junk).outcome
      ensures !o.Aborted? ==> State() == Lines.Parse(old(State()), s, j, junk).st
    {
      o := ParseIn(Directives, Mnemonics, s, j, junk);
    }

    /** read_and_store_label: the label (its first character and at most 254
        label characters) is entered with PC as its value unless lookup
        already finds it; then the scan runs on to the next blank. */
    method ReadAndStoreLabel(s: string) returns (se: Option<nat>, f: Option<Fatal>)
      requires Valid()
      modifies syms
      ensures Valid()
      ensures var name := ReadNameText(s, 0);
        (se.None? <==> Lookup(old(syms.entries), name, 0).Some?) &&
        (se.None? ==> syms.entries == old(syms.entries) && f.None?) &&
        (se.Some? ==> se.value == |old(syms.entries)| && syms.entries == Append(old(syms.entries), name, |name|, pc)) &&
        (se.Some? ==> f == if FirstWhite(s, |name|).None? then Some(ReadPastEnd) else None)
    {
      var name, stop := ReadName(s, 0);
      se := syms.NewSymbol(name, |name|, pc);
      if se.None? {
        return None, None;
      }
      var w := SkipToWhite(s, stop);
      f := if w.None? then Some(ReadPastEnd) else None;
    }

    /** The tail of process_line: blanks, then an empty or comment line, or
        parse. */
    method Statement(s: string, b: nat, junk: Junk) returns (o: Outcome)
      requires Valid()
      modifies this, ev, ev.opstack, ev.numstack
      ensures Valid()
      ensures o == Lines.Statement(old(State()), s, b, junk).outcome
      ensures !o.Aborted? ==> State() == Lines.Statement(old(State()), s, b, junk).st
    {
      var k := SkipWhite(s, b);
      if IsEndOfLine(At(s, k)) {
        return Done;
      }
      o := Parse(s, k, junk);
    }

    /** The assignment branch of process_line for the entry i just made. */
    method Assign(s: string, b: nat, i: nat) returns (o: Outcome)
      requires Valid() && i < |syms.entries|
      modifies syms, ev, ev.opstack, ev.numstack
      ensures Valid()
      ensures o == Assignment(old(State()), s, b, i).outcome
      ensures !o.Aborted? ==> State() == Assignment(old(State()), s, b, i).st
    {
      var w := SkipToWhite(s, b);
      if w.None? {
        return Aborted(ReadPastEnd);
      }
      var r := ev.EvalExpr(syms, pc, Some(i), s, w.value, syms.entries[i].value, false, 0, false);
      if r.Abort? {
        return Aborted(r.fatal);
      }
      syms.SetValue(i, r.val.value);
      o := if r.val.err.Some? then Failed(r.val.err.value) else Done;
    }

    /** process_line. */
    method ProcessLine(s: string, junk: Junk) returns (o: Outcome)
      requires Valid()
      modifies this, syms, ev, ev.opstack, ev.numstack
      ensures Valid()
      ensures o == Lines.ProcessLine(old(State()), s, junk).outcome
      ensures !o.Aborted? ==> State() == Lines.ProcessLine(old(State()), s, junk).st
    {
      ghost var st0 := State();
      ghost var h := LineHead(st0, s);
      assert Lines.ProcessLine(st0, s, junk) == ProcessFrom(st0, s, h, junk);
      if !IsAlpha(At(s, 0)) {
        assert h == Go(st0, 0, false);
        o := Statement(s, 0, junk);
        return;
      }
      var se, f := ReadAndStoreLabel(s);
      if se.None? {
        assert h == Halt(Effect(Failed(SymbolAlreadyExist), st0));
        return Failed(SymbolAlreadyExist);
      }
      if f.Some? {
        assert h.Halt? && h.e.outcome == Aborted(ReadPastEnd);
        return Aborted(f.value);
      }
      var w := SkipToWhite(s, 0);
      if w.None? {
        return Aborted(ReadPastEnd);
      }
      var b := SkipWhite(s, w.value);
      if At(s, b) == '=' || TextAt("EQU", s, b) {
        assert h == Go(State(), b, true);
        o := Assign(s, b, se.value);
        return;
      }
      assert h == Go(State(), b, false);
      o := Statement(s, b, junk);
    }
  }
}
