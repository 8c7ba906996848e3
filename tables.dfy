/** The assembler's static tables: the supported CPU models, the
    directives and the mnemonics with their addressing-mode masks and
    13-entry opcode arrays. */
module Tables {
  import opened Modes

  // cm

  datatype Cpu = CpuUndef | Cpu6502 | Cpu65C02 | Cpu65C816

  datatype CpuModel = CpuModel(name: string, id: Cpu)

  /** The CPU names dir_cpu accepts, in table order. */
  const CpuModels: seq<CpuModel> :=
    [CpuModel("6502", Cpu6502), CpuModel("65C02", Cpu65C02), CpuModel("65C816", Cpu65C816)]

  // ad

  datatype DirectiveHandler = CpuDirective | OrgDirective | ByteDirective | WordDirective | EndDirective

  datatype Directive = Directive(name: string, handler: DirectiveHandler)

  const Directives: seq<Directive> := [
    Directive("CPU", CpuDirective),
    Directive("ORG", OrgDirective),
    Directive("BYTE", ByteDirective),
    Directive("WORD", WordDirective),
    Directive("END", EndDirective)
  ]

  // am

  /** The handler a mnemonic row points to.  Every handler other than
      asm_asl, asm_lda, asm_ldx and asm_sei only clears the buffer and
      returns OK; they are all Stub here. */
  datatype MnemonicHandler = Asl | Lda | Ldx | Sei | Stub

  /** An opcodes[13] array, indexed by mode2dec of the mode. */
  type Opcodes = s: seq<nat> | |s| == 13 witness [0, 0, 0, 0, 0, 0, 0, 0, 0, 0, 0, 0, 0]

  datatype Mnemonic = Mnemonic(name: string, handler: MnemonicHandler, amodes: nat, opcodes: Opcodes)

  /** The rows that give no initialiser for the array: all zero. */
  const NoOpcodes: Opcodes := [0, 0, 0, 0, 0, 0, 0, 0, 0, 0, 0, 0, 0]

  const LdaOpcodes: Opcodes :=
    [0x00, 0xAD, 0xBD, 0xB9, 0xA9, 0x00, 0x00, 0xA1, 0xB1, 0x00, 0xA5, 0xB5, 0x00]

  const LdxOpcodes: Opcodes :=
    [0x00, 0xAE, 0x00, 0xBE, 0xA2, 0x00, 0x00, 0x00, 0x00, 0x00, 0xA6, 0x00, 0xB6]

  // The amodes masks: the OR of the mode constants each row lists.

  /** IMMEDIATE | ZEROPAGE | ZEROPAGE_IX | ABSOLUTE | ABSOLUTE_IX |
      ABSOLUTE_IY | INDIRECT_IX | INDIRECT_IY */
  const AluModes: nat := 0x1B3C
  /** ACCUMULATOR | ZEROPAGE | ZEROPAGE_IX | ABSOLUTE | ABSOLUTE_IX */
  const ShiftModes: nat := 0x180E
  /** RELATIVE */
  const RelativeModes: nat := 0x0400
  /** ZEROPAGE | ABSOLUTE */
  const BitTestModes: nat := 0x0804
  /** IMPLIED */
  const ImpliedModes: nat := 0x0040
  /** IMMEDIATE | ZEROPAGE | ABSOLUTE */
  const CompareIndexModes: nat := 0x0824
  /** ZEROPAGE | ZEROPAGE_IX | ABSOLUTE | ABSOLUTE_IX */
  const StepModes: nat := 0x180C
  /** ABSOLUTE | INDIRECT */
  const JmpModes: nat := 0x0084
  /** ABSOLUTE */
  const JsrModes: nat := 0x0004
  /** IMMEDIATE | ZEROPAGE | ZEROPAGE_IY | ABSOLUTE | ABSOLUTE_IY */
  const LdxModes: nat := 0x2834
  /** IMMEDIATE | ZEROPAGE | ZEROPAGE_IX | ABSOLUTE | ABSOLUTE_IX */
  const LdyModes: nat := 0x182C
  /** ZEROPAGE | ZEROPAGE_IX | ABSOLUTE | ABSOLUTE_IX | ABSOLUTE_IY |
      INDIRECT_IX | INDIRECT_IY */
  const StaModes: nat := 0x1B1C
  /** ZEROPAGE | ZEROPAGE_IY | ABSOLUTE */
  const StxModes: nat := 0x2804
  /** ZEROPAGE | ZEROPAGE_IX | ABSOLUTE */
  const StyModes: nat := 0x1804

  /** The am table, alphabetical.  It is written as two halves of 28 rows
      so that the verifier can look up any row of a literal this long. */
  const Mnemonics: seq<Mnemonic> := MnemonicsAToJ + MnemonicsJToT

  const MnemonicsAToJ: seq<Mnemonic> := [
    Mnemonic("ADC", Stub, AluModes, NoOpcodes),
    Mnemonic("AND", Stub, AluModes, NoOpcodes),
    Mnemonic("ASL", Asl, ShiftModes, NoOpcodes),
    Mnemonic("BCC", Stub, RelativeModes, NoOpcodes),
    Mnemonic("BCS", Stub, RelativeModes, NoOpcodes),
    Mnemonic("BEQ", Stub, RelativeModes, NoOpcodes),
    Mnemonic("BIT", Stub, BitTestModes, NoOpcodes),
    Mnemonic("BMI", Stub, RelativeModes, NoOpcodes),
    Mnemonic("BNE", Stub, RelativeModes, NoOpcodes),
    Mnemonic("BPL", Stub, RelativeModes, NoOpcodes),
    Mnemonic("BRK", Stub, ImpliedModes, NoOpcodes),
    Mnemonic("BVC", Stub, RelativeModes, NoOpcodes),
    Mnemonic("BVS", Stub, RelativeModes, NoOpcodes),
    Mnemonic("CLC", Stub, ImpliedModes, NoOpcodes),
    Mnemonic("CLD", Stub, ImpliedModes, NoOpcodes),
    Mnemonic("CLI", Stub, ImpliedModes, NoOpcodes),
    Mnemonic("CLV", Stub, ImpliedModes, NoOpcodes),
    Mnemonic("CMP", Stub, AluModes, NoOpcodes),
    Mnemonic("CPX", Stub, CompareIndexModes, NoOpcodes),
    Mnemonic("CPY", Stub, CompareIndexModes, NoOpcodes),
    Mnemonic("DEC", Stub, StepModes, NoOpcodes),
    Mnemonic("DEX", Stub, ImpliedModes, NoOpcodes),
    Mnemonic("DEY", Stub, ImpliedModes, NoOpcodes),
    Mnemonic("EOR", Stub, AluModes, NoOpcodes),
    Mnemonic("INC", Stub, StepModes, NoOpcodes),
    Mnemonic("INX", Stub, ImpliedModes, NoOpcodes),
    Mnemonic("INY", Stub, ImpliedModes, NoOpcodes),
    Mnemonic("JMP", Stub, JmpModes, NoOpcodes)
  ]

  const MnemonicsJToT: seq<Mnemonic> := [
    Mnemonic("JSR", Stub, JsrModes, NoOpcodes),
    Mnemonic("LDA", Lda, AluModes, LdaOpcodes),
    Mnemonic("LDX", Ldx, LdxModes, LdxOpcodes),
    Mnemonic("LDY", Stub, LdyModes, NoOpcodes),
    Mnemonic("LSR", Stub, ShiftModes, NoOpcodes),
    Mnemonic("NOP", Stub, ImpliedModes, NoOpcodes),
    Mnemonic("ORA", Stub, AluModes, NoOpcodes),
    Mnemonic("PHA", Stub, ImpliedModes, NoOpcodes),
    Mnemonic("PHP", Stub, ImpliedModes, NoOpcodes),
    Mnemonic("PLA", Stub, ImpliedModes, NoOpcodes),
    Mnemonic("PLP", Stub, ImpliedModes, NoOpcodes),
    Mnemonic("ROL", Stub, ShiftModes, NoOpcodes),
    Mnemonic("ROR", Stub, ShiftModes, NoOpcodes),
    Mnemonic("RTI", Stub, ImpliedModes, NoOpcodes),
    Mnemonic("RTS", Stub, ImpliedModes, NoOpcodes),
    Mnemonic("SBC", Stub, AluModes, NoOpcodes),
    Mnemonic("SEC", Stub, ImpliedModes, NoOpcodes),
    Mnemonic("SED", Stub, ImpliedModes, NoOpcodes),
    Mnemonic("SEI", Sei, ImpliedModes, NoOpcodes),
    Mnemonic("STA", Stub, StaModes, NoOpcodes),
    Mnemonic("STX", Stub, StxModes, NoOpcodes),
    Mnemonic("STY", Stub, StyModes, NoOpcodes),
    Mnemonic("TAX", Stub, ImpliedModes, NoOpcodes),
    Mnemonic("TAY", Stub, ImpliedModes, NoOpcodes),
    Mnemonic("TSX", Stub, ImpliedModes, NoOpcodes),
    Mnemonic("TXA", Stub, ImpliedModes, NoOpcodes),
    Mnemonic("TXS", Stub, ImpliedModes, NoOpcodes),
    Mnemonic("TYA", Stub, ImpliedModes, NoOpcodes)
  ]

  /** The test `mode & am->amodes` for a mode constant. */
  predicate Masked(mask: nat, m: Mode)
  {
    And(Flag(m), mask) != 0
  }

  /** ANDing a mode constant with a mask tests the mask's bit at the mode's
      position. */
  lemma MaskedByDivision(mask: nat, m: Mode)
    ensures Masked(mask, m) <==> (mask / Flag(m)) % 2 == 1
  {
    AndOneHot(BitPos(m), mask);
    BitByDivision(mask, BitPos(m));
  }

  /** The modes the LDA, ADC, AND, CMP, EOR, ORA and SBC rows list. */
  predicate AluListed(m: Mode)
  {
    m in {Immediate, Zeropage, ZeropageIX, Absolute, AbsoluteIX, AbsoluteIY, IndirectIX, IndirectIY}
  }

  /** The modes the LDX row lists. */
  predicate LdxListed(m: Mode)
  {
    m in {Immediate, Zeropage, ZeropageIY, Absolute, AbsoluteIY}
  }

  /** The modes the ASL, LSR, ROL and ROR rows list. */
  predicate ShiftListed(m: Mode)
  {
    m in {Accumulator, Zeropage, ZeropageIX, Absolute, AbsoluteIX}
  }

  /** Each mask value is the sum of the constants of the modes its rows
      list: its binary digit at a mode's flag is set exactly for them. */
  lemma AluDigits(m: Mode)
    ensures (AluModes / Flag(m)) % 2 == 1 <==> AluListed(m)
  {
  }

  lemma LdxDigits(m: Mode)
    ensures (LdxModes / Flag(m)) % 2 == 1 <==> LdxListed(m)
  {
  }

  lemma ShiftDigits(m: Mode)
    ensures (ShiftModes / Flag(m)) % 2 == 1 <==> ShiftListed(m)
  {
  }

  lemma AluModesList(m: Mode)
    ensures Masked(AluModes, m) <==> AluListed(m)
  {
    MaskedByDivision(AluModes, m);
    AluDigits(m);
  }

  lemma LdxModesList(m: Mode)
    ensures Masked(LdxModes, m) <==> LdxListed(m)
  {
    MaskedByDivision(LdxModes, m);
    LdxDigits(m);
  }

  lemma ShiftModesList(m: Mode)
    ensures Masked(ShiftModes, m) <==> ShiftListed(m)
  {
    MaskedByDivision(ShiftModes, m);
    ShiftDigits(m);
  }

  /** The LDA opcode array has an opcode (nonzero) exactly at the dense
      indices of the modes its row lists. */
  lemma LdaOpcodesListed(m: Mode)
    requires m != Unused
    ensures LdaOpcodes[DenseIndex(m)] != 0 <==> AluListed(m)
  {
  }

  /** The same for LDX. */
  lemma LdxOpcodesListed(m: Mode)
    requires m != Unused
    ensures LdxOpcodes[DenseIndex(m)] != 0 <==> LdxListed(m)
  {
  }

  /** Hence the LDA opcode array follows the LDA row's mode mask. */
  lemma LdaOpcodesFollowMask(m: Mode)
    requires m != Unused
    ensures LdaOpcodes[DenseIndex(m)] != 0 <==> Masked(AluModes, m)
  {
    LdaOpcodesListed(m);
    AluModesList(m);
  }

  /** And the LDX opcode array follows the LDX row's mode mask. */
  lemma LdxOpcodesFollowMask(m: Mode)
    requires m != Unused
    ensures LdxOpcodes[DenseIndex(m)] != 0 <==> Masked(LdxModes, m)
  {
    LdxOpcodesListed(m);
    LdxModesList(m);
  }
}
