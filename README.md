# asm65 front half, modelled in Dafny

asm65 is a line-oriented 6502 assembler written in C. This project models
what it does with one source line:

- the label at the start of the line and the symbol table it goes into;
- the `=`/`EQU` assignment;
- the dispatch to a directive (`CPU`, `ORG`, …) or a mnemonic (`ASL`, `LDA`,
  `LDX`, `SEI`, …);
- the expression evaluator those handlers call: a shunting-yard parser over
  two fixed-size stacks;
- the addressing-mode resolver `evaluate_address`;
- the byte-level helpers in `utils.c` (`skip_white`, `getarg`, `getvalue`,
  `mode2dec`, …).

The model is written in two layers:

- **Functions** state what each C function computes. The evaluator works on
  a `Machine` (the operator stack and the number stack as sequences). The
  line handlers work on an `AsmState` (cpu, PC, the symbol list, the two
  stacks and the bytes handed to `output`) and return an `Effect`: the
  error code and the state after.
- **Classes** hold the C program's mutable globals, in their imperative
  form:
  - `Symbols.SymbolTable` is the doubly linked symbol list, with the first
    and last entries and the count.
  - `Evaluation.Evaluator` holds the stacks as arrays with their fill
    counters, as in `expr.c`.
  - `Assembly.Assembler` holds cpu, PC, the table, the evaluator and the
    output.

  Each of their methods, loops included, is proved to return exactly what
  the function of the same name computes from the old state, and to leave
  exactly that new state, except after an `Aborted` outcome (see
  "## Left out").

Lemmas then state the properties of the functions: stack discipline, the
precedence loop, the round trips of the operators, the opcode tables
against the mode masks, and what a line does to the symbol table and the
output.

Code modules:

| Module | File | C source |
|---|---|---|
| `Words` | `words.dfy` | 32-bit `int` wrap-around and C's truncating `/` and `%` |
| `Errors` | `errors.dfy` | the `error_ids` codes |
| `Bits` | `bits.dfy` | bitwise and, or, xor and complement on 32-bit words |
| `Modes` | `modes.dfy` | `addressing_modes`, `mode2dec` |
| `Lexer` | `lexer.dfy` | `utils.c` and the C library character tests, `strtoul` |
| `Symbols` | `symbols.dfy` | `symbols.c` |
| `Operators` | `operators.dfy` | the operator table and `eval_*` of `expr.c` |
| `Expression` | `expression.dfy` | the stacks, `eval_expr` and `evaluate_address` of `expr.c`, as functions |
| `Evaluation` | `evaluator.dfy` | the same, imperatively, with the stacks as arrays |
| `Tables` | `tables.dfy` | the `cm`, `ad` and `am` tables of `main.c` |
| `Lines` | `lines.dfy` | `dir_cpu`, `dir_org`, `asm_asl`, `asm_lda`, `asm_ldx`, `asm_sei`, `parse`, `process_line`, `output` |
| `LineFacts` | `linefacts.dfy` | properties of `Lines` |
| `Assembly` | `assembler.dfy` | the same handlers over the globals, imperatively |
| `Scenarios` | `scenarios.dfy` | concrete lines worked through the model |

C's undefined and implementation-defined behaviour is written out:

- `int` arithmetic wraps at 32 bits (`Words.Wrap32`).
- `/` and `%` truncate toward zero (`Words.TruncDiv`, `Words.TruncMod`).
- Shift counts are taken modulo 32, as x86 does.
- `INT_MIN / -1` and `INT_MIN % -1` wrap, to `INT_MIN` and 0
  (`Operators.EvalDiv`, `Operators.EvalMod`). This is a modelling choice:
  C leaves both undefined, and x86's `idiv` traps on them.
- `strtoul` converts into a 64-bit `unsigned long` with saturation and
  `ERANGE`. The cast of its result to `int` keeps the low 32 bits.
- A local that the C code reads without ever setting is a parameter of
  type `Lines.Junk`. This covers the `reg` of `evaluate_address`, the
  `mode` struct of the mnemonic handlers and the `data` byte of `asm_sei`.
  Every property is proved for every value it may hold.
- A string read past its end reads NUL (`Lexer.At`). This is a modelling
  choice. In C the line is a buffer filled by `fgets`, and past the
  terminator it may still hold bytes of an earlier, longer line. The model
  gives every such position NUL.
- A crash that C would reach by popping an empty stack, or by using a
  string past the terminator, is the `Abort` outcome with a `Fatal` code
  naming the cause.

## Behaviour the model reproduces as written

The model follows `expr.c`, `symbols.c` and `main.c` as they are written,
including where they evidently do not do what their authors meant. Each of
these behaviours is exhibited by a lemma or stated in the contract of the
member named with it. Two places where the model departs from the code as
written are listed under "## Left out" (`Symbols.SymbolTable.NewSymbol`,
`Lines.Statement`).

- **Equal-level operators group to the right.** `eval_expr` pops only
  while `p->level > op_se->level` (`expr.c:431`). A left-associative
  operator therefore never pops an operator of its own level, and
  `10-2-3` evaluates to 11 (`Scenarios.SubtractionsGroupFromRight`).
- **The pop loop does not re-peek.** The loop compares the incoming
  operator with `op_se`, the operator it has just popped, and not with the
  new top. Once it has started, it keeps popping past a looser operator.
  In `2<<1*1+1`, the `+` pops `*` and then `<<` as well
  (`Scenarios.PopPassesLooserOperator`). The rest of the line then computes
  (2<<1)+1 = 5 (`Scenarios.ShiftedFirst`). A loop that re-peeked would have
  left `<<` stacked and computed 2<<(1+1) = 8 (`Scenarios.ShiftedLast`).
  `Expression.PopChain` states the loop exactly as it is written, and
  `Expression.PopChainPops` says which operators it removes.
- **`)` matches only a `(` directly on top.** When `(` is on top of the
  operator stack, `)` skips its unwinding loop (`expr.c:392`) and drops the
  `(` (`expr.c:423-425`). A parenthesised lone operand therefore works:
  `(10)` evaluates to 10 (`Scenarios.ParenthesisedOperand`). With any
  operator inside the parentheses, the loop runs instead. `)` has no
  associativity, so it pops while `20 >= level` (`expr.c:408`), which holds
  for every operator, `(` included. Applying `(` calls its NULL `eval`
  pointer, unless the number stack runs out first. Either way the loop ends
  in a crash (`Expression.CloseLoopAborts`).
- **An absolute operand overwrites itself.** `evaluate_address` writes `(`
  over the first character of any operand that is neither `#…` nor `A`
  (`expr.c:517-519`). A plain `$10` thus becomes `(10`. The final drain
  pops that `(` as a binary operator and finds only one number for it, so
  the evaluation crashes
  (`Scenarios.AbsoluteOperandAborts`).
- **Symbols are found by prefix.**
  - `sym_look_for_symbol` compares each stored name with the name being
    looked up over the length of the latter only (`symbols.c:148`). A label that is a prefix of an existing
    one is therefore reported as already defined
    (`LineFacts.PrefixLabelClashes`).
  - The lookup compares the whole `getarg` argument, which runs up to white
    space, `)` or `,`. `FOO+1` is therefore looked up as the name `FOO+1`,
    and it is not found even with a symbol `FOO` defined. It then goes to
    the built-in scan, which crashes as the next item describes
    (`Scenarios.GluedNameAborts`).
- **An unknown name crashes the built-in scan.** The built-in table ends
  in a `{ NULL, NULL }` entry (`symbols.c:36`). `check_built_in_symbol`
  loops while `*lbis->name` is not NUL (`symbols.c:188`). When no entry
  matches, the scan reads through the sentinel's NULL name and the process
  crashes. The function therefore never returns NULL, and the
  `SYMBOL_NOT_FOUND` return of `eval_expr` (`expr.c:329-330`) is never
  reached. The model ends such a scan with the `Abort` outcome
  `NullBuiltInName` (`Symbols.CheckBuiltIn`, `Expression.Name`).
- **Built-in names skip the rest of the argument.** After `PC`,
  `check_built_in_symbol` moves past the whole `getarg` argument, so
  `PC+2` is just PC (`Scenarios.BuiltInSkipsRest`).
- **`*` is never read as PC.** The built-in table lists `*` as the PC, but
  `eval_expr` looks up names only when they start with a letter
  (`expr.c:321`). A lone `*` is therefore a multiplication with no operands
  (`Scenarios.StarIsNotPc`).
- **The stacks are never reset.** An expression that fails leaves its
  operands on the stacks, and the next expression uses them. `1+$G` fails
  with `NOT_A_VALID_NUMBER`, because no hexadecimal digit follows the `$`.
  A following `2` then evaluates to 3
  (`Scenarios.StacksCarryOver`).
- **Directives are case-sensitive; mnemonics are not.** `parse` upper-cases
  the word only before the mnemonic search
  (`Scenarios.UpperCaseDirective`, `Scenarios.LowerCaseDirective`).

## Model

| member | source | states |
|---|---|---|
| `Words.Wrap32` | `expr.c:117-152` | the result is the 32-bit `int` congruent to its argument modulo 2^32, and equals the argument when that already fits |
| `Words.WrapMul` | `expr.c:117-121` | wrapping an inner factor first gives the same 32-bit product |
| `Words.TruncDiv` | `expr.c:123-131` | C division: the magnitude of the quotient is the floor of the magnitudes' quotient, and its sign is the product of the operands' signs |
| `Words.TruncMod` | `expr.c:133-140` | C remainder: `a == b*(a/b) + r` with `abs(r) < abs(b)` |
| `Errors.CodeInjective` | `errors.c:6-20` | distinct error identifiers have distinct codes, all between 1 and 11 |
| `Bits.BitwiseBit` | `expr.c:166-187` | bit k of the bitwise combination is the gate applied to bit k of each operand |
| `Bits.ComplementValue` | `expr.c:111-115` | the n-bit complement of u is 2^n − 1 − u |
| `Bits.XorTwice` | `expr.c:183-187` | xor with the same operand twice is the identity |
| `Bits.UnsignedOfWrap` | `expr.c:111-115` | reading a 32-bit pattern as `int` and back as unsigned is the identity |
| `Bits.WrapOfUnsigned` | `expr.c:111-115` | reading an `int` as unsigned and back is the identity |
| `Bits.Word` | `expr.c:166-187` | a 32-bit bitwise operator's result agrees bit by bit with the gate on the operands' two's-complement bits |
| `Modes.Flag` | `global.h:7-22` | each addressing mode is the power of two of its bit position, at most 0x2000 |
| `Modes.FlagOneHot` | `global.h:7-22` | a mode constant has exactly one bit set |
| `Modes.FlagsDisjoint` | `global.h:7-22` | two different mode constants share no bit, so their `&` is 0 |
| `Modes.AndOneHot` | `main.c:407-410` | `mode & mask` is non-zero exactly when the mask has that mode's bit |
| `Modes.DenseIndexBijective` | `global.h:7-22` | the decimal numbering of the modes (the second comment column) is one-to-one and onto 0..12 |
| `Modes.BitLengthPow2` | `utils.c:191-194` | the shift loop counts k+1 steps on 2^k |
| `Modes.Mode2Dec` | `utils.c:184-197` | the loop returns −1 for 0, and otherwise the number of right shifts to reach 0, minus 2 |
| `Modes.Mode2DecOfFlag` | `utils.c:184-197` | `mode2dec` maps each mode constant to its dense index, and MODE_UNUSED to −1 |
| `Modes.Mode2DecBounds` | `utils.c:184-197` | on any mode mask below 0x4000, `mode2dec` lies in −1..12, inside `opcodes[13]` once −1 is excluded |
| `Modes.BitLengthMonotone` | `utils.c:191-194` | a larger value never takes fewer shifts |
| `Lexer.ToUpper` | `utils.c:57-63` | a lower-case ASCII letter becomes the upper-case letter 32 code points below it, and every other character is unchanged |
| `Lexer.EndOfLineEndsArg` | `utils.c:39-85` | every end-of-line character also ends an argument, and the only other argument ends are tab, space, `)` and `,` |
| `Lexer.LabelCharIsNotEndOfArg` | `utils.c:68-113` | a label character neither ends an argument nor is white space |
| `Lexer.FirstNonWhite` | `utils.c:16-22` | the first position at or after i that is not white space; everything skipped is blank |
| `Lexer.SkipWhite` | `utils.c:16-22` | the loop stops at exactly the first non-white character |
| `Lexer.FirstWhite` | `utils.c:27-33` | the first white-space position, or none when the rest of the line has none |
| `Lexer.SkipToWhite` | `utils.c:27-33` | the loop stops at exactly the first white-space character, or reports that there is none |
| `Lexer.UpperRunChars` | `utils.c:57-63` | the copied prefix is the upper-cased input up to the first white space, `;` or end of string, at most n characters |
| `Lexer.StrNToUpper` | `utils.c:57-63` | the loop builds exactly the upper-cased word |
| `Lexer.ArgEnd` | `utils.c:90-102` | the argument runs up to the first end-of-argument character, and nothing before it is one |
| `Lexer.Arg` | `utils.c:90-102` | the copied argument has no end-of-argument character and does not start with white space |
| `Lexer.ArgStop` | `utils.c:90-102` | the reader stops on an end-of-argument character just past the copied argument |
| `Lexer.GetArg` | `utils.c:90-102` | the loop copies exactly `Arg` and stops at `ArgStop` |
| `Lexer.DigitRun` | `expr.c:338-371` | a maximal run of digits of the base |
| `Lexer.StrToUL` | `expr.c:366` | `strtoul`: the result fits `unsigned long`, saturates on `ERANGE`, and consumes at least one digit whenever one (possibly signed) follows |
| `Lexer.Convert` | `expr.c:366` | `ERANGE` exactly when the magnitude exceeds `ULONG_MAX`, which is then the result; otherwise the magnitude, or after a minus sign the value that adds to it to 0 modulo 2^64 |
| `Lexer.StrToULRange` | `expr.c:366` | with no digit nothing is converted and the cursor stays; otherwise it stops after the digit run, with `ERANGE` exactly when the run's value exceeds `ULONG_MAX` |
| `Lexer.StrToULValue` | `expr.c:366` | without `ERANGE` the result is the digit run's value, or after a minus sign its negation modulo 2^64 |
| `Lexer.DigitsValueSpelled` | `expr.c:366` | the digits read from a line are worth their value by Horner's rule |
| `Lexer.RunLength` | `expr.c:366` | a run of digits followed by a non-digit is read to its end |
| `Lexer.StrToULReadsSpelled` | `expr.c:366` | digits written at a position and followed by neither a letter nor a digit are read back: their value, clamped with `ERANGE` above `ULONG_MAX`, and their end |
| `Lexer.SpelledRoundTrip` | `expr.c:366` | a numeral in base 2, 8, 10 or 16 reads back as its value |
| `Lexer.GetValue` | `utils.c:159-178` | a value exactly when the argument starts with a digit or `$`, and then a 32-bit `int` |
| `Lexer.GetValueDecimal` | `utils.c:159-178` | a decimal numeral reads back as its value truncated to 32 bits, or as -1 when it exceeds `ULONG_MAX` |
| `Lexer.GetValueHex` | `utils.c:159-178` | a `$`-prefixed hexadecimal numeral reads back the same way |
| `Lexer.GetValueByArg` | `utils.c:159-178` | the value depends on the `getarg` argument alone |
| `Symbols.FindPrefix` | `symbols.c:138-156` | the first entry whose stored name starts with the argument, comparing only `strlen` of the argument |
| `Symbols.Append` | `symbols.c:73-106` | the new entry is linked after the old last entry, and every earlier entry keeps its name and value |
| `Symbols.AppendKeepsLinks` | `symbols.c:88-103` | appending keeps every `prev`/`next` link consistent |
| `Symbols.SymbolTable.Init` | `symbols.c:63-68` | `sym_init`: the list is empty and the table invariant holds |
| `Symbols.SymbolTable.LookFor` | `symbols.c:138-156` | returns the first prefix match and moves the position past the stored name's length, or leaves it on no match |
| `Symbols.SymbolTable.NewSymbol` | `symbols.c:73-106` | fails exactly when the name is already found, and otherwise appends an entry linked after the old last, as the new last, keeping the invariant |
| `Symbols.SymbolTable.SetValue` | `main.c:937-943` | only the value of entry i changes |
| `Symbols.SymbolTable.NextSymbol` | `symbols.c:111-117` | the following entry, and none after the last |
| `Symbols.SymbolTable.CleanUp` | `symbols.c:161-175` | visits every entry once and returns 0 |
| `Symbols.LabelRun` | `symbols.c:123-133` | copies label characters until the first non-label character, at most n |
| `Symbols.ReadNameText` | `symbols.c:123-133` | the name is the first character followed by up to 254 label characters |
| `Symbols.ReadName` | `symbols.c:123-133` | the loop returns exactly that name and stops just after it |
| `Symbols.BuiltInValue` | `symbols.c:42-55` | X gives `BUILT_IN_X`, Y gives `BUILT_IN_Y`, and PC gives the current PC |
| `Symbols.FindBuiltIn` | `symbols.c:177-197` | the first built-in whose name is a prefix of the argument |
| `Symbols.CheckBuiltIn` | `symbols.c:177-197` | finds the first entry whose name prefixes the argument and moves past the whole argument; when none matches, the scan reads the sentinel's NULL name and aborts |
| `Symbols.BuiltInNamesX` | `symbols.c:28-37` | any argument starting with X or x names the X register |
| `Symbols.BuiltInNamesY` | `symbols.c:28-37` | any argument starting with Y or y names the Y register |
| `Symbols.BuiltInNamesPC` | `symbols.c:28-37` | `*`, `PC` and `pc` name the program counter |
| `Symbols.BuiltInNamesOnly` | `symbols.c:28-37` | nothing else is a built-in |
| `Operators.TableShape` | `expr.c:76-94` | levels are 1..20; only `!` and `~` are unary; only the parentheses have level 20 and no associativity |
| `Operators.RowText` | `expr.c:76-94` | the operator spellings are the fourteen single characters of the table, plus `<<` and `>>` |
| `Operators.EvalNot` | `expr.c:105-109` | 1 exactly when the operand is 0, else 0 |
| `Operators.EvalInv` | `expr.c:111-115` | `~a == -a-1` on 32-bit `int` |
| `Operators.ComplementOfInt` | `expr.c:111-115` | the bitwise complement of the two's-complement pattern is −a−1 |
| `Operators.EvalMul` | `expr.c:117-121` | the 32-bit product, congruent to the exact one |
| `Operators.EvalAdd` | `expr.c:142-146` | the 32-bit sum, congruent to the exact one |
| `Operators.EvalSub` | `expr.c:148-152` | the 32-bit difference, congruent to the exact one |
| `Operators.AddSubInverse` | `expr.c:142-152` | subtracting what was added gives back the original |
| `Operators.EvalDiv` | `expr.c:123-131` | aborts exactly on a zero divisor, and otherwise gives the truncated quotient |
| `Operators.EvalMod` | `expr.c:133-140` | aborts exactly on a zero divisor, and otherwise gives C's remainder, smaller than the divisor in magnitude |
| `Operators.QuotientFits` | `expr.c:123-131` | the quotient fits in `int` except for INT_MIN / −1 |
| `Operators.RemainderFits` | `expr.c:133-140` | the remainder always fits in `int` |
| `Operators.DivModIdentity` | `expr.c:123-140` | `(a/b)*b + a%b == a` |
| `Operators.EvalShiftUp` | `expr.c:154-158` | multiplication by 2^(count mod 32), wrapped |
| `Operators.EvalShiftDown` | `expr.c:160-164` | arithmetic right shift: the floor of division by 2^(count mod 32) |
| `Operators.ShiftRoundTrip` | `expr.c:154-164` | shifting left then right by the same count gives the value back when nothing overflows |
| `Operators.EvalAnd` | `expr.c:166-170` | bit by bit and of the operands |
| `Operators.EvalOr` | `expr.c:177-181` | bit by bit or of the operands |
| `Operators.EvalXor` | `expr.c:183-187` | bit by bit exclusive or of the operands |
| `Operators.XorInvolution` | `expr.c:183-187` | `(a:b):b == a` |
| `Operators.ExpIsPower` | `expr.c:172-175` | `^` is the 32-bit wrapped power |
| `Operators.EvalComma` | `expr.c:189-193` | the comma operator yields its left operand |
| `Operators.Apply` | `expr.c:76-94` | applying an operator crashes exactly for the parentheses (NULL `eval`) or a zero divisor |
| `Operators.FindOp` | `expr.c:247-264` | the first operator in table order whose spelling starts at the position |
| `Operators.IsOperator` | `expr.c:247-264` | the loop finds exactly that row |
| `Operators.FoundStartsOperator` | `expr.c:247-264` | a found operator starts with one of the operator characters |
| `Expression.PushOp` | `expr.c:195-203` | pushes on top, or aborts exactly when `MAXOPSTACK` entries are in use |
| `Expression.PopOp` | `expr.c:205-213` | returns the top and the rest, or aborts exactly on an empty stack |
| `Expression.PeekOp` | `expr.c:215-222` | the top, or an abort on an empty stack |
| `Expression.PushNum` | `expr.c:224-232` | pushes on top, or aborts exactly when `MAXNUMSTACK` entries are in use |
| `Expression.PopNum` | `expr.c:234-242` | returns the top and the rest, or aborts exactly on an empty stack |
| `Expression.StackLifo` | `expr.c:195-242` | a pop right after a push returns the pushed item and the stack before |
| `Expression.PopApply` | `expr.c:432-440` | pops an operator and its operands and pushes one result; aborts on a missing operator or operand |
| `Expression.PopApplyApplies` | `expr.c:432-440` | the pushed result is the operator applied to the popped operands, which lie in source order |
| `Expression.PopChain` | `expr.c:430-456` | the pop loop as written: pops while the last popped operator binds tighter than the incoming one, keeping a prefix of the stack |
| `Expression.PopChainDepth` | `expr.c:430-456` | how many operators the loop leaves, computed from the stack alone |
| `Expression.PopChainPops` | `expr.c:430-456` | every popped operator above the deepest popped one passed the level test; the deepest popped one failed it and ended the loop, unless the stack ran empty; the operator left on top is never compared |
| `Expression.PopWhileBinds` | `expr.c:430-456` | the loop started from the current top: a prefix of the stack is kept, and nothing is popped when the top does not bind tighter |
| `Expression.PopWhileBindsPops` | `expr.c:430-456` | characterises the operators popped and kept |
| `Expression.CloseLoop` | `expr.c:389-428` | the unwinding loop of `)`: when it ends, the top no longer binds tighter than `)` |
| `Expression.CloseLoopAborts` | `expr.c:389-428` | with anything on the operator stack the unwinding loop always crashes |
| `Expression.CloseParen` | `expr.c:389-428` | an empty operator stack is a mismatch, a `(` on top is dropped, and anything else crashes |
| `Expression.OperatorStep` | `expr.c:377-459` | `(` is pushed when there is room; a mismatch is only reported for `)`; the stacks stay well formed |
| `Expression.OperatorPart` | `expr.c:377-459` | no operator leaves everything unchanged; a found one takes its step and moves past its spelling |
| `Expression.OperatorFound` | `expr.c:377-459` | when operator k is found, the part takes exactly operator k's step |
| `Expression.Drain` | `expr.c:467-477` | empties the operator stack, consuming each operator's operands |
| `Expression.Digits` | `expr.c:338-371` | pushes the 32-bit value `strtoul` read and moves to where it stopped; on `ERANGE` reports `NOT_A_VALID_NUMBER` with the stacks unchanged but the value already written, as -1 |
| `Expression.Numeral` | `expr.c:338-371` | a sign not followed by a digit, `$` not followed by a hex digit, or `%`/`&` not followed by a digit is `NOT_A_VALID_NUMBER`; otherwise one value is pushed |
| `Expression.Name` | `expr.c:321-336` | a stored symbol pushes its value (the `*value` cell when it is the entry being assigned) and moves past its name length; otherwise a built-in pushes its getter's value, moves to the end of the argument and writes `*reg` when asked; a name that is neither aborts in the built-in scan, so `SYMBOL_NOT_FOUND` is never returned |
| `Expression.Operand` | `expr.c:316-372` | when an operator is expected nothing is read; otherwise at most one value is pushed, or `NOT_A_VALID_NUMBER` with the stacks unchanged |
| `Expression.Finish` | `expr.c:479-487` | every pending operator is applied; when a number is left, the top one is popped into `*value` and the end is reported through `outptr`, and otherwise nothing is reported |
| `Expression.Eval` | `expr.c:306-488` | a result is reported with an empty operator stack; the only errors are `NOT_A_VALID_NUMBER` and `PARANTHESIS_MISSMATCH`, since an unknown name aborts before `SYMBOL_NOT_FOUND`; `reg` is written only when asked for |
| `Expression.EvalAfter` | `expr.c:373-465` | the same for the rest of a call after its operand |
| `Expression.Overwrite` | `expr.c:517-519` | the operand with `(` written over its first character |
| `Expression.Immediate` | `expr.c:500-508` | `#` operands give immediate mode, with `ASM_ADDR_IMMEDIATE_TO_BIG` exactly when the value is outside 0..255 |
| `Expression.Indirect` | `expr.c:517-530` | the overwritten operand gives indirect,X or indirect,Y by the register it named, and `ASM_INVALID_ADDRESSING_MODE` otherwise |
| `Expression.EvaluateAddress` | `expr.c:494-533` | chooses immediate on `#`, accumulator on `A`, and indirect for everything else; only those four modes come out |
| `Evaluation.Evaluator.constructor` | `expr.c:96-100` | both stacks start empty |
| `Evaluation.Evaluator.PushOpStack` | `expr.c:195-203` | the array push does what `PushOp` does to the modelled stacks |
| `Evaluation.Evaluator.PopOpStack` | `expr.c:205-213` | the array pop does what `PopOp` does |
| `Evaluation.Evaluator.PeekOpStack` | `expr.c:215-222` | the array peek is `PeekOp` |
| `Evaluation.Evaluator.PushNumStack` | `expr.c:224-232` | the array push does what `PushNum` does |
| `Evaluation.Evaluator.PopNumStack` | `expr.c:234-242` | the array pop does what `PopNum` does |
| `Evaluation.Evaluator.ApplyTop` | `expr.c:432-440` | one pass of the pop loop does what `PopApply` does |
| `Evaluation.Evaluator.PopPass` | `expr.c:430-441` | each iteration shrinks the operator stack and preserves what `PopChain` will return |
| `Evaluation.Evaluator.PopWhileBindsLoop` | `expr.c:430-456` | the while loop leaves the stacks that `PopWhileBinds` computes |
| `Evaluation.Evaluator.ClosePass` | `expr.c:392-422` | one pass of the `)` loop is `ClosePassStep` |
| `Evaluation.Evaluator.CloseLoopRun` | `expr.c:389-428` | the `)` loop is `CloseLoop` |
| `Evaluation.Evaluator.CloseParenthesis` | `expr.c:389-428` | the `)` branch is `CloseParen` |
| `Evaluation.Evaluator.DrainAll` | `expr.c:467-477` | the drain loop is `Drain` |
| `Evaluation.Evaluator.OperatorStepRun` | `expr.c:385-457` | an operator's effect on the arrays is `OperatorStep` |
| `Evaluation.Evaluator.ReadOperator` | `expr.c:377-459` | the operator part of a call is `OperatorPart` |
| `Evaluation.Evaluator.ReadNumber` | `expr.c:338-371` | the numeral branch is `Numeral` |
| `Evaluation.Evaluator.ReadDigits` | `expr.c:365-370` | the `strtoul` call and push are `Digits` |
| `Evaluation.Evaluator.ReadOperand` | `expr.c:316-372` | the operand part of a call is `Operand` over the live symbol table |
| `Evaluation.Evaluator.FinishExpr` | `expr.c:479-487` | the final pop is `Finish` |
| `Evaluation.Evaluator.EvalExpr` | `expr.c:306-488` | the recursive C function, run on the arrays and the linked symbol table, returns what `Eval` computes and leaves its stacks |
| `Evaluation.Evaluator.EvalTail` | `expr.c:373-465` | the rest of a call after the operand is `EvalAfter` |
| `Evaluation.Evaluator.EvaluateAddressRun` | `expr.c:494-533` | `evaluate_address` on the arrays is `EvaluateAddress` |
| `Tables.MaskedByDivision` | `main.c:407-410` | testing a mode's bit in a mask is the division test on the mask |
| `Tables.AluModesList` | `main.c:216-225` | the LDA mask admits exactly the eight modes the row lists |
| `Tables.LdxModesList` | `main.c:226-232` | the LDX mask admits exactly the five modes the row lists |
| `Tables.ShiftModesList` | `main.c:159-163` | the ASL mask admits exactly the five modes the row lists |
| `Tables.LdaOpcodesListed` | `main.c:216-225` | the LDA opcode array is non-zero exactly at the modes the row lists |
| `Tables.LdxOpcodesListed` | `main.c:226-232` | the LDX opcode array is non-zero exactly at the modes the row lists |
| `Tables.LdaOpcodesFollowMask` | `main.c:612-616` | every mode the LDA mask admits has a real opcode at its `mode2dec` index, and no other |
| `Tables.LdxOpcodesFollowMask` | `main.c:662-666` | every mode the LDX mask admits has a real opcode at its `mode2dec` index, and no other |
| `Lines.FindCpu` | `main.c:316-332` | the first CPU name in the table that is a prefix of the argument |
| `Lines.OriginFromHex` | `main.c:335-357` | `ORG` with `$` and hexadecimal digits sets PC to their value truncated to 32 bits, or to -1 when `strtoul` saturates, and changes nothing else |
| `Lines.OriginFromDecimal` | `main.c:335-357` | the same for decimal digits |
| `Lines.OriginIgnoresOther` | `main.c:335-357` | any other argument leaves the state as it was, still with code OK |
| `Lines.ModeOfFlag` | `global.h:7-22` | recovers the mode from its constant |
| `Lines.ModeOfFlagInverse` | `global.h:7-22` | every mode constant maps back to its mode |
| `Lines.AslResult` | `main.c:397-414` | `asm_asl` passes on evaluation errors, and otherwise changes only the stacks |
| `Lines.LoadSwitch` | `main.c:615-641` | the switch touches only the output, adding at most one chunk |
| `Lines.LoadResult` | `main.c:598-646` | `asm_lda`/`asm_ldx` pass on evaluation errors, and otherwise change only the stacks and the output |
| `Lines.RunMnemonic` | `main.c:905-911` | a mnemonic handler keeps the cpu, keeps the symbols and only adds output |
| `Lines.RunDirective` | `main.c:892-893` | a directive changes at most cpu and PC |
| `Lines.FindDirective` | `main.c:888-899` | the first directive spelled at the start of the word, compared case-sensitively |
| `Lines.FindMnemonic` | `main.c:901-916` | the first mnemonic that starts the upper-cased word |
| `Lines.MnemonicStage` | `main.c:900-917` | the mnemonic search keeps the symbols and only adds output |
| `Lines.StageFor` | `main.c:900-917` | the same once the row is known |
| `Lines.ParseIn` | `main.c:883-918` | `parse` keeps the symbol list and only adds output |
| `Lines.ParseFor` | `main.c:883-918` | the same once the directive search is done |
| `Lines.Statement` | `main.c:946-951` | the non-label part of a line keeps the symbols and only adds output |
| `Lines.Assignment` | `main.c:937-943` | an `=`/`EQU` line stores `eval_expr`'s `*value` into the new symbol, takes the stacks it leaves, and keeps cpu, PC, the output and every other entry |
| `Lines.LineHead` | `main.c:930-943` | a line without a label goes on from column 0 unchanged; a label lookup finds is `SYMBOL_ALREADY_EXIST` with nothing changed; otherwise the label is appended with value PC and nothing else changes |
| `LineFacts.ImmediateByte` | `expr.c:500-508` | an immediate operand that passes its check fits in one byte |
| `LineFacts.AddressReported` | `expr.c:494-533` | every mode the resolver reports is one of its four, with an immediate value in one byte |
| `LineFacts.ReportedMode` | `expr.c:494-533` | that mode is one of immediate, accumulator, indirect,X and indirect,Y |
| `LineFacts.AslCases` | `main.c:397-414` | `ASL` succeeds exactly on the accumulator, and reports an invalid mode otherwise |
| `LineFacts.LdaSwitch` | `main.c:615-641` | for an admitted LDA mode, immediate emits A9 and the byte, and the other modes emit nothing |
| `LineFacts.LdxSwitch` | `main.c:665-685` | for an admitted LDX mode, immediate emits A2 and the byte, and the other modes emit nothing |
| `LineFacts.LoadPassesErrors` | `main.c:606-608` | an evaluation error or crash is passed on unchanged |
| `LineFacts.LdaImmediate` | `main.c:618-622` | `LDA #v` emits `A9 v` at PC |
| `LineFacts.LdaIndirect` | `main.c:633-636` | LDA indirect modes succeed and emit nothing |
| `LineFacts.LdaAccumulator` | `main.c:612-613` | `LDA A` is an invalid addressing mode |
| `LineFacts.LdxImmediate` | `main.c:668-672` | `LDX #v` emits `A2 v` at PC |
| `LineFacts.LdxRejects` | `main.c:662-663` | LDX rejects every mode the resolver gives other than immediate |
| `LineFacts.LoadNeverInternal` | `main.c:637-640` | the internal-error exit of the LDA/LDX switch cannot be reached |
| `LineFacts.ArgOfLabel` | `utils.c:90-102` | a label read from a line is its own `getarg` argument |
| `LineFacts.LineLabel` | `symbols.c:123-133` | a name read from a line that starts with a letter is a label |
| `LineFacts.StoredLabelFound` | `symbols.c:73-156` | after a label is stored, looking it up finds the new entry |
| `LineFacts.PrefixLabelClashes` | `symbols.c:148` | a new label that is a prefix of a stored name is reported as already defined |
| `LineFacts.ProcessLineStep` | `main.c:923-952` | a line that does not crash keeps every earlier entry, adds at most one, and only adds output |
| `LineFacts.SeiOneByte` | `main.c:797-814` | `SEI` alone emits one byte at PC and advances PC by one; anything after it is `ASM_UNEXPECTED_CHARACTER` |
| `Assembly.Assembler.constructor` | `main.c:307-310` | no CPU, PC 0, no symbols, empty stacks, no output |
| `Assembly.Assembler.Output` | `output.c:28-44` | the bytes go out at PC, and PC moves past them |
| `Assembly.Assembler.DirCpu` | `main.c:316-332` | `dir_cpu` on the globals is `SelectCpu` |
| `Assembly.Assembler.DirOrg` | `main.c:335-357` | `dir_org` on the globals is `SetOrigin` |
| `Assembly.Assembler.AsmAsl` | `main.c:397-414` | `asm_asl` on the globals is `AslHandler` |
| `Assembly.Assembler.AsmLoad` | `main.c:598-690` | `asm_lda`/`asm_ldx` on the globals are `LoadHandler` |
| `Assembly.Assembler.AsmSei` | `main.c:797-814` | `asm_sei` on the globals is `SeiHandler` |
| `Assembly.Assembler.CallDirective` | `main.c:892-893` | the directive call is `RunDirective` |
| `Assembly.Assembler.CallMnemonic` | `main.c:905-911` | the mnemonic call is `RunMnemonic` |
| `Assembly.Assembler.ScanDirectives` | `main.c:888-899` | the directive loop finds the row `FindDirective` names |
| `Assembly.Assembler.ScanMnemonics` | `main.c:901-916` | the mnemonic loop finds the row `FindMnemonic` names in the upper-cased word |
| `Assembly.Assembler.MnemonicStage` | `main.c:900-917` | the mnemonic half of `parse` on the globals |
| `Assembly.Assembler.ParseIn` | `main.c:883-918` | `parse` over given tables on the globals |
| `Assembly.Assembler.Parse` | `main.c:883-918` | `parse` on the globals is `Lines.Parse` |
| `Assembly.Assembler.ReadAndStoreLabel` | `utils.c:120-154` | reads the label, fails exactly when it is found already, and otherwise appends it with value PC; crashes when no white space follows |
| `Assembly.Assembler.Statement` | `main.c:946-951` | the non-label part on the globals |
| `Assembly.Assembler.Assign` | `main.c:937-943` | the assignment evaluates straight into the new entry's value |
| `Assembly.Assembler.ProcessLine` | `main.c:923-952` | `process_line` on the globals is `Lines.ProcessLine` |
| `Scenarios.SubtractionsGroupFromRight` | `expr.c:430-442` | `10-2-3` evaluates to 11 |
| `Scenarios.LoneOperand` | `expr.c:461-487` | an operand that fills the whole argument is the expression's value |
| `Scenarios.NoOperatorAtEnd` | `expr.c:247-264` | no operator is found past the end of the line |
| `Scenarios.HexNumeral` | `expr.c:349-370` | `$FF` is 255 |
| `Scenarios.BinaryNumeral` | `expr.c:354-370` | `%1010` is 10 |
| `Scenarios.OctalNumeral` | `expr.c:359-370` | `&17` is 15 |
| `Scenarios.PopPassesLooserOperator` | `expr.c:430-441` | the pop loop pops `<<` after `*` although `+` binds tighter than `<<` |
| `Scenarios.ShiftedFirst` | `expr.c:467-477` | the drain adds last what the pop loop left |
| `Scenarios.ShiftedLast` | `expr.c:467-477` | the drain applies `+` before `<<` when `+` lies on top |
| `Scenarios.GluedNameAborts` | `symbols.c:138-156` | `FOO+1` with `FOO` defined is not found as a symbol and aborts in the built-in scan |
| `Scenarios.BuiltInSkipsRest` | `symbols.c:177-197` | `PC+2` evaluates to PC |
| `Scenarios.StacksCarryOver` | `expr.c:96-100` | what a failed `1+$G` leaves on the stacks is used by the next expression |
| `Scenarios.StarIsNotPc` | `expr.c:321-343` | `*` is listed as PC, but a lone `*` crashes on an empty number stack |
| `Scenarios.AbsoluteOperandAborts` | `expr.c:517-530` | `$10` as an operand crashes on an empty number stack |
| `Scenarios.ParenthesisedOperand` | `expr.c:389-428` | `(10)` evaluates to 10 with both stacks empty: `(` is pushed, 10 is read, `)` finds the `(` on top and drops it, and the lone number becomes `*value` |
| `Scenarios.UpperCaseDirective` | `main.c:888-899` | `ORG $10` sets PC to 16 |
| `Scenarios.LowerCaseDirective` | `main.c:883-918` | `org $10` is no valid directive or mnemonic and changes nothing |
| `Scenarios.NoRowFrom` | `main.c:901-916` | the mnemonic search from row k finds nothing when no row from k on begins the word, the converse of `FindMnemonic`'s own last clause |
| `Scenarios.NoMnemonicOrg` | `main.c:901-916` | no mnemonic name begins `ORG` |

## Left out

- The `main` driver (file handling, passes, the line loop), `send_to_file`
  and all `printf`/`DBG` output: I/O. `Assembly.Assembler.Output` records
  the bytes and the PC instead.
- `error_msgs` and the message strings: text only.
- `doop` (`expr.c:266-301`): dead code, never called.
- The directive and mnemonic handlers that only clear the buffer and
  return 0 (`dir_byte`, `dir_word`, `dir_end`, and every `asm_*` other than
  ASL, LDA, LDX and SEI). They are one `Stub` handler with that behaviour.
  The rows of `am` that list them are kept, with their masks.
- `malloc`/`free` in `symbols.c`: entries are values in a sequence, and
  `prev`/`next` are indices.
- The fixed C buffers (`char arg[256]`, `cpustr[64]`, `temp[10]`, the line
  buffer) and their overflow: strings are unbounded. `strntoupper`'s limit
  of 10 and the 255-character label limit are kept.
- `is_operator`'s `char operator[5]` (`expr.c:249-253`): `getarg` copies
  the whole argument into it, and an operator followed by more text
  overflows it. In `2<<1*1+1` the copy is `<<1*1+1`, eight bytes with the
  terminator. The copy is never read, since the search compares the
  operator table against the line itself, so the model leaves it out.
- errors.h is not part of this model. The error codes follow the copy of
  the enum at `errors.c:6-20`.
- The `DBG` traces in `pop_opstack` and `pop_numstack` (`expr.c:207`,
  `expr.c:236`) read the top entry before the emptiness test. They are
  tracing output and are left out with the rest of `DBG`.
- `Expression.Eval`: a call that consumes nothing and would recurse on the
  very same arguments (an argument such as `@`) recurses without end in C
  and crashes when the C stack overflows. The model stops it with the
  `Diverges` abort
  instead. Every other recursion consumes input or switches from operand
  to operator, so no fuel bound is needed.
- `Symbols.SymbolTable.NewSymbol`: `sym_new_symbol` ends without
  `return se;` (`symbols.c:105-106`), so its result is indeterminate. The
  model returns the new entry, as `read_and_store_label`'s NULL test
  evidently expects.
- `Lines.Statement`: `process_line` ends empty and comment lines with a
  bare `return;`, whose value is indeterminate. The model treats them as
  success (`Done`).
- `Lines.Junk`: the uninitialised `reg`, `mode` and `data` bytes are
  parameters. The model does not say which value a real stack frame would
  hold.
- `Assembly.Assembler.AsmAsl`: after a crash (`Aborted`) the state is not
  stated, because the C process has ended.
- `Assembly.Assembler.AsmLoad`: after a crash the state is not stated,
  because the process has ended.
- `Assembly.Assembler.CallMnemonic`: after a crash the state is not stated,
  because the process has ended.
- `Assembly.Assembler.MnemonicStage`: after a crash the state is not
  stated, because the process has ended.
- `Assembly.Assembler.ParseIn`: after a crash the state is not stated,
  because the process has ended.
- `Assembly.Assembler.Parse`: after a crash the state is not stated,
  because the process has ended.
- `Assembly.Assembler.Statement`: after a crash the state is not stated,
  because the process has ended.
- `Assembly.Assembler.Assign`: after a crash the state is not stated,
  because the process has ended.
- `Assembly.Assembler.ProcessLine`: after a crash the state is not stated,
  because the process has ended.
- `Lines.Assignment`: after a crash the state is not stated, because the
  process has ended.
- `Lexer.StrNToUpper`: the C loop does not stop at the terminating NUL and
  copies on past it, up to n characters. The model stops at the end of
  the string. `parse` compares the copy with `strncmp` against a mnemonic,
  which contains no NUL, so the comparison fails at that position either
  way.
- 65C02 and 65C816 encodings: the tables only list the CPU names, and no
  handler emits anything CPU-specific.
