/** Result codes of the assembler.
    ErrorId follows the order of the error table: OK is 0 and the first
    error is 1.  Fatal lists the places where the program calls exit()
    (or crashes) instead of returning a code; the model surfaces them as
    an explicit outcome. */
module Errors {

  datatype ErrorId =
    | CpuNotSupported
    | NoValidDirectiveOrMnemonic
    | NotAValidNumber
    | NotAnOperator
    | ParanthesisMissmatch
    | SymbolNotFound
    | SymbolAlreadyExist
    | AsmAddrImmediateToBig
    | AsmUnexpectedCharacter
    | AsmInvalidAddressingMode
    | AsmIndirectModeInvalid

  /** The numeric code the program returns for an error (OK is 0). */
  function Code(e: ErrorId): (c: nat)
    ensures 1 <= c <= 11
  {
    match e
    case CpuNotSupported => 1
    case NoValidDirectiveOrMnemonic => 2
    case NotAValidNumber => 3
    case NotAnOperator => 4
    case ParanthesisMissmatch => 5
    case SymbolNotFound => 6
    case SymbolAlreadyExist => 7
    case AsmAddrImmediateToBig => 8
    case AsmUnexpectedCharacter => 9
    case AsmInvalidAddressingMode => 10
    case AsmIndirectModeInvalid => 11
  }

  lemma CodeInjective(a: ErrorId, b: ErrorId)
    ensures Code(a) == Code(b) ==> a == b
  {
  }

  /** Ways the process ends without returning a code. */
  datatype Fatal =
    | DivisionByZero       // eval_div / eval_mod
    | OpStackOverflow      // push_opstack on a full stack
    | OpStackEmpty         // pop_opstack / peek_opstack on an empty stack
    | NumStackOverflow     // push_numstack on a full stack
    | NumStackEmpty        // pop_numstack on an empty stack
    | NullEvaluator        // an operator whose eval pointer is NULL is applied
    | NullBuiltInName      // check_built_in_symbol reads the name of the table's NULL sentinel
    | ReadPastEnd          // a scan with no end-of-string guard passes the terminator
    | Diverges             // eval_expr recurses on an identical state forever
    | InternalError        // "an internal error occured, terminating"

  /** What a C function of the core hands back to its caller. */
  datatype Outcome = Done | Failed(error: ErrorId) | Aborted(fatal: Fatal)

  /** A value, or the process stops. */
  datatype Res<T> = Ok(val: T) | Abort(fatal: Fatal)
}
