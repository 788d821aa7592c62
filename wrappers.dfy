/** Failure-compatible result types and the error kinds the library raises.
    Every Python exception that can leave a modelled operation is one
    constructor of `Error`; the message text is built in module Exceptions. */
module Wrappers {

  datatype Option<+T> = None | Some(value: T)

  /** The kinds of failure. The first groups mirror the error tables of
      TeXCalc/exceptions.py; the last group stands for built-in Python
      exceptions the modelled code lets escape. */
  datatype Error =
    // InitError
    | NotAConst
    | BadArguments
    | BadVariables
    | UnsupportedOperands(operands: seq<string>)
      // ComputeError
    | NotComputableField(field: string)
    | NotComputableProcessor(cause: Error)
    | InvalidFibonacciPosition(position: int)
    | SqrtOfNegativeValue
      // CustomFunctionError
    | NotFoundName
      // FieldError
    | BadFieldArgument(argument: string)
    | BadChoicesMap
      // InvalidContextMap
    | NotDefined
      // UserError
    | NotDecimal(wrongName: string)
    | NotEnoughVariables(varName: string)
      // built-in exceptions escaping the modelled code
    | KeyError
    | TypeError
    | AttributeError
    | DecimalFailure   // an InvalidOperation / DivisionByZero signalled by decimal arithmetic
    | EvalFailure      // eval() of the arithmetic fallback raised
    | OutOfFuel        // the model's bound on the grammar fixpoint was reached

  datatype Result<+T> = Ok(value: T) | Err(error: Error) {
    predicate IsFailure() { Err? }
    function PropagateFailure<U>(): Result<U>
      requires Err?
    {
      Err(error)
    }
    function Extract(): T
      requires Ok?
    {
      value
    }
  }
}
