// Error values of the pipeline (the CompileError and RuntimeError classes of src/errors.js),
// plus the two wrappers every stage returns.

module Errors {

  datatype Option<T> = None | Some(value: T)

  /** A 0-based source position; `NoPos` where the source passes `undefined` for line and column. */
  datatype Pos = At(line: nat, column: nat) | NoPos

  datatype Error =
    | CompileError(msg: string, pos: Pos)
    | RuntimeError(msg: string, pos: Pos)
      /** An exception raised by the JavaScript host itself (TypeError, ReferenceError, Error). */
    | HostError(msg: string)
      /** Behaviour the model does not cover: evaluation fuel ran out, or float64 specifics. */
    | Unmodelled(what: string)

  datatype Result<T> = Ok(value: T) | Err(error: Error)
  {
    predicate IsFailure() { Err? }
    function PropagateFailure<U>(): Result<U> requires Err? { Err(error) }
    function Extract(): T requires Ok? { value }
  }
}
