/** Failure-carrying values shared by every module of the model.

    The source signals failure by throwing; here a thrown value becomes an
    `Err`, and the distinction JavaScript draws between an `Error` object
    (which carries a message) and any other thrown value is kept in `Thrown`.
 */
module Outcomes {

  /** An optional value: a JavaScript `null`/`undefined` becomes `None`. */
  datatype Option<+T> = None | Some(value: T)

  /** The result of an operation that can fail with an error value. */
  datatype Result<+T, +E> = Ok(value: T) | Err(error: E)

  /** A value thrown by a callee the model cannot see. */
  datatype Thrown = ErrorObject(message: string) | NonError

  /** `t instanceof Error ? t.message : fallback` */
  function MessageOr(t: Thrown, fallback: string): string
  {
    match t
    case ErrorObject(m) => m
    case NonError => fallback
  }
}
