/** Option and Result for the blog model; Result works with `:-` for the bootstrap's chained lookups. */
module Basics {

  /** An optional value: a nullable column, a missing query parameter, a form that did not validate. */
  datatype Option<+T> = None | Some(value: T)

  /** The outcome of a database call that may raise: `Ok` carries the row, `Err` the exception's name. */
  datatype Result<+T> = Ok(value: T) | Err(error: string) {

    predicate IsFailure() {
      Err?
    }

    function PropagateFailure<U>(): Result<U>
      requires Err?
    {
      Err(error)
    }

    function Extract(): T
      requires Ok?
    {
      value
    }
  }
}
