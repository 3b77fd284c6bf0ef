/** Failure-carrying results for the operations of the screenshot tool that
    throw in `See1Shot.cs`: an out-of-range argument or an index past the end. */
module Wrappers {

  /** The exceptions the modelled code can raise. */
  datatype Error =
    | ArgumentOutOfRange   // `throw new ArgumentOutOfRangeException()`, or `Substring` with a negative length
    | IndexOutOfRange      // an array index outside its bounds

  datatype Option<+T> = None | Some(value: T)

  datatype Result<+T> = Ok(value: T) | Err(error: Error) {
    predicate IsFailure() { Err? }

    function PropagateFailure<U>(): Result<U>
      requires Err?
    {
      Err(error)
    }

    function Extract(): T
      requires Ok?
    {
      value
    }
  }
}
