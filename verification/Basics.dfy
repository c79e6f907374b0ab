// Shared result types.
module Basics {
  datatype Option<+T> = None | Some(value: T)

  // The error kinds the engine distinguishes when it refuses an operation.
  datatype Error =
    | InvalidInput
    | Conflict
    | NotFound
    | Migration
    | ConstraintViolation
    | Storage

  datatype Result<+T> = Ok(value: T) | Err(error: Error)
  {
    predicate IsFailure() { Err? }

    function PropagateFailure<U>(): Result<U>
      requires Err?
    {
      Err(error)
    }

    function Extract(): T
      requires Ok?
    {
      value
    }
  }

  // `sub` is obtained from `whole` by dropping elements and keeping the order.
  ghost predicate IsSubsequence<T>(sub: seq<T>, whole: seq<T>)
    decreases |whole|
  {
    if sub == [] then true
    else if whole == [] then false
    else
      var n := |whole| - 1;
      IsSubsequence(sub, whole[..n])
      || (sub[|sub| - 1] == whole[n] && IsSubsequence(sub[..|sub| - 1], whole[..n]))
  }
}
