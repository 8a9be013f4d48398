/** Go errors as trees, and the way `errors.Is` and `errors.As` search them. */
module Errors {
  import opened Prelude

  /** `Alone` and `Both` are what `errors.Join` makes of one and of two errors;
      `Staged` is the host package's `Error`. */
  datatype Error =
    | Sentinel(name: string)
    | Message(text: string)
    | Wrapped(text: string, inner: Error)
    | Alone(only: Error)
    | Both(first: Error, second: Error)
    | Staged(stage: string, text: string, cause: Error)

  const EOF := Sentinel("EOF")
  const INTERRUPTED := Sentinel("runtime stream interrupted")
  const STREAM_CLOSED := Sentinel("runtime stream closed")
  const CONTEXT_CANCELED := Sentinel("context canceled")
  const DEADLINE_EXCEEDED := Sentinel("context deadline exceeded")

  /** `errors.Is`: whether `target` occurs anywhere in the tree. */
  predicate Is(e: Error, target: Error) {
    e == target ||
    match e
    case Wrapped(_, inner) => Is(inner, target)
    case Alone(only) => Is(only, target)
    case Both(first, second) => Is(first, target) || Is(second, target)
    case Staged(_, _, cause) => Is(cause, target)
    case _ => false
  }

  /** `errors.Join` of two errors, nil among them left out. */
  function Join(a: Option<Error>, b: Option<Error>): Option<Error> {
    match (a, b)
    case (None, None) => None
    case (Some(x), None) => Some(Alone(x))
    case (None, Some(y)) => Some(Alone(y))
    case (Some(x), Some(y)) => Some(Both(x, y))
  }

  /** `errors.Join` whose first argument is an error. */
  function JoinTo(x: Error, b: Option<Error>): Error {
    if b.None? then Alone(x) else Both(x, b.value)
  }

  lemma WrappedFinds(text: string, cause: Error, target: Error)
    requires target.Sentinel?
    ensures Is(Wrapped(text, cause), target) <==> Is(cause, target)
  {
  }
}
