/** Option, Result and Go-style error values shared by the other modules. */
module Wrappers {

  datatype Option<+T> = None | Some(value: T)

  datatype Result<+T, +E> = Ok(value: T) | Err(error: E)

  /** A Go `error`: either a plain message (`errors.New`, or `fmt.Errorf`
      without `%w`) or a message prefix wrapping a cause (`fmt.Errorf("p: %w", cause)`). */
  datatype Error = Message(text: string) | Wrapped(prefix: string, cause: Error)

  /** The string `err.Error()` returns. */
  function Text(e: Error): string
  {
    match e
    case Message(t) => t
    case Wrapped(p, c) => p + ": " + Text(c)
  }

  /** `errors.Unwrap`: the wrapped cause, or none for a plain message. */
  function Unwrap(e: Error): (r: Option<Error>)
    ensures r.Some? <==> e.Wrapped?
    ensures e.Wrapped? ==> r.value == e.cause
  {
    match e
    case Message(_) => None
    case Wrapped(_, c) => Some(c)
  }
}
