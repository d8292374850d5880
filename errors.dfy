/**
 * The error values of the domain layer and of the CreateUser command, and
 * Go's error wrapping. Message texts are not modelled: an error is
 * identified by its variant, as `errors.Is` identifies a sentinel.
 */
module Errors {

  /** Where `Handle` wrapped an error with `fmt.Errorf("...: %w", err)`. */
  datatype Context =
    | GenerateUserID   // "failed to generate user ID"
    | CreateUser       // "failed to create user"
    | SaveUser         // "failed to save user"

  datatype Error =
    | InvalidUserID                         // entities.ErrInvalidUserID
    | InvalidEmail                          // entities.ErrInvalidEmail
    | InvalidUsername                       // entities.ErrInvalidUsername
    | UserNotFound                          // entities.ErrUserNotFound
    | UserAlreadyExists                     // entities.ErrUserAlreadyExists
    // The error NewExample builds for an empty value. In Go, errors.New makes a
    // new value on every call, so callers have no sentinel to compare with; the
    // model makes it one variant, comparable like a sentinel.
    | EmptyValue
    | Backend(code: nat)                    // an error reported by a UserRepository implementation
    | Wrapped(context: Context, cause: Error)  // fmt.Errorf with the %w verb

  /** A Go `(T, error)` pair in which exactly one side is set. */
  datatype Result<+T> = Ok(value: T) | Err(error: Error)

  /** Go's `errors.Is`: `err` is `target` or wraps it, at any depth. */
  function Is(err: Error, target: Error): (b: bool)
    ensures err == target ==> b
    ensures b && err != target ==> err.Wrapped?
  {
    err == target || (err.Wrapped? && Is(err.cause, target))
  }

  /** The error at the bottom of a chain of wrappings. */
  function Root(err: Error): (r: Error)
    ensures !r.Wrapped?
    ensures Is(err, r)
  {
    if err.Wrapped? then Root(err.cause) else err
  }

  /**
   * Wrapping never hides a sentinel: `errors.Is` sees through any number
   * of `%w` wrappings, in both directions of the equivalence with the root.
   */
  lemma {:induction false} IsSentinel(err: Error, target: Error)
    requires !target.Wrapped?
    ensures Is(err, target) <==> Root(err) == target
    decreases err
  {
    if err.Wrapped? {
      IsSentinel(err.cause, target);
    }
  }
}
