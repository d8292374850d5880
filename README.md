# Domain layer of the Go service template, in Dafny

This project models the example domain layer of a Go Clean-Architecture
service template:

- the `User` entity (`internal/domain/entities/user.go`): the `UserID`
  identifier and its checked constructor, the two length validators, the
  validating constructor `NewUser`, and the in-place updates `UpdateEmail`
  and `UpdateUsername`;
- the `CreateUser` command handler (`internal/usecases/commands/create_user.go`),
  which refuses a taken email, then a taken username, then builds the
  identifier and the user, and only then saves it;
- the `Example` value object (`internal/domain/valueobjects/example.go`).

Modelling choices:

- Go strings are byte sequences (`GoBasics.GoString`, a `seq` of a `byte`
  newtype), because Go's `len` counts bytes; `GoBasics.Ascii` turns an ASCII
  literal into its bytes.
- `time.Now().UTC()` is replaced by a `now: Time` parameter supplied by the
  caller, so the contracts can say which timestamp is written.
- Errors are the datatype `Errors.Error`: one variant per sentinel error, one
  for the error `NewExample` builds, `Backend` for an error reported by a
  repository implementation, and `Wrapped(context, cause)` for
  `fmt.Errorf("...: %w", err)`. `Errors.Is` plays the part of `errors.Is`.
  Message text is not modelled.
- A Go `(*T, error)` pair is `Errors.Result<T>`, so exactly one of "value" and
  "error" is present by construction. This covers the `NewExample` property
  that exactly one of the two is returned.
- `User` is a class, because its updates assign its fields in place.
  `UserRecord` is the value of its fields at one moment.
- The repository behind `UserRepository` is not part of this model.
  `Repositories.UserRepository` stands for an implementation that looks users
  up in a stored sequence of `UserRecord`s. An error-free lookup finds a user
  exactly when one is stored whose email (or username) equals the value byte
  for byte. Its `faults` field fixes which
  operations report an error instead. A ghost log `calls` records every call,
  so the handler can be specified by the calls it makes: their order, and
  whether `Create` was called at all.
- The ID generator is modelled by the string it generates (`generatedID`).
- `Commands.HandleSpec` is `Handle` as a pure function of the store, the
  faults, the command, the generated identifier and the clock. The method
  `CreateUserHandler.Handle` is proved to match it. The properties of the
  command are lemmas about `HandleSpec`. One of them, proved by induction
  over any sequence of requests handled one after the other, is that while the
  lookups work, emails and usernames stay unique in the store, byte for byte. `LookupErrorAdmitsDuplicate` shows why
  the lookups must work: the handler reads a failing lookup as "not found".

## Model

| member | source | states |
|---|---|---|
| `Entities.NewUserID` | internal/domain/entities/user.go:22-27 | fails with `InvalidUserID` exactly when the input is empty; otherwise the identifier's string is the input |
| `Entities.UserID.String` | internal/domain/entities/user.go:30-32 | the identifier's bytes, unchanged: the result is empty exactly when the identifier's bytes are, and `NewUserID` gives back the same identifier from a non-empty result |
| `Entities.NewUserIDRoundTrip` | internal/domain/entities/user.go:22-32 | `NewUserID` followed by `String()` gives back every non-empty string |
| `Entities.ValidateUsername` | internal/domain/entities/user.go:82-87 | accepts exactly the usernames of at least 3 bytes; otherwise returns `InvalidUsername` |
| `Entities.ValidateEmail` | internal/domain/entities/user.go:89-94 | accepts exactly the emails of at least 5 bytes; otherwise returns `InvalidEmail` |
| `Entities.CheckNewUser` | internal/domain/entities/user.go:44-51 | passes exactly when both fields are long enough; a short username gives `InvalidUsername` whatever the email; a valid username with a short email gives `InvalidEmail` |
| `Entities.NewUserTestTable` | internal/domain/entities/user_test.go:10-53 | the five cases of the `TestNewUser` table, `"j@ex"` (4 bytes) refused among them |
| `Entities.User.constructor` | internal/domain/entities/user.go:35-41 | the struct literal: every field holds the value given, with no validation |
| `Entities.NewUser` | internal/domain/entities/user.go:43-60 | fails exactly when `CheckNewUser` does, with its error and no user; on success gives a fresh, valid user holding `id`, `username` and `email` as given, with both timestamps equal to `now` |
| `Entities.User.UpdateEmail` | internal/domain/entities/user.go:62-70 | an email under 5 bytes gives `InvalidEmail` and changes no field; otherwise sets the email and sets `updatedAt` to `now`, keeping `id`, `username` and `createdAt`; validity is preserved |
| `Entities.User.UpdateUsername` | internal/domain/entities/user.go:72-80 | the same as `UpdateEmail`, for the username, with `InvalidUsername` |
| `Entities.UpdateEmailExample` | internal/domain/entities/user_test.go:94-147 | the sequence of `TestUser_UpdateEmail`: the valid update lands and moves `updatedAt` past `createdAt` when the clock has advanced; the empty and the 3-byte email are refused and change nothing |
| `ValueObjects.NewExample` | internal/domain/valueobjects/example.go:16-25 | fails with `EmptyValue` exactly when the value is empty; otherwise holds the given identifier and value |
| `ValueObjects.EmptyUserIDAccepted` | internal/domain/valueobjects/example.go:17-24 | the identifier is not validated: the empty identifier, which `NewUserID` refuses, is accepted |
| `Errors.IsSentinel` | internal/usecases/commands/create_user.go:49-61 | `errors.Is` finds a sentinel through any number of `%w` wrappings, exactly when the sentinel is at the bottom of the chain |
| `Repositories.FindBy` | internal/domain/repositories/user_repository.go:14-15 | finds a stored user with the given email or username exactly when one exists, and the user it finds has that value |
| `Repositories.LookupBy` | internal/domain/repositories/user_repository.go:14-15 | a lookup reports the repository's error if there is one; otherwise it reports a user exactly when one with that value is stored |
| `Repositories.UserRepository.GetByEmail` | internal/domain/repositories/user_repository.go:14 | answers as `LookupBy` on the email and logs one `GetByEmail` call |
| `Repositories.UserRepository.GetByUsername` | internal/domain/repositories/user_repository.go:15 | answers as `LookupBy` on the username and logs one `GetByUsername` call |
| `Repositories.UserRepository.Create` | internal/domain/repositories/user_repository.go:12 | on success the store gains exactly the user's current fields; on error the store is unchanged; logs one `Create` call |
| `Commands.CreateUserHandler.constructor` | internal/usecases/commands/create_user.go:29-35 | the handler uses the repository it is given |
| `Commands.HandleSpec` | internal/usecases/commands/create_user.go:38-64 | the calls are the email lookup, then the username lookup, then `Create`, stopping early on an error; on success the store gains exactly the returned user, built from the generated identifier and the command; on any error the store is unchanged; the only error path that reaches `Create` is a failing `Create` |
| `Commands.CreateUserHandler.Handle` | internal/usecases/commands/create_user.go:38-64 | the calls made, the new store and the result are those of `HandleSpec`; a returned user is fresh and valid |
| `Commands.EmailTakenRejected` | internal/usecases/commands/create_user.go:39-42 | a stored user with the command's email gives `UserAlreadyExists` after one lookup, with no `Create` call and no change |
| `Commands.UsernameTakenRejected` | internal/usecases/commands/create_user.go:44-47 | otherwise, a stored user with the command's username gives `UserAlreadyExists` after the two lookups, with no `Create` call and no change |
| `Commands.EmailLookupErrorIsNotFound` | internal/usecases/commands/create_user.go:39-40 | when no user with the email is stored, a failing email lookup has the same effect as a working one |
| `Commands.UsernameLookupErrorIsNotFound` | internal/usecases/commands/create_user.go:44-45 | when no user with the username is stored, a failing username lookup has the same effect as a working one |
| `Commands.EmailLookupErrorContinues` | internal/usecases/commands/create_user.go:39-47 | a failing email lookup never stops `Handle`, even when the email is stored: the username lookup follows, and `UserAlreadyExists` comes exactly when that lookup works and finds the username |
| `Commands.UsernameLookupErrorContinues` | internal/usecases/commands/create_user.go:39-47 | a failing username lookup never stops `Handle`, even when the username is stored: `UserAlreadyExists` then comes exactly from a working email lookup that finds the email, after one call; otherwise both lookups are made |
| `Commands.EmptyIDRejected` | internal/usecases/commands/create_user.go:49-52 | an empty generated identifier gives an error wrapping `InvalidUserID`, with no `Create` call and no change |
| `Commands.InvalidUserRejected` | internal/usecases/commands/create_user.go:54-57 | an invalid username or email gives an error wrapping the validator's error (the username's when both are invalid), with no `Create` call and no change |
| `Commands.SaveFailureReported` | internal/usecases/commands/create_user.go:59-61 | a failing `Create` is returned wrapped, no user is returned and the store is unchanged |
| `Commands.SuccessExactly` | internal/usecases/commands/create_user.go:54-63 | succeeds exactly when both checks pass, the identifier is non-empty, both fields are valid and `Create` succeeds; then `Create` was called once with the returned user and the store gained exactly that user |
| `Commands.HandleKeepsUnique` | internal/usecases/commands/create_user.go:38-63 | with working lookups, one `Handle` keeps emails and usernames unique (byte for byte) in the store |
| `Commands.ReplayOnlyAppends` | internal/usecases/commands/create_user.go:59-63 | a run of `Handle` calls never changes or removes a user already stored |
| `Commands.ReplayKeepsUnique` | internal/usecases/commands/create_user.go:38-63 | any run of `Handle` calls, one after the other, with working lookups keeps emails and usernames unique (byte for byte) |
| `Commands.LookupErrorAdmitsDuplicate` | internal/usecases/commands/create_user.go:39-47 | with a failing email lookup, a second user with a stored email is saved |

## Left out

- `context.Context` parameters: they carry cancellation and deadlines, which do not affect the logic here.
- Error message strings: errors are compared by variant. `NewExample`'s error is one variant, `EmptyValue`. In Go, `errors.New` makes a new value on every call, so there is no sentinel to compare against.
- Wall-clock time: `time.Now().UTC()` is the `now` parameter. The model says nothing about the clock moving forward. `UpdateEmailExample` assumes it did, in place of the test's `time.Sleep`.
- `UserRepository.GetByID`, `Update`, `Delete`, `List` and `Count`: the command does not use them, and no implementation of them is part of this model.
- `Repositories.LookupBy`: assumes that a lookup matches the stored email or username exactly, byte for byte. An implementation that matches differently, such as a case-insensitive email comparison, is not covered. With one, `Handle` would refuse `a@x.com` when `A@x.com` is stored, and the model accepts it. The uniqueness that `Commands.ReplayKeepsUnique` proves is byte-exact for the same reason.
- `Repositories.UserRepository.Create`: the model assumes that a failing `Create` stores nothing. No implementation is shown that says so.
- `Repositories.UserRepository.Create`: the model assumes that `Create` leaves the user it is given unchanged; its frame does not include that user. An implementation that fills in fields during `Create`, such as a database-assigned timestamp or ID, is not covered. The promise that `Commands.CreateUserHandler.Handle` returns exactly the user built from the command, the generated ID and `now` rests on this assumption.
- `Commands.ReplayKeepsUnique`: `Handle` calls run one after the other. Interleaved `Handle` calls are not modelled. The two lookups and the `Create` are separate repository calls with no lock or transaction, so two concurrent calls with the same email could both pass the checks and both be saved.
- `Repositories.UserRepository.GetByEmail`: a found user is a snapshot (`UserRecord`) and not a pointer. On an error the model returns no user; an implementation that returns both a user and an error is not modelled, though `Handle` would treat it as "not found" too.
- `Commands.CreateUserHandler.Handle`: the repository stores the user's field values, not the `*User` pointer. So aliasing between the returned user and a stored one is not modelled.
- The ID generator's `Generate` is modelled by its result. `Handle` calls it only after both uniqueness checks pass, and that call is not in the call log. `Handle` does not check that a generated identifier is new, and the model proves nothing about identifier uniqueness.
- `cmd/api/main.go` (flags, signals, the server goroutine, shutdown timeouts) and `pkg/config/config.go` (an empty constructor): I/O and concurrency, with no behaviour to state.
- The template-sync tooling, setup scripts and CI are not part of this model.
