/**
 * An abstract `UserRepository`: the part of its interface that the
 * CreateUser command uses (`GetByEmail`, `GetByUsername`, `Create`). Its
 * implementation is not part of this model; the class below stands for an
 * implementation that stores users, may report errors, and whose error-free
 * lookups find a user exactly when one is stored whose field equals the
 * value byte for byte. Which operations
 * fail is fixed by `faults`, and every call is appended to the ghost log
 * `calls`, so that callers can be specified by the calls they make.
 */
module Repositories {
  import opened GoBasics
  import opened Errors
  import opened Entities

  /** The two fields a user can be looked up by. */
  datatype Field = ByEmail | ByUsername

  function FieldOf(u: UserRecord, f: Field): (v: GoString)
  {
    match f
    case ByEmail => u.email
    case ByUsername => u.username
  }

  /** Some stored user has `value` in field `f`. */
  ghost predicate Holds(users: seq<UserRecord>, f: Field, value: GoString)
  {
    exists i :: 0 <= i < |users| && FieldOf(users[i], f) == value
  }

  /** The first stored user with `value` in field `f`, if there is one. */
  function FindBy(users: seq<UserRecord>, f: Field, value: GoString): (r: Option<UserRecord>)
    ensures r.Some? <==> Holds(users, f, value)
    ensures r.Some? ==> r.value in users && FieldOf(r.value, f) == value
    decreases |users|
  {
    if users == [] then None
    else if FieldOf(users[0], f) == value then Some(users[0])
    else
      var rest := FindBy(users[1..], f, value);
      assert Holds(users, f, value) ==> Holds(users[1..], f, value) by {
        if Holds(users, f, value) {
          var i :| 0 <= i < |users| && FieldOf(users[i], f) == value;
          assert FieldOf(users[1..][i - 1], f) == value;
        }
      }
      assert Holds(users[1..], f, value) ==> Holds(users, f, value) by {
        if Holds(users[1..], f, value) {
          var i :| 0 <= i < |users[1..]| && FieldOf(users[1..][i], f) == value;
          assert FieldOf(users[i + 1], f) == value;
        }
      }
      rest
  }

  /** The Go pair `(*User, error)` a lookup returns. */
  datatype Lookup = Lookup(user: Option<UserRecord>, err: Option<Error>)

  /** What the command reads as "a user is already there": no error and a user. */
  predicate Found(l: Lookup)
  {
    l.err.None? && l.user.Some?
  }

  /** A lookup that reports `fault` when there is one, and otherwise searches the store. */
  function LookupBy(users: seq<UserRecord>, fault: Option<Error>, f: Field, value: GoString): (l: Lookup)
    ensures l.err == fault
    ensures Found(l) <==> fault.None? && Holds(users, f, value)
    ensures l.user.Some? ==> FieldOf(l.user.value, f) == value
  {
    if fault.Some? then Lookup(None, fault) else Lookup(FindBy(users, f, value), None)
  }

  /** Which of the repository's operations report an error instead of doing their work. */
  datatype Faults = Faults(getByEmail: Option<Error>, getByUsername: Option<Error>, create: Option<Error>)

  /** A repository whose lookups answer from the store. */
  predicate Reliable(faults: Faults)
  {
    faults.getByEmail.None? && faults.getByUsername.None?
  }

  /** One call made on the repository. */
  datatype Call =
    | GetByEmailCall(email: GoString)
    | GetByUsernameCall(username: GoString)
    | CreateCall(user: UserRecord)

  class UserRepository {
    /** The stored users, in the order they were created. */
    var users: seq<UserRecord>
    var faults: Faults
    /** Every call made on this repository, oldest first. */
    ghost var calls: seq<Call>

    constructor (users: seq<UserRecord>, faults: Faults)
      ensures this.users == users && this.faults == faults && calls == []
    {
      this.users := users;
      this.faults := faults;
      calls := [];
    }

    /** A stored user with this email, or the repository's lookup error. */
    method GetByEmail(email: GoString) returns (l: Lookup)
      modifies this`calls
      ensures l == LookupBy(users, faults.getByEmail, ByEmail, email)
      ensures calls == old(calls) + [GetByEmailCall(email)]
    {
      l := LookupBy(users, faults.getByEmail, ByEmail, email);
      calls := calls + [GetByEmailCall(email)];
    }

    /** A stored user with this username, or the repository's lookup error. */
    method GetByUsername(username: GoString) returns (l: Lookup)
      modifies this`calls
      ensures l == LookupBy(users, faults.getByUsername, ByUsername, username)
      ensures calls == old(calls) + [GetByUsernameCall(username)]
    {
      l := LookupBy(users, faults.getByUsername, ByUsername, username);
      calls := calls + [GetByUsernameCall(username)];
    }

    /** Stores the user's current fields, or reports the repository's error and stores nothing. */
    method Create(user: User) returns (err: Option<Error>)
      modifies this`users, this`calls
      ensures err == faults.create
      ensures users == if err.None? then old(users) + [user.Record()] else old(users)
      ensures calls == old(calls) + [CreateCall(user.Record())]
    {
      err := faults.create;
      if err.None? {
        users := users + [user.Record()];
      }
      calls := calls + [CreateCall(user.Record())];
    }
  }
}
