/**
 * The User aggregate: its identifier, the two length validators, the
 * validating constructor and the two in-place updates. The clock is a
 * parameter (`now`), so the timestamp behaviour is part of the contracts.
 */
module Entities {
  import opened GoBasics
  import opened Errors

  /** Shortest username `validateUsername` accepts, in bytes. */
  const MinUsernameLength: nat := 3
  /** Shortest email `validateEmail` accepts, in bytes. */
  const MinEmailLength: nat := 5

  /** A user identifier. Any string, the empty one included, is a `UserID`; only `NewUserID` checks. */
  datatype UserID = UserID(value: GoString) {
    /**
     * The identifier as a string: the bytes it was built from, so that
     * `NewUserID` gives the identifier back from any non-empty one.
     */
    function String(): (s: GoString)
      ensures s == [] <==> value == []
      ensures s != [] ==> NewUserID(s) == Ok(this)
    {
      value
    }
  }

  /** Builds an identifier, refusing the empty string. */
  function NewUserID(id: GoString): (r: Result<UserID>)
    ensures r.Err? <==> id == []
    ensures r.Err? ==> r.error == InvalidUserID
    ensures r.Ok? ==> r.value.value == id
  {
    if id == [] then Err(InvalidUserID) else Ok(UserID(id))
  }

  /** `NewUserID` followed by `String()` gives back every non-empty string. */
  lemma NewUserIDRoundTrip(s: GoString)
    requires s != []
    ensures NewUserID(s).Ok? && NewUserID(s).value.String() == s
  {
  }

  /** `nil` when the username is long enough, `ErrInvalidUsername` otherwise. */
  function ValidateUsername(username: GoString): (e: Option<Error>)
    ensures e.None? <==> |username| >= MinUsernameLength
    ensures e.Some? ==> e.value == InvalidUsername
  {
    if username == [] || |username| < MinUsernameLength then Some(InvalidUsername) else None
  }

  /** `nil` when the email is long enough, `ErrInvalidEmail` otherwise. */
  function ValidateEmail(email: GoString): (e: Option<Error>)
    ensures e.None? <==> |email| >= MinEmailLength
    ensures e.Some? ==> e.value == InvalidEmail
  {
    if email == [] || |email| < MinEmailLength then Some(InvalidEmail) else None
  }

  /**
   * The checks `NewUser` makes before it builds anything, in its order:
   * the username first, then the email.
   */
  function CheckNewUser(username: GoString, email: GoString): (e: Option<Error>)
    ensures e.None? <==> |username| >= MinUsernameLength && |email| >= MinEmailLength
    ensures |username| < MinUsernameLength ==> e == Some(InvalidUsername)
    ensures |username| >= MinUsernameLength && |email| < MinEmailLength ==> e == Some(InvalidEmail)
  {
    var usernameErr := ValidateUsername(username);
    if usernameErr.Some? then usernameErr else ValidateEmail(email)
  }

  /** The cases of the table in user_test.go's `TestNewUser`. */
  lemma NewUserTestTable()
    ensures CheckNewUser(Ascii("johndoe"), Ascii("john@example.com")) == None
    ensures CheckNewUser(Ascii(""), Ascii("john@example.com")) == Some(InvalidUsername)
    ensures CheckNewUser(Ascii("jo"), Ascii("john@example.com")) == Some(InvalidUsername)
    ensures CheckNewUser(Ascii("johndoe"), Ascii("")) == Some(InvalidEmail)
    ensures CheckNewUser(Ascii("johndoe"), Ascii("j@ex")) == Some(InvalidEmail)
  {
  }

  /** The value of a `User`'s fields at one moment; what a repository stores. */
  datatype UserRecord = UserRecord(
    id: UserID,
    username: GoString,
    email: GoString,
    createdAt: Time,
    updatedAt: Time)

  /** A user whose username and email pass the validators. */
  predicate ValidRecord(r: UserRecord)
  {
    ValidateUsername(r.username).None? && ValidateEmail(r.email).None?
  }

  /** A user in the system; its updates change the fields in place. */
  class User {
    var id: UserID
    var username: GoString
    var email: GoString
    var createdAt: Time
    var updatedAt: Time

    /** The current field values. */
    function Record(): (r: UserRecord)
      reads this
    {
      UserRecord(id, username, email, createdAt, updatedAt)
    }

    /** The invariant `NewUser` establishes and the updates keep: both fields are valid. */
    predicate Valid()
      reads this
    {
      ValidRecord(Record())
    }

    /** The struct literal `&User{...}`: no validation. */
    constructor (id: UserID, username: GoString, email: GoString, createdAt: Time, updatedAt: Time)
      ensures Record() == UserRecord(id, username, email, createdAt, updatedAt)
    {
      this.id := id;
      this.username := username;
      this.email := email;
      this.createdAt := createdAt;
      this.updatedAt := updatedAt;
    }

    /**
     * Replaces the email and stamps `updatedAt` with `now`, but only when the
     * new email is valid; on an invalid email nothing changes.
     */
    method UpdateEmail(newEmail: GoString, now: Time) returns (err: Option<Error>)
      modifies this
      ensures err.Some? <==> |newEmail| < MinEmailLength
      ensures err.Some? ==> err == Some(InvalidEmail) && Record() == old(Record())
      ensures err.None? ==> Record() == old(Record()).(email := newEmail, updatedAt := now)
      ensures old(Valid()) ==> Valid()
    {
      err := ValidateEmail(newEmail);
      if err.Some? {
        return;
      }
      email := newEmail;
      updatedAt := now;
    }

    /**
     * Replaces the username and stamps `updatedAt` with `now`, but only when
     * the new username is valid; on an invalid username nothing changes.
     */
    method UpdateUsername(newUsername: GoString, now: Time) returns (err: Option<Error>)
      modifies this
      ensures err.Some? <==> |newUsername| < MinUsernameLength
      ensures err.Some? ==> err == Some(InvalidUsername) && Record() == old(Record())
      ensures err.None? ==> Record() == old(Record()).(username := newUsername, updatedAt := now)
      ensures old(Valid()) ==> Valid()
    {
      err := ValidateUsername(newUsername);
      if err.Some? {
        return;
      }
      username := newUsername;
      updatedAt := now;
    }
  }

  /**
   * Validates the username and then the email, and on success builds a new
   * user whose two timestamps are both `now`. The identifier is taken as it is.
   */
  method NewUser(id: UserID, username: GoString, email: GoString, now: Time) returns (r: Result<User>)
    ensures r.Err? <==> CheckNewUser(username, email).Some?
    ensures r.Err? ==> Some(r.error) == CheckNewUser(username, email)
    ensures r.Ok? ==> fresh(r.value) && r.value.Valid()
    ensures r.Ok? ==> r.value.Record() == UserRecord(id, username, email, now, now)
  {
    var err := ValidateUsername(username);
    if err.Some? {
      return Err(err.value);
    }
    err := ValidateEmail(email);
    if err.Some? {
      return Err(err.value);
    }
    var user := new User(id, username, email, now, now);
    return Ok(user);
  }

  /**
   * The steps of user_test.go's `TestUser_UpdateEmail`, derived from the
   * contracts alone: a valid update replaces the email and moves `updatedAt`
   * past the creation time when the clock has advanced; the two invalid
   * emails are refused and change nothing.
   */
  method UpdateEmailExample(created: Time, later: Time) returns (final: UserRecord)
    requires created < later
    ensures final.email == Ascii("newemail@example.com") && final.createdAt < final.updatedAt
  {
    var r := NewUser(UserID(Ascii("user123")), Ascii("johndoe"), Ascii("john@example.com"), created);
    assert r.Ok?;
    var user := r.value;
    var err := user.UpdateEmail(Ascii("newemail@example.com"), later);
    assert err.None? && user.email == Ascii("newemail@example.com") && user.updatedAt > created;
    var before := user.Record();
    err := user.UpdateEmail(Ascii(""), later);
    assert err == Some(InvalidEmail) && user.Record() == before;
    err := user.UpdateEmail(Ascii("a@b"), later);
    assert err == Some(InvalidEmail) && user.Record() == before;
    final := user.Record();
  }
}
