/**
 * The CreateUser command: reject a taken email, then a taken username,
 * then build the identifier and the user, and only then save it. The ID
 * generator is modelled by the string it generates, taken as an input.
 */
module Commands {
  import opened GoBasics
  import opened Errors
  import opened Entities
  import opened Repositories

  datatype CreateUserCommand = CreateUserCommand(username: GoString, email: GoString)

  /** The two uniqueness lookups, in the order `Handle` makes them. */
  function Probes(cmd: CreateUserCommand): (calls: seq<Call>)
  {
    [GetByEmailCall(cmd.email), GetByUsernameCall(cmd.username)]
  }

  /** No call in `calls` is a `Create`. */
  predicate NoCreate(calls: seq<Call>)
  {
    forall i :: 0 <= i < |calls| ==> !calls[i].CreateCall?
  }

  /** What one `Handle` call produces: its result, the new store and the calls it made. */
  datatype Outcome = Outcome(result: Result<UserRecord>, store: seq<UserRecord>, calls: seq<Call>)

  /** The user a successful `Handle` saves. */
  function NewRecord(cmd: CreateUserCommand, generatedID: GoString, now: Time): (u: UserRecord)
  {
    UserRecord(UserID(generatedID), cmd.username, cmd.email, now, now)
  }

  /**
   * `Handle` as a function of the repository's store and faults, the command,
   * the generated identifier and the clock.
   */
  function HandleSpec(store: seq<UserRecord>, faults: Faults, cmd: CreateUserCommand,
                      generatedID: GoString, now: Time): (o: Outcome)
    // the lookups come first, the email before the username, and Create, if at all, last
    ensures || o.calls == Probes(cmd)[..1]
            || o.calls == Probes(cmd)
            || o.calls == Probes(cmd) + [CreateCall(NewRecord(cmd, generatedID, now))]
    // the store grows by exactly the returned user on success and is untouched otherwise
    ensures o.result.Ok? ==> o.result.value == NewRecord(cmd, generatedID, now)
    ensures o.result.Ok? ==> o.store == store + [o.result.value] && |o.calls| == 3
    ensures o.result.Err? ==> o.store == store
    // the only error path that reaches Create is a failing Create
    ensures o.result.Err? && |o.calls| == 3 ==> o.result.error.Wrapped? && o.result.error.context == SaveUser
  {
    var byEmail := LookupBy(store, faults.getByEmail, ByEmail, cmd.email);
    if Found(byEmail) then
      Outcome(Err(UserAlreadyExists), store, Probes(cmd)[..1])
    else
      var byUsername := LookupBy(store, faults.getByUsername, ByUsername, cmd.username);
      if Found(byUsername) then
        Outcome(Err(UserAlreadyExists), store, Probes(cmd))
      else match NewUserID(generatedID)
        case Err(e) => Outcome(Err(Wrapped(GenerateUserID, e)), store, Probes(cmd))
        case Ok(id) =>
          match CheckNewUser(cmd.username, cmd.email)
          case Some(e) => Outcome(Err(Wrapped(CreateUser, e)), store, Probes(cmd))
          case None =>
            var u := NewRecord(cmd, generatedID, now);
            match faults.create
            case Some(e) => Outcome(Err(Wrapped(SaveUser, e)), store, Probes(cmd) + [CreateCall(u)])
            case None => Outcome(Ok(u), store + [u], Probes(cmd) + [CreateCall(u)])
  }

  /**
   * Both uniqueness checks let the command through: each lookup either
   * failed or found nothing.
   */
  ghost predicate Unclaimed(store: seq<UserRecord>, faults: Faults, cmd: CreateUserCommand)
  {
    && (faults.getByEmail.Some? || !Holds(store, ByEmail, cmd.email))
    && (faults.getByUsername.Some? || !Holds(store, ByUsername, cmd.username))
  }

  /** A taken email is refused after the first lookup, before anything is built or saved. */
  lemma EmailTakenRejected(store: seq<UserRecord>, faults: Faults, cmd: CreateUserCommand,
                           generatedID: GoString, now: Time)
    requires faults.getByEmail.None? && Holds(store, ByEmail, cmd.email)
    ensures var o := HandleSpec(store, faults, cmd, generatedID, now);
      o.result == Err(UserAlreadyExists) && o.store == store && o.calls == [GetByEmailCall(cmd.email)]
  {
  }

  /** A free email and a taken username: refused after the second lookup, nothing saved. */
  lemma UsernameTakenRejected(store: seq<UserRecord>, faults: Faults, cmd: CreateUserCommand,
                              generatedID: GoString, now: Time)
    requires faults.getByEmail.Some? || !Holds(store, ByEmail, cmd.email)
    requires faults.getByUsername.None? && Holds(store, ByUsername, cmd.username)
    ensures var o := HandleSpec(store, faults, cmd, generatedID, now);
      o.result == Err(UserAlreadyExists) && o.store == store && o.calls == Probes(cmd)
  {
  }

  /** A failing email lookup has exactly the effect of a working lookup that finds nobody. */
  lemma EmailLookupErrorIsNotFound(store: seq<UserRecord>, faults: Faults, cmd: CreateUserCommand,
                                   generatedID: GoString, now: Time, e: Error)
    requires !Holds(store, ByEmail, cmd.email)
    ensures HandleSpec(store, faults.(getByEmail := Some(e)), cmd, generatedID, now)
         == HandleSpec(store, faults.(getByEmail := None), cmd, generatedID, now)
  {
  }

  /** A failing username lookup has exactly the effect of a working lookup that finds nobody. */
  lemma UsernameLookupErrorIsNotFound(store: seq<UserRecord>, faults: Faults, cmd: CreateUserCommand,
                                      generatedID: GoString, now: Time, e: Error)
    requires !Holds(store, ByUsername, cmd.username)
    ensures HandleSpec(store, faults.(getByUsername := Some(e)), cmd, generatedID, now)
         == HandleSpec(store, faults.(getByUsername := None), cmd, generatedID, now)
  {
  }

  /**
   * A failing email lookup never stops `Handle`, even when a user with that
   * email is stored: it goes on to the username lookup, and only that lookup
   * can then give `UserAlreadyExists`.
   */
  lemma EmailLookupErrorContinues(store: seq<UserRecord>, faults: Faults, cmd: CreateUserCommand,
                                  generatedID: GoString, now: Time, e: Error)
    ensures var o := HandleSpec(store, faults.(getByEmail := Some(e)), cmd, generatedID, now);
      && |o.calls| >= 2 && o.calls[..2] == Probes(cmd)
      && (o.result == Err(UserAlreadyExists) <==>
            faults.getByUsername.None? && Holds(store, ByUsername, cmd.username))
  {
  }

  /**
   * A failing username lookup never stops `Handle`, even when a user with
   * that username is stored: `UserAlreadyExists` can then only come from the
   * email lookup, before the username lookup is made.
   */
  lemma UsernameLookupErrorContinues(store: seq<UserRecord>, faults: Faults, cmd: CreateUserCommand,
                                     generatedID: GoString, now: Time, e: Error)
    ensures var o := HandleSpec(store, faults.(getByUsername := Some(e)), cmd, generatedID, now);
      && (o.result == Err(UserAlreadyExists) <==>
            faults.getByEmail.None? && Holds(store, ByEmail, cmd.email))
      && (o.result == Err(UserAlreadyExists) ==> o.calls == Probes(cmd)[..1])
      && (o.result != Err(UserAlreadyExists) ==> |o.calls| >= 2 && o.calls[..2] == Probes(cmd))
  {
  }

  /** An empty generated identifier: an error wrapping `ErrInvalidUserID`, no Create call. */
  lemma EmptyIDRejected(store: seq<UserRecord>, faults: Faults, cmd: CreateUserCommand, now: Time)
    requires Unclaimed(store, faults, cmd)
    ensures var o := HandleSpec(store, faults, cmd, [], now);
      && o.result == Err(Wrapped(GenerateUserID, InvalidUserID))
      && Is(o.result.error, InvalidUserID)
      && o.store == store && o.calls == Probes(cmd) && NoCreate(o.calls)
  {
  }

  /**
   * An invalid username or email, found after the uniqueness checks: an
   * error wrapping the validator's error (the username's when both are
   * invalid), no Create call.
   */
  lemma InvalidUserRejected(store: seq<UserRecord>, faults: Faults, cmd: CreateUserCommand,
                            generatedID: GoString, now: Time)
    requires Unclaimed(store, faults, cmd) && generatedID != []
    requires |cmd.username| < MinUsernameLength || |cmd.email| < MinEmailLength
    ensures var o := HandleSpec(store, faults, cmd, generatedID, now);
      && o.result.Err? && o.result.error.Wrapped? && o.result.error.context == CreateUser
      && (|cmd.username| < MinUsernameLength ==> o.result.error.cause == InvalidUsername)
      && (|cmd.username| >= MinUsernameLength ==> o.result.error.cause == InvalidEmail)
      && o.store == store && o.calls == Probes(cmd) && NoCreate(o.calls)
  {
  }

  /** A failing Create is returned wrapped; no user is returned and nothing is stored. */
  lemma SaveFailureReported(store: seq<UserRecord>, faults: Faults, cmd: CreateUserCommand,
                            generatedID: GoString, now: Time)
    requires Unclaimed(store, faults, cmd) && generatedID != []
    requires |cmd.username| >= MinUsernameLength && |cmd.email| >= MinEmailLength
    requires faults.create.Some?
    ensures var o := HandleSpec(store, faults, cmd, generatedID, now);
      && o.result == Err(Wrapped(SaveUser, faults.create.value))
      && o.store == store
      && o.calls == Probes(cmd) + [CreateCall(NewRecord(cmd, generatedID, now))]
  {
  }

  /**
   * `Handle` succeeds exactly when both checks let it through, the identifier
   * is non-empty, both fields are valid and Create succeeds; then Create was
   * called once, with the returned user, and the store gained exactly that user.
   */
  lemma SuccessExactly(store: seq<UserRecord>, faults: Faults, cmd: CreateUserCommand,
                       generatedID: GoString, now: Time)
    ensures var o := HandleSpec(store, faults, cmd, generatedID, now);
      o.result.Ok? <==>
        && Unclaimed(store, faults, cmd) && generatedID != []
        && |cmd.username| >= MinUsernameLength && |cmd.email| >= MinEmailLength
        && faults.create.None?
    ensures var o := HandleSpec(store, faults, cmd, generatedID, now);
      o.result.Ok? ==>
        && o.result.value == UserRecord(UserID(generatedID), cmd.username, cmd.email, now, now)
        && ValidRecord(o.result.value)
        && o.store == store + [o.result.value]
        && o.calls == Probes(cmd) + [CreateCall(o.result.value)]
  {
  }

  /** No two stored users share an email or a username. */
  ghost predicate Unique(users: seq<UserRecord>)
  {
    forall i, j :: 0 <= i < j < |users| ==>
      users[i].email != users[j].email && users[i].username != users[j].username
  }

  /** With lookups that work, `Handle` never stores a second user with a taken email or username. */
  lemma HandleKeepsUnique(store: seq<UserRecord>, faults: Faults, cmd: CreateUserCommand,
                          generatedID: GoString, now: Time)
    requires Unique(store) && Reliable(faults)
    ensures Unique(HandleSpec(store, faults, cmd, generatedID, now).store)
  {
  }

  /** One `Handle` call: the repository's faults at the time, the command, the generated identifier and the clock. */
  datatype Request = Request(faults: Faults, cmd: CreateUserCommand, generatedID: GoString, now: Time)

  /** The store after handling `requests` one after the other. */
  function Replay(store: seq<UserRecord>, requests: seq<Request>): (after: seq<UserRecord>)
    decreases |requests|
  {
    if requests == [] then store
    else
      var r := requests[0];
      Replay(HandleSpec(store, r.faults, r.cmd, r.generatedID, r.now).store, requests[1..])
  }

  /** Users once stored are never changed or removed by later `Handle` calls. */
  lemma {:induction false} ReplayOnlyAppends(store: seq<UserRecord>, requests: seq<Request>)
    ensures |store| <= |Replay(store, requests)|
    ensures Replay(store, requests)[..|store|] == store
    decreases |requests|
  {
    if requests != [] {
      var r := requests[0];
      var next := HandleSpec(store, r.faults, r.cmd, r.generatedID, r.now).store;
      ReplayOnlyAppends(next, requests[1..]);
      assert next[..|store|] == store;
    }
  }

  /** Any run of `Handle` calls against a repository whose lookups work keeps emails and usernames unique. */
  lemma {:induction false} ReplayKeepsUnique(store: seq<UserRecord>, requests: seq<Request>)
    requires Unique(store)
    requires forall k :: 0 <= k < |requests| ==> Reliable(requests[k].faults)
    ensures Unique(Replay(store, requests))
    decreases |requests|
  {
    if requests != [] {
      var r := requests[0];
      HandleKeepsUnique(store, r.faults, r.cmd, r.generatedID, r.now);
      ReplayKeepsUnique(HandleSpec(store, r.faults, r.cmd, r.generatedID, r.now).store, requests[1..]);
    }
  }

  /**
   * Because a failing lookup counts as "not found", a repository whose email
   * lookup fails lets a second user with the same email in.
   */
  lemma LookupErrorAdmitsDuplicate()
    ensures var stored := UserRecord(UserID(Ascii("u1")), Ascii("alice"), Ascii("a@example.com"), 0, 0);
      var faults := Faults(Some(Backend(1)), None, None);
      var o := HandleSpec([stored], faults, CreateUserCommand(Ascii("bob"), Ascii("a@example.com")), Ascii("u2"), 1);
      o.result.Ok? && !Unique(o.store)
  {
    var stored := UserRecord(UserID(Ascii("u1")), Ascii("alice"), Ascii("a@example.com"), 0, 0);
    var cmd := CreateUserCommand(Ascii("bob"), Ascii("a@example.com"));
    assert stored.username != cmd.username by {
      assert |stored.username| != |cmd.username|;
    }
    assert !Holds([stored], ByUsername, cmd.username);
    assert |cmd.username| == 3 && |cmd.email| == 13 && |Ascii("u2")| == 2;
    var o := HandleSpec([stored], Faults(Some(Backend(1)), None, None), cmd, Ascii("u2"), 1);
    assert o.result.Ok?;
    assert o.store[0].email == o.store[1].email;
  }

  class CreateUserHandler {
    const userRepo: UserRepository

    constructor (userRepo: UserRepository)
      ensures this.userRepo == userRepo
    {
      this.userRepo := userRepo;
    }

    /**
     * Creates a user for `cmd` with the identifier `generatedID` (what the ID
     * generator returns) and the clock reading `now`.
     */
    method Handle(cmd: CreateUserCommand, generatedID: GoString, now: Time) returns (r: Result<User>)
      modifies userRepo`users, userRepo`calls
      ensures var o := HandleSpec(old(userRepo.users), userRepo.faults, cmd, generatedID, now);
        && userRepo.users == o.store
        && userRepo.calls == old(userRepo.calls) + o.calls
        && r.Ok? == o.result.Ok?
        && (r.Ok? ==> fresh(r.value) && r.value.Valid() && r.value.Record() == o.result.value)
        && (r.Err? ==> r.error == o.result.error)
    {
      var existingUser := userRepo.GetByEmail(cmd.email);
      if existingUser.err.None? && existingUser.user.Some? {
        return Err(UserAlreadyExists);
      }

      existingUser := userRepo.GetByUsername(cmd.username);
      if existingUser.err.None? && existingUser.user.Some? {
        return Err(UserAlreadyExists);
      }

      var userID := NewUserID(generatedID);
      if userID.Err? {
        return Err(Wrapped(GenerateUserID, userID.error));
      }

      var user := NewUser(userID.value, cmd.username, cmd.email, now);
      if user.Err? {
        return Err(Wrapped(CreateUser, user.error));
      }

      var err := userRepo.Create(user.value);
      if err.Some? {
        return Err(Wrapped(SaveUser, err.value));
      }

      return Ok(user.value);
    }
  }
}
