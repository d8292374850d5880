/** The example value object: a user identifier paired with a non-empty value. */
module ValueObjects {
  import opened GoBasics
  import opened Errors
  import opened Entities

  datatype Example = Example(userID: UserID, value: GoString)

  /**
   * Refuses an empty value; otherwise pairs the identifier, which is not
   * validated, with the value. The `Result` type gives "exactly one of an
   * Example and an error".
   */
  function NewExample(userID: UserID, value: GoString): (r: Result<Example>)
    ensures r.Err? <==> value == []
    ensures r.Err? ==> r.error == EmptyValue
    ensures r.Ok? ==> r.value.userID == userID && r.value.value == value
  {
    if value == [] then Err(EmptyValue) else Ok(Example(userID, value))
  }

  /** The identifier is taken as it is: even the empty one, which `NewUserID` refuses, is accepted. */
  lemma EmptyUserIDAccepted(value: GoString)
    requires value != []
    ensures NewUserID(UserID([]).String()).Err?
    ensures NewExample(UserID([]), value) == Ok(Example(UserID([]), value))
  {
  }
}
