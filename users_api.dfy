/** The handlers of `app/api/v1/users.py` that hold logic of their own:
    the current-user summary, PIN verification and the password-guarded
    forced PIN removal. The other handlers only call `UserService`. */
module UsersApi {

  import opened Outcomes
  import opened Security
  import opened Store
  import opened UserService

  const GooglePasswordUnavailable :=
    "This account uses Google authentication. Password verification is not available."
  const InvalidPassword := "Invalid password"
  const PinRemoved := "PIN removed successfully"
  const PinValid := "PIN is valid"
  const PinInvalid := "PIN is invalid"

  /** The `UserOut` response body: no digest leaves the service. */
  datatype UserOut = UserOut(id: nat, username: string, hasPin: bool)

  /** `get_current_user_info`: `has_pin` is true exactly when a non-empty PIN
      digest is stored. */
  function CurrentUserInfo(user: User): (out: UserOut)
    ensures out.id == user.id && out.username == user.username
    ensures out.hasPin <==> user.hashedPin.Some? && user.hashedPin.value != ""
  {
    UserOut(user.id, user.username, Present(user.hashedPin))
  }

  /** The `PinVerifyResponse` body. */
  datatype PinVerifyResponse = PinVerifyResponse(valid: bool, message: string)

  /** The `verify_pin` handler: "No PIN set" with `valid = false` when there is
      no PIN; otherwise `valid` is the outcome of `verify_user_pin`. */
  function VerifyPinHandler(user: User, pin: string): (resp: PinVerifyResponse)
    ensures !Present(user.hashedPin) ==> resp == PinVerifyResponse(false, NoPinSet)
    ensures Present(user.hashedPin) ==>
              resp.valid == VerifyUserPin(user, pin)
              && resp.message == (if resp.valid then PinValid else PinInvalid)
    ensures resp.valid <==> user.hashedPin == Some(Hash(pin))
  {
    if !Present(user.hashedPin) then PinVerifyResponse(false, NoPinSet)
    else
      var valid := VerifyUserPin(user, pin);
      PinVerifyResponse(valid, if valid then PinValid else PinInvalid)
  }

  /** `force_remove_pin`: refuses a Google account before anything else, then
      a user without a PIN, then a missing or non-verifying password (401);
      otherwise clears the PIN digest and changes nothing else. */
  method ForceRemovePin(db: Database, i: nat, password: string) returns (r: Result<string>)
    requires db.Valid() && i < |db.users|
    modifies db
    ensures db.Valid()
    ensures old(db.NoOrphanTokens()) ==> db.NoOrphanTokens()
    ensures old(db.users[i]).isGoogleUser ==> r == Err(Http(BadRequest, GooglePasswordUnavailable))
    ensures !old(db.users[i]).isGoogleUser && !Present(old(db.users[i]).hashedPin) ==>
              r == Err(Http(BadRequest, NoPinSet))
    ensures !old(db.users[i]).isGoogleUser && Present(old(db.users[i]).hashedPin)
            && old(db.users[i]).hashedPassword != Some(Hash(password)) ==>
              r == Err(Http(Unauthorized, InvalidPassword))
    ensures r.Err? ==> unchanged(db)
    ensures r.Ok? <==> !old(db.users[i]).isGoogleUser && Present(old(db.users[i]).hashedPin)
                       && old(db.users[i]).hashedPassword == Some(Hash(password))
    ensures r.Ok? ==>
              && r.value == PinRemoved
              && db.users == old(db.users)[i := old(db.users[i]).(hashedPin := None)]
              && db.tokens == old(db.tokens) && db.outbox == old(db.outbox)
              && db.nextUserId == old(db.nextUserId) && db.nextTokenId == old(db.nextTokenId)
  {
    var user := db.users[i];
    if user.isGoogleUser {
      return Err(Http(BadRequest, GooglePasswordUnavailable));
    }
    if !Present(user.hashedPin) {
      return Err(Http(BadRequest, NoPinSet));
    }
    if !Present(user.hashedPassword) || !VerifyPassword(password, user.hashedPassword) {
      return Err(Http(Unauthorized, InvalidPassword));
    }
    var updated := user.(hashedPin := None);
    UpdateUserKeepsInvariants(db.users, db.nextUserId, i, updated, db.tokens);
    db.users := db.users[i := updated];
    r := Ok(PinRemoved);
  }
}
