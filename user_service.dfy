/** `UserService` of `app/services/user_service.py`: lookups, registration,
    password and PIN management, and account deletion. Each static method of
    the source becomes a module-level member taking the store `db`. */
module UserService {

  import opened Outcomes
  import opened Security
  import opened Store

  const UsernameTaken := "Username already registered"
  const EmailTaken := "Email already registered"
  const GooglePasswordImmutable := "This account uses Google authentication. Password cannot be changed."
  const CurrentPasswordIncorrect := "Current password is incorrect"
  const NoPinSet := "No PIN set for this user"
  const CurrentPinIncorrect := "Current PIN is incorrect"
  const InvalidPin := "Invalid PIN"

  // ---------------------------------------------------------------------
  // Lookups
  // ---------------------------------------------------------------------

  /** `get_user_by_username`: the first row with that username. */
  function GetUserByUsername(users: seq<User>, username: string): (r: Option<nat>)
    ensures r.Some? ==> r.value < |users| && users[r.value].username == username
    ensures r.Some? ==> forall j :: 0 <= j < r.value ==> users[j].username != username
    ensures r.None? <==> forall j :: 0 <= j < |users| ==> users[j].username != username
  {
    FirstMatch(users, (u: User) => u.username == username)
  }

  /** `get_user_by_email`: the first row with that email. */
  function GetUserByEmail(users: seq<User>, email: string): (r: Option<nat>)
    ensures r.Some? ==> r.value < |users| && users[r.value].email == email
    ensures r.Some? ==> forall j :: 0 <= j < r.value ==> users[j].email != email
    ensures r.None? <==> forall j :: 0 <= j < |users| ==> users[j].email != email
  {
    FirstMatch(users, (u: User) => u.email == email)
  }

  /** `get_user_by_username_or_email`: a row whose username or email is the
      identifier, none only when no row has either; a username match is
      preferred over an email match. */
  function GetUserByUsernameOrEmail(users: seq<User>, identifier: string): (r: Option<nat>)
    ensures r.Some? ==> r.value < |users|
    ensures r.Some? ==> users[r.value].username == identifier || users[r.value].email == identifier
    ensures r.None? <==> forall j :: 0 <= j < |users| ==>
                           users[j].username != identifier && users[j].email != identifier
    ensures (exists j :: 0 <= j < |users| && users[j].username == identifier) ==>
              r.Some? && users[r.value].username == identifier
  {
    match GetUserByUsername(users, identifier)
    case Some(i) => Some(i)
    case None => GetUserByEmail(users, identifier)
  }

  /** `authenticate_user`: the looked-up row, exactly when it has a password
      digest made from `password`. An unknown identifier, a row without a
      password (a Google account) and a wrong password all give None. */
  function AuthenticateUser(users: seq<User>, identifier: string, password: string): (r: Option<nat>)
    ensures r.Some? ==> r == GetUserByUsernameOrEmail(users, identifier)
    ensures r.Some? <==>
              var k := GetUserByUsernameOrEmail(users, identifier);
              k.Some? && users[k.value].hashedPassword == Some(Hash(password))
  {
    match GetUserByUsernameOrEmail(users, identifier)
    case None => None
    case Some(i) =>
      if !Present(users[i].hashedPassword) then None
      else if !VerifyPassword(password, users[i].hashedPassword) then None
      else Some(i)
  }

  /** `verify_user_pin`: false without a PIN digest, otherwise whether the
      digest was made from `pin`. */
  function VerifyUserPin(user: User, pin: string): (ok: bool)
    ensures !Present(user.hashedPin) ==> !ok
    ensures ok <==> user.hashedPin == Some(Hash(pin))
  {
    if !Present(user.hashedPin) then false
    else VerifyPin(pin, user.hashedPin)
  }

  // ---------------------------------------------------------------------
  // Account creation
  // ---------------------------------------------------------------------

  /** `create_user`: refuses a taken username, then a taken email, then a weak
      password, adding nothing; otherwise appends a row holding the password's
      digest and no PIN, and queues a welcome mail. */
  method CreateUser(db: Database, username: string, password: string, email: string)
    returns (r: Result<User>)
    requires db.Valid()
    modifies db
    ensures db.Valid()
    ensures old(db.NoOrphanTokens()) ==> db.NoOrphanTokens()
    ensures GetUserByUsername(old(db.users), username).Some? ==>
              r == Err(Http(BadRequest, UsernameTaken))
    ensures GetUserByUsername(old(db.users), username).None?
            && GetUserByEmail(old(db.users), email).Some? ==>
              r == Err(Http(BadRequest, EmailTaken))
    ensures GetUserByUsername(old(db.users), username).None?
            && GetUserByEmail(old(db.users), email).None?
            && !ValidatePassword(password).ok ==>
              r == Err(Http(BadRequest, ValidatePassword(password).message))
    ensures r.Err? ==> unchanged(db)
    ensures r.Ok? <==> GetUserByUsername(old(db.users), username).None?
                       && GetUserByEmail(old(db.users), email).None?
                       && ValidatePassword(password).ok
    ensures r.Ok? ==>
              && r.value == User(old(db.nextUserId), username, email, Some(Hash(password)), None, None, false)
              && db.users == old(db.users) + [r.value]
              && db.tokens == old(db.tokens)
              && db.outbox == old(db.outbox) + [WelcomeMail(email, username)]
              && db.nextUserId == old(db.nextUserId) + 1
              && db.nextTokenId == old(db.nextTokenId)
  {
    if GetUserByUsername(db.users, username).Some? {
      return Err(Http(BadRequest, UsernameTaken));
    }
    if GetUserByEmail(db.users, email).Some? {
      return Err(Http(BadRequest, EmailTaken));
    }
    var verdict := ValidatePassword(password);
    if !verdict.ok {
      return Err(Http(BadRequest, verdict.message));
    }
    var user := User(db.nextUserId, username, email, Some(Hash(password)), None, None, false);
    AppendUserKeepsInvariants(db.users, db.nextUserId, user, db.tokens);
    db.users := db.users + [user];
    db.nextUserId := db.nextUserId + 1;
    db.outbox := db.outbox + [WelcomeMail(email, username)];
    r := Ok(user);
  }

  /** `create_google_user`: returns the existing row with that email, changing
      nothing; otherwise appends a Google account whose username is the email
      and which has no password digest. The storage refuses the new row when
      its username or Google id is already taken. */
  method CreateGoogleUser(db: Database, email: string, googleId: Option<string>)
    returns (r: Result<User>)
    requires db.Valid()
    modifies db
    ensures db.Valid()
    ensures old(db.NoOrphanTokens()) ==> db.NoOrphanTokens()
    ensures GetUserByEmail(old(db.users), email).Some? ==>
              r == Ok(old(db.users)[GetUserByEmail(old(db.users), email).value]) && unchanged(db)
    ensures GetUserByEmail(old(db.users), email).None?
            && GetUserByUsername(old(db.users), email).Some? ==>
              r == Err(Integrity("username")) && unchanged(db)
    ensures GetUserByEmail(old(db.users), email).None?
            && GetUserByUsername(old(db.users), email).None?
            && googleId.Some? && (exists j :: 0 <= j < |old(db.users)| && old(db.users)[j].googleId == googleId) ==>
              r == Err(Integrity("google_id")) && unchanged(db)
    ensures GetUserByEmail(old(db.users), email).None? && r.Ok? ==>
              && r.value == User(old(db.nextUserId), email, email, None, None, googleId, true)
              && db.users == old(db.users) + [r.value]
              && db.tokens == old(db.tokens)
              && db.outbox == old(db.outbox) + [WelcomeMail(email, email)]
              && db.nextUserId == old(db.nextUserId) + 1
              && db.nextTokenId == old(db.nextTokenId)
    ensures r.Ok? ==> var k := GetUserByEmail(db.users, email); k.Some? && db.users[k.value] == r.value
    ensures r.Ok? <==>
              || GetUserByEmail(old(db.users), email).Some?
              || (&& GetUserByUsername(old(db.users), email).None?
                  && !(googleId.Some? && exists j :: 0 <= j < |old(db.users)| && old(db.users)[j].googleId == googleId))
  {
    var existing := GetUserByEmail(db.users, email);
    if existing.Some? {
      return Ok(db.users[existing.value]);
    }
    if GetUserByUsername(db.users, email).Some? {
      return Err(Integrity("username"));
    }
    if googleId.Some? && (exists j :: 0 <= j < |db.users| && db.users[j].googleId == googleId) {
      return Err(Integrity("google_id"));
    }
    var user := User(db.nextUserId, email, email, None, None, googleId, true);
    AppendUserKeepsInvariants(db.users, db.nextUserId, user, db.tokens);
    db.users := db.users + [user];
    db.nextUserId := db.nextUserId + 1;
    db.outbox := db.outbox + [WelcomeMail(email, email)];
    assert db.users[|db.users| - 1].email == email;
    r := Ok(user);
  }

  /** Signing in with Google twice with the same email: the second call hands
      back what the first one returned and changes nothing. */
  method GoogleSignInIsIdempotent(db: Database, email: string, googleId: Option<string>)
    returns (first: Result<User>, second: Result<User>)
    requires db.Valid()
    modifies db
    ensures first.Ok? ==> second == first
  {
    first := CreateGoogleUser(db, email, googleId);
    second := CreateGoogleUser(db, email, googleId);
  }

  // ---------------------------------------------------------------------
  // Credential changes on one user row (the ORM object `user`)
  // ---------------------------------------------------------------------

  /** `change_password`: refuses a Google account, then a wrong current
      password, then a weak new password; only when all three pass is the
      password digest replaced. */
  method ChangePassword(db: Database, i: nat, currentPassword: string, newPassword: string)
    returns (r: Result<()>)
    requires db.Valid() && i < |db.users|
    modifies db
    ensures db.Valid()
    ensures old(db.NoOrphanTokens()) ==> db.NoOrphanTokens()
    ensures old(db.users[i]).isGoogleUser ==>
              r == Err(Http(BadRequest, GooglePasswordImmutable))
    ensures !old(db.users[i]).isGoogleUser
            && !VerifyPassword(currentPassword, old(db.users[i]).hashedPassword) ==>
              r == Err(Http(BadRequest, CurrentPasswordIncorrect))
    ensures !old(db.users[i]).isGoogleUser
            && VerifyPassword(currentPassword, old(db.users[i]).hashedPassword)
            && !ValidatePassword(newPassword).ok ==>
              r == Err(Http(BadRequest, ValidatePassword(newPassword).message))
    ensures r.Err? ==> unchanged(db)
    ensures r.Ok? <==>
              && !old(db.users[i]).isGoogleUser
              && VerifyPassword(currentPassword, old(db.users[i]).hashedPassword)
              && ValidatePassword(newPassword).ok
    ensures r.Ok? ==>
              && !old(db.users[i]).isGoogleUser
              && old(db.users[i]).hashedPassword == Some(Hash(currentPassword))
              && ValidatePassword(newPassword).ok
              && db.users == old(db.users)[i := old(db.users[i]).(hashedPassword := Some(Hash(newPassword)))]
              && db.tokens == old(db.tokens) && db.outbox == old(db.outbox)
              && db.nextUserId == old(db.nextUserId) && db.nextTokenId == old(db.nextTokenId)
  {
    var user := db.users[i];
    if user.isGoogleUser {
      return Err(Http(BadRequest, GooglePasswordImmutable));
    }
    if !VerifyPassword(currentPassword, user.hashedPassword) {
      return Err(Http(BadRequest, CurrentPasswordIncorrect));
    }
    var verdict := ValidatePassword(newPassword);
    if !verdict.ok {
      return Err(Http(BadRequest, verdict.message));
    }
    var updated := user.(hashedPassword := Some(Hash(newPassword)));
    UpdateUserKeepsInvariants(db.users, db.nextUserId, i, updated, db.tokens);
    db.users := db.users[i := updated];
    r := Ok(());
  }

  /** `set_pin`: after format validation the PIN digest is overwritten, with
      no check of any current PIN. */
  method SetPin(db: Database, i: nat, pin: string) returns (r: Result<()>)
    requires db.Valid() && i < |db.users|
    modifies db
    ensures db.Valid()
    ensures old(db.NoOrphanTokens()) ==> db.NoOrphanTokens()
    ensures !ValidatePin(pin).ok ==> r == Err(Http(BadRequest, ValidatePin(pin).message)) && unchanged(db)
    ensures ValidatePin(pin).ok ==>
              && r == Ok(())
              && db.users == old(db.users)[i := old(db.users[i]).(hashedPin := Some(Hash(pin)))]
              && db.tokens == old(db.tokens) && db.outbox == old(db.outbox)
              && db.nextUserId == old(db.nextUserId) && db.nextTokenId == old(db.nextTokenId)
  {
    var verdict := ValidatePin(pin);
    if !verdict.ok {
      return Err(Http(BadRequest, verdict.message));
    }
    var updated := db.users[i].(hashedPin := Some(Hash(pin)));
    UpdateUserKeepsInvariants(db.users, db.nextUserId, i, updated, db.tokens);
    db.users := db.users[i := updated];
    r := Ok(());
  }

  /** `change_pin`: refuses a user without a PIN, then a wrong current PIN,
      then a badly formatted new PIN; otherwise replaces the PIN digest. */
  method ChangePin(db: Database, i: nat, currentPin: string, newPin: string) returns (r: Result<()>)
    requires db.Valid() && i < |db.users|
    modifies db
    ensures db.Valid()
    ensures old(db.NoOrphanTokens()) ==> db.NoOrphanTokens()
    ensures !Present(old(db.users[i]).hashedPin) ==> r == Err(Http(BadRequest, NoPinSet))
    ensures Present(old(db.users[i]).hashedPin) && !VerifyPin(currentPin, old(db.users[i]).hashedPin) ==>
              r == Err(Http(BadRequest, CurrentPinIncorrect))
    ensures VerifyPin(currentPin, old(db.users[i]).hashedPin) && !ValidatePin(newPin).ok ==>
              r == Err(Http(BadRequest, ValidatePin(newPin).message))
    ensures r.Err? ==> unchanged(db)
    ensures r.Ok? <==> VerifyPin(currentPin, old(db.users[i]).hashedPin) && ValidatePin(newPin).ok
    ensures r.Ok? ==>
              && old(db.users[i]).hashedPin == Some(Hash(currentPin))
              && ValidatePin(newPin).ok
              && db.users == old(db.users)[i := old(db.users[i]).(hashedPin := Some(Hash(newPin)))]
              && db.tokens == old(db.tokens) && db.outbox == old(db.outbox)
              && db.nextUserId == old(db.nextUserId) && db.nextTokenId == old(db.nextTokenId)
  {
    var user := db.users[i];
    if !Present(user.hashedPin) {
      return Err(Http(BadRequest, NoPinSet));
    }
    if !VerifyPin(currentPin, user.hashedPin) {
      return Err(Http(BadRequest, CurrentPinIncorrect));
    }
    var verdict := ValidatePin(newPin);
    if !verdict.ok {
      return Err(Http(BadRequest, verdict.message));
    }
    var updated := user.(hashedPin := Some(Hash(newPin)));
    UpdateUserKeepsInvariants(db.users, db.nextUserId, i, updated, db.tokens);
    db.users := db.users[i := updated];
    r := Ok(());
  }

  /** `remove_pin`: refuses a user without a PIN, then a wrong current PIN;
      otherwise clears the PIN digest to None. */
  method RemovePin(db: Database, i: nat, currentPin: string) returns (r: Result<()>)
    requires db.Valid() && i < |db.users|
    modifies db
    ensures db.Valid()
    ensures old(db.NoOrphanTokens()) ==> db.NoOrphanTokens()
    ensures !Present(old(db.users[i]).hashedPin) ==> r == Err(Http(BadRequest, NoPinSet))
    ensures Present(old(db.users[i]).hashedPin) && !VerifyPin(currentPin, old(db.users[i]).hashedPin) ==>
              r == Err(Http(BadRequest, InvalidPin))
    ensures r.Err? ==> unchanged(db)
    ensures r.Ok? <==> VerifyPin(currentPin, old(db.users[i]).hashedPin)
    ensures r.Ok? ==>
              && db.users == old(db.users)[i := old(db.users[i]).(hashedPin := None)]
              && db.tokens == old(db.tokens) && db.outbox == old(db.outbox)
              && db.nextUserId == old(db.nextUserId) && db.nextTokenId == old(db.nextTokenId)
  {
    var user := db.users[i];
    if !Present(user.hashedPin) {
      return Err(Http(BadRequest, NoPinSet));
    }
    if !VerifyPin(currentPin, user.hashedPin) {
      return Err(Http(BadRequest, InvalidPin));
    }
    var updated := user.(hashedPin := None);
    UpdateUserKeepsInvariants(db.users, db.nextUserId, i, updated, db.tokens);
    db.users := db.users[i := updated];
    r := Ok(());
  }

  // ---------------------------------------------------------------------
  // Deletion
  // ---------------------------------------------------------------------

  /** The bulk delete `filter(ResetToken.user_id == userId).delete()`: the
      rows of other users, in their order. */
  function WithoutTokensOf(tokens: seq<ResetToken>, userId: nat): (r: seq<ResetToken>)
    ensures forall k :: 0 <= k < |r| ==> r[k].userId != userId
    ensures forall t :: t in r <==> t in tokens && t.userId != userId
    ensures |r| <= |tokens|
  {
    if tokens == [] then []
    else if tokens[0].userId == userId then WithoutTokensOf(tokens[1..], userId)
    else [tokens[0]] + WithoutTokensOf(tokens[1..], userId)
  }

  /** A row put in front of a well-formed token table whose key and token
      string it does not share keeps the table well formed. */
  lemma ConsTokenWellFormed(head: ResetToken, tail: seq<ResetToken>, nextId: nat)
    requires TokensWellFormed(tail, nextId) && 1 <= head.id < nextId
    requires forall t :: t in tail ==> t.id != head.id && t.token != head.token
    ensures TokensWellFormed([head] + tail, nextId)
  {
    var r := [head] + tail;
    forall i, j | 0 <= i < j < |r| ensures r[i].id != r[j].id && r[i].token != r[j].token {
      assert r[j] == tail[j - 1];
      if i > 0 {
        assert r[i] == tail[i - 1];
      }
    }
  }

  /** Deleting rows keeps the token table well formed. */
  lemma {:induction false} WithoutTokensOfWellFormed(tokens: seq<ResetToken>, nextId: nat, userId: nat)
    requires TokensWellFormed(tokens, nextId)
    ensures TokensWellFormed(WithoutTokensOf(tokens, userId), nextId)
  {
    if tokens != [] {
      var rest := tokens[1..];
      assert TokensWellFormed(rest, nextId) by {
        forall i, j | 0 <= i < j < |rest|
          ensures rest[i].id != rest[j].id && rest[i].token != rest[j].token
        {
          assert rest[i] == tokens[i + 1] && rest[j] == tokens[j + 1];
        }
      }
      WithoutTokensOfWellFormed(rest, nextId, userId);
      if tokens[0].userId != userId {
        var tail := WithoutTokensOf(rest, userId);
        forall t | t in tail ensures t.id != tokens[0].id && t.token != tokens[0].token {
          var m :| 0 <= m < |rest| && rest[m] == t;
          assert tokens[m + 1] == t;
        }
        ConsTokenWellFormed(tokens[0], tail, nextId);
      }
    }
  }

  /** Removing a user row keeps the table well formed; tokens of other users
      keep their owner. */
  lemma RemoveUserKeepsInvariants(users: seq<User>, nextId: nat, i: nat, tokens: seq<ResetToken>)
    requires UsersWellFormed(users, nextId) && i < |users|
    requires forall k :: 0 <= k < |tokens| ==> tokens[k].userId != users[i].id
    ensures UsersWellFormed(users[..i] + users[i + 1..], nextId)
    ensures TokensOwned(users, tokens) ==> TokensOwned(users[..i] + users[i + 1..], tokens)
  {
    var rest := users[..i] + users[i + 1..];
    assert forall a :: 0 <= a < |rest| ==> rest[a] == users[if a < i then a else a + 1];
    if TokensOwned(users, tokens) {
      forall k | 0 <= k < |tokens| ensures UserById(rest, tokens[k].userId).Some? {
        var j := UserById(users, tokens[k].userId).value;
        assert j != i;
        assert rest[if j < i then j else j - 1].id == tokens[k].userId;
      }
    }
  }

  /** `delete_user`: removes every reset token of the user, then the user's
      row; nothing else changes. */
  method DeleteUser(db: Database, i: nat)
    requires db.Valid() && i < |db.users|
    modifies db
    ensures db.Valid()
    ensures old(db.NoOrphanTokens()) ==> db.NoOrphanTokens()
    ensures forall k :: 0 <= k < |db.tokens| ==> db.tokens[k].userId != old(db.users[i]).id
    ensures db.tokens == WithoutTokensOf(old(db.tokens), old(db.users[i]).id)
    ensures db.users == old(db.users[..i] + db.users[i + 1..])
    ensures UserById(db.users, old(db.users[i]).id).None?
    ensures db.outbox == old(db.outbox)
    ensures db.nextUserId == old(db.nextUserId) && db.nextTokenId == old(db.nextTokenId)
  {
    var id := db.users[i].id;
    WithoutTokensOfWellFormed(db.tokens, db.nextTokenId, id);
    db.tokens := WithoutTokensOf(db.tokens, id);
    RemoveUserKeepsInvariants(db.users, db.nextUserId, i, db.tokens);
    db.users := db.users[..i] + db.users[i + 1..];
    assert forall a :: 0 <= a < |db.users| ==> db.users[a] == old(db.users)[if a < i then a else a + 1];
  }
}
