/** A client of the service contracts: the register, login, reset-by-code
    flow, derived from the contracts alone. */
module Scenarios {

  import opened Outcomes
  import opened Security
  import opened Store
  import opened UserService
  import opened ResetService

  /** A fresh store holding one registered account and no reset rows. */
  method Registered(username: string, email: string, password: string) returns (db: Database)
    requires StrongPassword(password)
    ensures fresh(db) && db.Valid() && db.NoOrphanTokens()
    ensures db.users == [User(1, username, email, Some(Hash(password)), None, None, false)]
    ensures db.tokens == []
    ensures db.nextTokenId == 1
  {
    db := new Database();
    var registered := CreateUser(db, username, password, email);
  }

  /** The account's owner asks for a password reset and receives a code. */
  method CodeRequested(db: Database, email: string, linkToken: string, draw: int, now: int)
    returns (code: string)
    requires db.Valid() && db.NoOrphanTokens()
    requires |db.users| == 1 && db.users[0].id == 1 && db.users[0].email == email
    requires !db.users[0].isGoogleUser
    requires db.tokens == [] && db.nextTokenId == 1
    requires CodeMin <= draw <= CodeMax
    modifies db
    ensures db.Valid() && db.NoOrphanTokens()
    ensures db.users == old(db.users)
    ensures db.tokens == [ResetToken(1, 1, linkToken, code, PasswordReset, now + TokenLifetime, false)]
    ensures db.outbox == old(db.outbox) + [ResetMail(email, code, PasswordReset)]
    ensures IsDigitString(code)
  {
    assert GetUserByEmail(db.users, email) == Some(0);
    var requested := RequestPasswordReset(db, email, linkToken, draw, now);
    code := GenerateVerificationCode(draw);
  }

  /** The code is confirmed in time: the new digest is stored and the row is
      spent. */
  method CodeConfirmed(db: Database, email: string, code: string, newPassword: string,
                       linkToken: string, expiresAt: int, now: int)
    requires db.Valid() && db.NoOrphanTokens()
    requires |db.users| == 1 && db.users[0].id == 1 && db.users[0].email == email
    requires db.tokens == [ResetToken(1, 1, linkToken, code, PasswordReset, expiresAt, false)]
    requires now <= expiresAt
    requires StrongPassword(newPassword)
    modifies db
    ensures db.Valid() && db.NoOrphanTokens()
    ensures db.users == [old(db.users[0]).(hashedPassword := Some(Hash(newPassword)))]
    ensures db.tokens == [ResetToken(1, 1, linkToken, code, PasswordReset, expiresAt, true)]
  {
    assert GetUserByEmail(db.users, email) == Some(0);
    assert CodeMatches(db.tokens[0], 1, code, PasswordReset) && Unexpired(db.tokens[0], now);
    VerifyResetCodeAccepts(db.users, db.tokens, email, code, PasswordReset, now, 0);
    assert UserById(db.users, 1) == Some(0);
    MarkUsedMarksRow(db.tokens, db.nextTokenId, 0);
    var reset := ResetPasswordWithCode(db, email, code, newPassword, now);
  }

  /** On a fresh store: register, log in, request a password reset, confirm
      it with the mailed code. Afterwards the old password is refused, the new
      one accepted, and the same code cannot be used a second time. */
  method ResetByCodeEndToEnd(username: string, email: string, oldPassword: string, newPassword: string,
                             linkToken: string, draw: int, now: int)
    returns (before: Option<nat>, after: Option<nat>, stale: Option<nat>, reuse: Result<string>)
    requires StrongPassword(oldPassword) && StrongPassword(newPassword) && oldPassword != newPassword
    requires CodeMin <= draw <= CodeMax
    ensures before.Some? && after.Some?
    ensures stale.None?
    ensures reuse == Err(Http(BadRequest, InvalidResetCode))
  {
    var db := Registered(username, email, oldPassword);
    before := AuthenticateUser(db.users, username, oldPassword);

    var code := CodeRequested(db, email, linkToken, draw, now);
    CodeConfirmed(db, email, code, newPassword, linkToken, now + TokenLifetime, now + 1);
    VerifyHash(oldPassword, newPassword);
    stale := AuthenticateUser(db.users, username, oldPassword);
    after := AuthenticateUser(db.users, username, newPassword);

    reuse := ResetPasswordWithCode(db, email, code, newPassword, now + 2);
  }
}
