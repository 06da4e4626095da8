/** `ResetService` of `app/services/reset_service.py`: issuing reset tokens,
    matching them by token string or by (email, code), and consuming them
    once to overwrite a password or PIN digest. */
module ResetService {

  import opened Outcomes
  import opened Security
  import opened Store
  import opened UserService

  /** `timedelta(hours=1)` on a clock counting microseconds, the resolution
      of Python's `datetime`. */
  const TokenLifetime := 3600 * 1000000

  const PasswordResetRequested := "If the email exists, a password reset code has been sent"
  const PinResetRequested := "If the email exists and has a PIN set, a PIN reset code has been sent"
  const GoogleUsesGoogle := "This account uses Google authentication. Please sign in with Google."
  const InvalidResetToken := "Invalid or expired reset token"
  const InvalidResetCode := "Invalid or expired verification code"
  const UserNotFound := "User not found"
  const PasswordResetDone := "Password has been reset successfully"
  const PinResetDone := "PIN has been reset successfully"

  // ---------------------------------------------------------------------
  // Matching a token
  // ---------------------------------------------------------------------

  /** The filter of `verify_reset_token`. */
  predicate TokenMatches(t: ResetToken, token: string, kind: TokenKind) {
    t.token == token && t.tokenType == kind && !t.used
  }

  /** The filter of `verify_reset_code`, once the user is known. */
  predicate CodeMatches(t: ResetToken, userId: nat, code: string, kind: TokenKind) {
    t.userId == userId && t.verificationCode == code && t.tokenType == kind && !t.used
  }

  /** A token row is still usable at `now`: the expiry test is `now > expires_at`,
      so the row is still good at exactly its expiry instant. */
  predicate Unexpired(t: ResetToken, now: int) {
    now <= t.expiresAt
  }

  /** The first row passing `p`, then rejected if it has expired. */
  function FirstUnexpired(tokens: seq<ResetToken>, p: ResetToken -> bool, now: int): (r: Option<nat>)
    ensures r.Some? ==> r == FirstMatch(tokens, p) && Unexpired(tokens[r.value], now)
    ensures r.None? ==> FirstMatch(tokens, p).None? || !Unexpired(tokens[FirstMatch(tokens, p).value], now)
  {
    match FirstMatch(tokens, p)
    case None => None
    case Some(k) => if now > tokens[k].expiresAt then None else Some(k)
  }

  /** `verify_reset_token`: an unused, unexpired row with this token string
      and type. With token strings unique, it is None exactly when no such
      row exists. */
  function VerifyResetToken(tokens: seq<ResetToken>, token: string, kind: TokenKind, now: int)
    : (r: Option<nat>)
    ensures r.Some? ==> r.value < |tokens| && TokenMatches(tokens[r.value], token, kind)
                        && Unexpired(tokens[r.value], now)
    ensures (forall i, j :: 0 <= i < j < |tokens| ==> tokens[i].token != tokens[j].token) ==>
              (r.None? <==> forall k :: 0 <= k < |tokens| && TokenMatches(tokens[k], token, kind) ==>
                                          !Unexpired(tokens[k], now))
  {
    var p := (t: ResetToken) => TokenMatches(t, token, kind);
    var r := FirstUnexpired(tokens, p, now);
    assert r.None? && FirstMatch(tokens, p).Some? ==>
      forall k :: 0 <= k < |tokens| && TokenMatches(tokens[k], token, kind) && k != FirstMatch(tokens, p).value ==>
        tokens[k].token == tokens[FirstMatch(tokens, p).value].token;
    r
  }

  /** `verify_reset_code`: None when no user has the email; otherwise the
      first unused row of that user with this code and type, rejected if it
      has expired. */
  function VerifyResetCode(users: seq<User>, tokens: seq<ResetToken>, email: string, code: string,
                           kind: TokenKind, now: int): (r: Option<nat>)
    ensures GetUserByEmail(users, email).None? ==> r.None?
    ensures r.Some? ==>
              && GetUserByEmail(users, email).Some?
              && r.value < |tokens|
              && CodeMatches(tokens[r.value], users[GetUserByEmail(users, email).value].id, code, kind)
              && Unexpired(tokens[r.value], now)
              && forall j :: 0 <= j < r.value ==>
                   !CodeMatches(tokens[j], users[GetUserByEmail(users, email).value].id, code, kind)
    ensures GetUserByEmail(users, email).Some? && r.None? ==>
              var uid := users[GetUserByEmail(users, email).value].id;
              forall k :: 0 <= k < |tokens| && CodeMatches(tokens[k], uid, code, kind) ==>
                exists e :: 0 <= e <= k && CodeMatches(tokens[e], uid, code, kind) && !Unexpired(tokens[e], now)
  {
    match GetUserByEmail(users, email)
    case None => None
    case Some(u) =>
      var p := (t: ResetToken) => CodeMatches(t, users[u].id, code, kind);
      var r := FirstUnexpired(tokens, p, now);
      assert r.None? ==> forall k :: 0 <= k < |tokens| && p(tokens[k]) ==>
        var e := FirstMatch(tokens, p).value; 0 <= e <= k && p(tokens[e]) && !Unexpired(tokens[e], now);
      r
  }

  /** The converse of `VerifyResetCode`'s guarantee: the first unused row of
      the email's user carrying the code and type is returned while it has
      not expired. */
  lemma VerifyResetCodeAccepts(users: seq<User>, tokens: seq<ResetToken>, email: string, code: string,
                               kind: TokenKind, now: int, k: nat)
    requires GetUserByEmail(users, email).Some?
    requires k < |tokens|
    requires CodeMatches(tokens[k], users[GetUserByEmail(users, email).value].id, code, kind)
    requires forall j :: 0 <= j < k ==>
               !CodeMatches(tokens[j], users[GetUserByEmail(users, email).value].id, code, kind)
    requires Unexpired(tokens[k], now)
    ensures VerifyResetCode(users, tokens, email, code, kind, now) == Some(k)
  {
    var u := GetUserByEmail(users, email).value;
    var p := (t: ResetToken) => CodeMatches(t, users[u].id, code, kind);
    var m := FirstMatch(tokens, p);
    assert p(tokens[k]);
    assert m == Some(k) by {
      assert m.Some?;
      assert CodeMatches(tokens[m.value], users[u].id, code, kind);
    }
  }

  // ---------------------------------------------------------------------
  // Issuing and consuming
  // ---------------------------------------------------------------------

  /** `mark_token_as_used` on the table: the first row with that id gets
      `used = true`. */
  function MarkUsed(tokens: seq<ResetToken>, tokenId: nat): (r: seq<ResetToken>)
    ensures |r| == |tokens|
    ensures forall k :: 0 <= k < |r| ==>
              r[k] == tokens[k] || (tokens[k].id == tokenId && r[k] == tokens[k].(used := true))
    ensures (forall k :: 0 <= k < |tokens| ==> tokens[k].id != tokenId) ==> r == tokens
    ensures forall k :: (0 <= k < |tokens| && tokens[k].id == tokenId
                         && (forall j :: 0 <= j < k ==> tokens[j].id != tokenId)) ==> r[k].used
  {
    match FirstMatch(tokens, (t: ResetToken) => t.id == tokenId)
    case None => tokens
    case Some(k) => tokens[k := tokens[k].(used := true)]
  }

  /** Marking the same row twice is the same as marking it once. */
  lemma MarkUsedIdempotent(tokens: seq<ResetToken>, tokenId: nat)
    ensures MarkUsed(MarkUsed(tokens, tokenId), tokenId) == MarkUsed(tokens, tokenId)
  {
    var once := MarkUsed(tokens, tokenId);
    FirstMatchAgrees(tokens, (t: ResetToken) => t.id == tokenId, once, (t: ResetToken) => t.id == tokenId);
  }

  /** With distinct keys, marking the row `k` changes exactly its `used` flag. */
  lemma MarkUsedMarksRow(tokens: seq<ResetToken>, nextId: nat, k: nat)
    requires TokensWellFormed(tokens, nextId) && k < |tokens|
    ensures MarkUsed(tokens, tokens[k].id) == tokens[k := tokens[k].(used := true)]
  {
    var m := FirstMatch(tokens, (t: ResetToken) => t.id == tokens[k].id);
    assert m.Some?;
  }

  /** `mark_token_as_used`: a no-op when no row has the id. */
  method MarkTokenAsUsed(db: Database, tokenId: nat)
    requires db.Valid()
    modifies db
    ensures db.Valid()
    ensures old(db.NoOrphanTokens()) ==> db.NoOrphanTokens()
    ensures db.tokens == MarkUsed(old(db.tokens), tokenId)
    ensures db.users == old(db.users) && db.outbox == old(db.outbox)
    ensures db.nextUserId == old(db.nextUserId) && db.nextTokenId == old(db.nextTokenId)
  {
    var found := FirstMatch(db.tokens, (t: ResetToken) => t.id == tokenId);
    if found.Some? {
      var k := found.value;
      db.tokens := db.tokens[k := db.tokens[k].(used := true)];
    }
  }

  /** `create_reset_token`, given the fresh `secrets.token_urlsafe` string and
      the `randint` draw of the code: appends one unused row expiring one hour
      from `now` and returns its token and code; no other row changes. */
  method CreateResetToken(db: Database, userId: nat, kind: TokenKind, freshToken: string, draw: int, now: int)
    returns (token: string, code: string)
    requires db.Valid()
    requires forall k :: 0 <= k < |db.tokens| ==> db.tokens[k].token != freshToken
    requires CodeMin <= draw <= CodeMax
    modifies db
    ensures db.Valid()
    ensures old(db.NoOrphanTokens()) && UserById(db.users, userId).Some? ==> db.NoOrphanTokens()
    ensures token == freshToken && code == GenerateVerificationCode(draw)
    ensures db.tokens == old(db.tokens) +
              [ResetToken(old(db.nextTokenId), userId, token, code, kind, now + TokenLifetime, false)]
    ensures db.users == old(db.users) && db.outbox == old(db.outbox)
    ensures db.nextUserId == old(db.nextUserId) && db.nextTokenId == old(db.nextTokenId) + 1
  {
    token := freshToken;
    code := GenerateVerificationCode(draw);
    var row := ResetToken(db.nextTokenId, userId, token, code, kind, now + TokenLifetime, false);
    db.tokens := db.tokens + [row];
    db.nextTokenId := db.nextTokenId + 1;
  }

  /** The credential column a token of `kind` resets gets the digest of `secret`. */
  function WithSecret(u: User, kind: TokenKind, secret: string): (v: User)
    ensures SameKeys(u, v) && v.isGoogleUser == u.isGoogleUser
    ensures kind == PasswordReset ==> v.hashedPassword == Some(Hash(secret)) && v.hashedPin == u.hashedPin
    ensures kind == PinReset ==> v.hashedPin == Some(Hash(secret)) && v.hashedPassword == u.hashedPassword
  {
    match kind
    case PasswordReset => u.(hashedPassword := Some(Hash(secret)))
    case PinReset => u.(hashedPin := Some(Hash(secret)))
  }

  function ResetDone(kind: TokenKind): string {
    match kind
    case PasswordReset => PasswordResetDone
    case PinReset => PinResetDone
  }

  /** What consuming the matched row `k` does to the tables: the owner's
      digest is overwritten and the row is marked used; with the owner gone,
      "User not found" and nothing changes. */
  ghost predicate Consumed(users: seq<User>, tokens: seq<ResetToken>, k: nat, kind: TokenKind, secret: string,
                           users': seq<User>, tokens': seq<ResetToken>, r: Result<string>)
    requires k < |tokens|
  {
    match UserById(users, tokens[k].userId)
    case None => r == Err(Http(NotFound, UserNotFound)) && users' == users && tokens' == tokens
    case Some(o) =>
      && r == Ok(ResetDone(kind))
      && users' == users[o := WithSecret(users[o], kind, secret)]
      && tokens' == MarkUsed(tokens, tokens[k].id)
  }

  /** The tail shared by the four `reset_*` operations once a row `k` has
      matched: load the owner, overwrite the digest, mark the row used. */
  method Consume(db: Database, k: nat, kind: TokenKind, secret: string) returns (r: Result<string>)
    requires db.Valid() && k < |db.tokens|
    modifies db
    ensures db.Valid()
    ensures old(db.NoOrphanTokens()) ==> db.NoOrphanTokens() && r.Ok?
    ensures Consumed(old(db.users), old(db.tokens), k, kind, secret, db.users, db.tokens, r)
    ensures db.outbox == old(db.outbox)
    ensures db.nextUserId == old(db.nextUserId) && db.nextTokenId == old(db.nextTokenId)
  {
    var owner := UserById(db.users, db.tokens[k].userId);
    if owner.None? {
      return Err(Http(NotFound, UserNotFound));
    }
    var o := owner.value;
    var updated := WithSecret(db.users[o], kind, secret);
    UpdateUserKeepsInvariants(db.users, db.nextUserId, o, updated, db.tokens);
    db.users := db.users[o := updated];
    MarkTokenAsUsed(db, db.tokens[k].id);
    r := Ok(ResetDone(kind));
  }

  // ---------------------------------------------------------------------
  // Requesting a reset
  // ---------------------------------------------------------------------

  /** `request_password_reset`: the same message whether or not the email is
      known; a Google account is refused; otherwise exactly one "password"
      row is issued and its code is mailed to the email. */
  method RequestPasswordReset(db: Database, email: string, freshToken: string, draw: int, now: int)
    returns (r: Result<string>)
    requires db.Valid()
    requires forall k :: 0 <= k < |db.tokens| ==> db.tokens[k].token != freshToken
    requires CodeMin <= draw <= CodeMax
    modifies db
    ensures db.Valid()
    ensures old(db.NoOrphanTokens()) ==> db.NoOrphanTokens()
    ensures r.Ok? ==> r.value == PasswordResetRequested
    ensures GetUserByEmail(old(db.users), email).None? ==> r.Ok? && unchanged(db)
    ensures GetUserByEmail(old(db.users), email).Some?
            && old(db.users)[GetUserByEmail(old(db.users), email).value].isGoogleUser ==>
              r == Err(Http(BadRequest, GoogleUsesGoogle)) && unchanged(db)
    ensures GetUserByEmail(old(db.users), email).Some?
            && !old(db.users)[GetUserByEmail(old(db.users), email).value].isGoogleUser ==>
              var code := GenerateVerificationCode(draw);
              && r.Ok?
              && db.tokens == old(db.tokens) +
                   [ResetToken(old(db.nextTokenId), old(db.users)[GetUserByEmail(old(db.users), email).value].id,
                               freshToken, code, PasswordReset, now + TokenLifetime, false)]
              && db.outbox == old(db.outbox) + [ResetMail(email, code, PasswordReset)]
              && db.users == old(db.users)
              && db.nextTokenId == old(db.nextTokenId) + 1 && db.nextUserId == old(db.nextUserId)
  {
    var found := GetUserByEmail(db.users, email);
    if found.None? {
      return Ok(PasswordResetRequested);
    }
    var user := db.users[found.value];
    if user.isGoogleUser {
      return Err(Http(BadRequest, GoogleUsesGoogle));
    }
    var token, code := CreateResetToken(db, user.id, PasswordReset, freshToken, draw, now);
    db.outbox := db.outbox + [ResetMail(email, code, PasswordReset)];
    r := Ok(PasswordResetRequested);
  }

  /** `request_pin_reset`: the same message in every branch; a row is issued
      only for a known email whose user has a PIN. */
  method RequestPinReset(db: Database, email: string, freshToken: string, draw: int, now: int)
    returns (r: Result<string>)
    requires db.Valid()
    requires forall k :: 0 <= k < |db.tokens| ==> db.tokens[k].token != freshToken
    requires CodeMin <= draw <= CodeMax
    modifies db
    ensures db.Valid()
    ensures old(db.NoOrphanTokens()) ==> db.NoOrphanTokens()
    ensures r == Ok(PinResetRequested)
    ensures (GetUserByEmail(old(db.users), email).None?
             || !Present(old(db.users)[GetUserByEmail(old(db.users), email).value].hashedPin)) ==>
              unchanged(db)
    ensures GetUserByEmail(old(db.users), email).Some?
            && Present(old(db.users)[GetUserByEmail(old(db.users), email).value].hashedPin) ==>
              var code := GenerateVerificationCode(draw);
              && db.tokens == old(db.tokens) +
                   [ResetToken(old(db.nextTokenId), old(db.users)[GetUserByEmail(old(db.users), email).value].id,
                               freshToken, code, PinReset, now + TokenLifetime, false)]
              && db.outbox == old(db.outbox) + [ResetMail(email, code, PinReset)]
              && db.users == old(db.users)
              && db.nextTokenId == old(db.nextTokenId) + 1 && db.nextUserId == old(db.nextUserId)
  {
    var found := GetUserByEmail(db.users, email);
    if found.None? || !Present(db.users[found.value].hashedPin) {
      return Ok(PinResetRequested);
    }
    var user := db.users[found.value];
    var token, code := CreateResetToken(db, user.id, PinReset, freshToken, draw, now);
    db.outbox := db.outbox + [ResetMail(email, code, PinReset)];
    r := Ok(PinResetRequested);
  }

  // ---------------------------------------------------------------------
  // Confirming a reset
  // ---------------------------------------------------------------------

  /** `reset_password`: a weak new password is refused before any token is
      looked up; then an unknown, used or expired token is refused; otherwise
      the matched row is consumed. */
  method ResetPassword(db: Database, token: string, newPassword: string, now: int)
    returns (r: Result<string>)
    requires db.Valid()
    modifies db
    ensures db.Valid()
    ensures old(db.NoOrphanTokens()) ==> db.NoOrphanTokens()
    ensures !ValidatePassword(newPassword).ok ==>
              r == Err(Http(BadRequest, ValidatePassword(newPassword).message)) && unchanged(db)
    ensures ValidatePassword(newPassword).ok && VerifyResetToken(old(db.tokens), token, PasswordReset, now).None? ==>
              r == Err(Http(BadRequest, InvalidResetToken)) && unchanged(db)
    ensures ValidatePassword(newPassword).ok && VerifyResetToken(old(db.tokens), token, PasswordReset, now).Some? ==>
              && Consumed(old(db.users), old(db.tokens), VerifyResetToken(old(db.tokens), token, PasswordReset, now).value,
                          PasswordReset, newPassword, db.users, db.tokens, r)
              && (old(db.NoOrphanTokens()) ==> r == Ok(PasswordResetDone))
    ensures db.outbox == old(db.outbox)
    ensures db.nextUserId == old(db.nextUserId) && db.nextTokenId == old(db.nextTokenId)
  {
    var verdict := ValidatePassword(newPassword);
    if !verdict.ok {
      return Err(Http(BadRequest, verdict.message));
    }
    var found := VerifyResetToken(db.tokens, token, PasswordReset, now);
    if found.None? {
      return Err(Http(BadRequest, InvalidResetToken));
    }
    r := Consume(db, found.value, PasswordReset, newPassword);
  }

  /** `reset_password_with_code`: as `reset_password`, matching by email and
      verification code. */
  method ResetPasswordWithCode(db: Database, email: string, code: string, newPassword: string, now: int)
    returns (r: Result<string>)
    requires db.Valid()
    modifies db
    ensures db.Valid()
    ensures old(db.NoOrphanTokens()) ==> db.NoOrphanTokens()
    ensures !ValidatePassword(newPassword).ok ==>
              r == Err(Http(BadRequest, ValidatePassword(newPassword).message)) && unchanged(db)
    ensures ValidatePassword(newPassword).ok
            && VerifyResetCode(old(db.users), old(db.tokens), email, code, PasswordReset, now).None? ==>
              r == Err(Http(BadRequest, InvalidResetCode)) && unchanged(db)
    ensures ValidatePassword(newPassword).ok
            && VerifyResetCode(old(db.users), old(db.tokens), email, code, PasswordReset, now).Some? ==>
              && Consumed(old(db.users), old(db.tokens),
                          VerifyResetCode(old(db.users), old(db.tokens), email, code, PasswordReset, now).value,
                          PasswordReset, newPassword, db.users, db.tokens, r)
              && (old(db.NoOrphanTokens()) ==> r == Ok(PasswordResetDone))
    ensures db.outbox == old(db.outbox)
    ensures db.nextUserId == old(db.nextUserId) && db.nextTokenId == old(db.nextTokenId)
  {
    var verdict := ValidatePassword(newPassword);
    if !verdict.ok {
      return Err(Http(BadRequest, verdict.message));
    }
    var found := VerifyResetCode(db.users, db.tokens, email, code, PasswordReset, now);
    if found.None? {
      return Err(Http(BadRequest, InvalidResetCode));
    }
    r := Consume(db, found.value, PasswordReset, newPassword);
  }

  /** `reset_pin`: a badly formatted new PIN is refused before any token is
      looked up; then an unknown, used or expired token is refused; otherwise
      the matched row is consumed. */
  method ResetPin(db: Database, token: string, newPin: string, now: int)
    returns (r: Result<string>)
    requires db.Valid()
    modifies db
    ensures db.Valid()
    ensures old(db.NoOrphanTokens()) ==> db.NoOrphanTokens()
    ensures !ValidatePin(newPin).ok ==>
              r == Err(Http(BadRequest, ValidatePin(newPin).message)) && unchanged(db)
    ensures ValidatePin(newPin).ok && VerifyResetToken(old(db.tokens), token, PinReset, now).None? ==>
              r == Err(Http(BadRequest, InvalidResetToken)) && unchanged(db)
    ensures ValidatePin(newPin).ok && VerifyResetToken(old(db.tokens), token, PinReset, now).Some? ==>
              && Consumed(old(db.users), old(db.tokens), VerifyResetToken(old(db.tokens), token, PinReset, now).value,
                          PinReset, newPin, db.users, db.tokens, r)
              && (old(db.NoOrphanTokens()) ==> r == Ok(PinResetDone))
    ensures db.outbox == old(db.outbox)
    ensures db.nextUserId == old(db.nextUserId) && db.nextTokenId == old(db.nextTokenId)
  {
    var verdict := ValidatePin(newPin);
    if !verdict.ok {
      return Err(Http(BadRequest, verdict.message));
    }
    var found := VerifyResetToken(db.tokens, token, PinReset, now);
    if found.None? {
      return Err(Http(BadRequest, InvalidResetToken));
    }
    r := Consume(db, found.value, PinReset, newPin);
  }

  /** `reset_pin_with_code`: as `reset_pin`, matching by email and
      verification code. */
  method ResetPinWithCode(db: Database, email: string, code: string, newPin: string, now: int)
    returns (r: Result<string>)
    requires db.Valid()
    modifies db
    ensures db.Valid()
    ensures old(db.NoOrphanTokens()) ==> db.NoOrphanTokens()
    ensures !ValidatePin(newPin).ok ==>
              r == Err(Http(BadRequest, ValidatePin(newPin).message)) && unchanged(db)
    ensures ValidatePin(newPin).ok
            && VerifyResetCode(old(db.users), old(db.tokens), email, code, PinReset, now).None? ==>
              r == Err(Http(BadRequest, InvalidResetCode)) && unchanged(db)
    ensures ValidatePin(newPin).ok
            && VerifyResetCode(old(db.users), old(db.tokens), email, code, PinReset, now).Some? ==>
              && Consumed(old(db.users), old(db.tokens),
                          VerifyResetCode(old(db.users), old(db.tokens), email, code, PinReset, now).value,
                          PinReset, newPin, db.users, db.tokens, r)
              && (old(db.NoOrphanTokens()) ==> r == Ok(PinResetDone))
    ensures db.outbox == old(db.outbox)
    ensures db.nextUserId == old(db.nextUserId) && db.nextTokenId == old(db.nextTokenId)
  {
    var verdict := ValidatePin(newPin);
    if !verdict.ok {
      return Err(Http(BadRequest, verdict.message));
    }
    var found := VerifyResetCode(db.users, db.tokens, email, code, PinReset, now);
    if found.None? {
      return Err(Http(BadRequest, InvalidResetCode));
    }
    r := Consume(db, found.value, PinReset, newPin);
  }

  // ---------------------------------------------------------------------
  // Properties of the lifecycle
  // ---------------------------------------------------------------------

  /** A row that matched a token string no longer matches it once consumed,
      at any later time: a second reset with the same token fails. */
  lemma TokenIsSingleUse(tokens: seq<ResetToken>, nextId: nat, token: string, kind: TokenKind,
                         now: int, later: int)
    requires TokensWellFormed(tokens, nextId)
    requires VerifyResetToken(tokens, token, kind, now).Some?
    ensures VerifyResetToken(MarkUsed(tokens, tokens[VerifyResetToken(tokens, token, kind, now).value].id),
                             token, kind, later).None?
  {
    var k := VerifyResetToken(tokens, token, kind, now).value;
    MarkUsedMarksRow(tokens, nextId, k);
    var after := tokens[k := tokens[k].(used := true)];
    forall j | 0 <= j < |after| ensures !TokenMatches(after[j], token, kind) {
      if j < k {
        assert tokens[j].token != tokens[k].token;
      } else if j > k {
        assert tokens[k].token != tokens[j].token;
      }
    }
  }

  /** Consuming the row matched by a code: the same row can never match that
      code again, and when no other unused row of the user carries the code,
      a second reset with it fails. The user table may have changed in its
      credential columns only. */
  lemma CodeRowIsSingleUse(users: seq<User>, users': seq<User>, tokens: seq<ResetToken>, nextId: nat,
                           email: string, code: string, kind: TokenKind, now: int, later: int)
    requires TokensWellFormed(tokens, nextId)
    requires |users'| == |users| && forall j :: 0 <= j < |users| ==> SameKeys(users[j], users'[j])
    requires VerifyResetCode(users, tokens, email, code, kind, now).Some?
    ensures var k := VerifyResetCode(users, tokens, email, code, kind, now).value;
            var again := VerifyResetCode(users', MarkUsed(tokens, tokens[k].id), email, code, kind, later);
            && again != Some(k)
            && ((forall j :: 0 <= j < |tokens| && j != k ==>
                   !CodeMatches(tokens[j], tokens[k].userId, code, kind)) ==> again.None?)
  {
    var k := VerifyResetCode(users, tokens, email, code, kind, now).value;
    MarkUsedMarksRow(tokens, nextId, k);
    var after := tokens[k := tokens[k].(used := true)];
    FirstMatchAgrees(users, (u: User) => u.email == email, users', (u: User) => u.email == email);
    var u := GetUserByEmail(users, email).value;
    assert GetUserByEmail(users', email) == Some(u);
    assert users'[u].id == tokens[k].userId;
  }

  /** A consumed reset leaves the other credential untouched: a password
      reset never changes the PIN digest and vice versa. */
  lemma ConsumeTouchesOneColumn(users: seq<User>, tokens: seq<ResetToken>, k: nat, kind: TokenKind,
                                secret: string, users': seq<User>, tokens': seq<ResetToken>, r: Result<string>)
    requires k < |tokens|
    requires Consumed(users, tokens, k, kind, secret, users', tokens', r)
    requires r.Ok?
    ensures |users'| == |users|
    ensures forall j :: 0 <= j < |users| ==> SameKeys(users[j], users'[j])
    ensures forall j :: 0 <= j < |users| && users[j].id != tokens[k].userId ==> users'[j] == users[j]
    ensures forall j :: 0 <= j < |users| ==>
              (kind == PasswordReset ==> users'[j].hashedPin == users[j].hashedPin) &&
              (kind == PinReset ==> users'[j].hashedPassword == users[j].hashedPassword)
  {
    var o := UserById(users, tokens[k].userId).value;
    assert users' == users[o := WithSecret(users[o], kind, secret)];
  }
}
