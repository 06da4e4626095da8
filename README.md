# Account service credential model

A Dafny model of the credential logic of a small FastAPI account service:
the password and PIN validators, the account operations over the `users`
table (register, Google sign-in, lookup, login, password and PIN changes,
account deletion), the reset-token lifecycle over the `reset_tokens` table
(issue, match by link token or by email and code, expiry, single-use
consumption), and the three user handlers that carry logic of their own
(`has_pin`, PIN verification, forced PIN removal).

Modules follow the source files:

| module | file | source |
|---|---|---|
| `Outcomes` | `outcomes.dfy` | `Option`, `Result`, and the `HTTPException` status/detail pairs |
| `Security` | `security.dfy` | `app/utils/security.py` |
| `Store` | `store.dfy` | the two tables, `.filter(...).first()`, the outgoing mail log |
| `UserService` | `user_service.dfy` | `app/services/user_service.py` |
| `ResetService` | `reset_service.dfy` | `app/services/reset_service.py` |
| `UsersApi` | `users_api.dfy` | `app/api/v1/users.py` |
| `Scenarios` | `scenarios.dfy` | register, log in, reset by code, log in again |

Modelling choices:

- The database session is a `Store.Database` object holding the two tables
  as sequences, the id counters and an append-only mail log. The service
  methods take it as `db` and change it in place, as the services change the
  session. Its invariant `Valid()` is the unique constraints on
  `users.username`, `users.email`, `users.google_id` and `reset_tokens.token`,
  plus distinct ids. `NoOrphanTokens()` (every reset row has an owner) is
  kept apart, because the source checks for a missing owner. Every service
  method preserves it. `ResetService.CreateResetToken` preserves it when the
  row's user exists, which every caller ensures.
- `.filter(p).first()` is `Store.FirstMatch`: the lowest-index row passing
  `p`. Lookups return the row's index.
- An `HTTPException` is `Err(Http(status, detail))`, with the source's status
  codes and detail strings. A unique-constraint violation on commit is
  `Err(Integrity(column))`.
- bcrypt is symbolic. `Hash(s)` is an injective, non-empty digest, and
  `Verify(p, d)` holds exactly when `d == Hash(p)`. A stored digest is an
  `Option<string>`. Python truthiness (`not user.hashed_pin`) is
  `Security.Present`: present and non-empty.
- Time is an integer clock `now`, in microseconds. A row issued at `now`
  expires at `now + 3600 * 1000000`. It is rejected only when
  `now > expires_at`, so it is still valid at exactly `expires_at`.
- `secrets.token_urlsafe` and `random.randint` are parameters. The link
  token must differ from every stored token, as the unique column demands.
  The code draw must lie in [100000, 999999].
- A user that a handler or service receives as an object is passed as its
  row index `i`.

Behaviour of the code worth noting:

- An unknown, spent or expired reset token is refused with 400.
- A reset commits twice: once inside `mark_token_as_used` and once more
  afterwards. The model runs the two steps in sequence.
- Rows are matched first and only then checked for expiry. An expired first
  match therefore hides a later live row with the same user, code and type
  (`ResetService.VerifyResetCode`, third ensures).
- Verification codes are not unique. A second reset with the same code is
  sure to fail when no other unused row of that user carries that code and
  type (`ResetService.CodeRowIsSingleUse`). Otherwise the next such row is
  matched, and it is accepted only if it has not expired.

## Model

| member | source | states |
|---|---|---|
| `Security.AnyIn` | app/utils/security.py:37-42 | `any(test for c in s)` holds exactly when some character of `s` is in the class |
| `Security.AllDigits` | app/utils/security.py:48 | true exactly when every character is a decimal digit; `IsDigitString` adds non-emptiness, as `str.isdigit` is false on "" |
| `Security.Hash` | app/utils/security.py:11-13 | a digest is never empty, so a stored digest is always truthy |
| `Security.VerifyHash` | app/utils/security.py:11-18 | a password verifies against a stored hash exactly when it is the hashed secret |
| `Security.VerifyPassword` | app/utils/security.py:16-18 | true exactly when the stored digest is the hash of the plain password; a missing digest never verifies |
| `Security.VerifyPin` | app/utils/security.py:26-30 | false for a missing or empty digest, without reaching the hasher; otherwise true exactly when the digest is the PIN's hash |
| `Security.ValidatePassword` | app/utils/security.py:33-43 | accepts exactly the strings of length at least 8 with an upper-case letter, a lower-case letter and a digit; otherwise returns the first failing check's message, in the order length, upper, lower, digit; every string under 8 characters gets the length message |
| `Security.ValidatePin` | app/utils/security.py:46-52 | accepts exactly the all-digit strings of length 4 to 6; the empty string and any string with a non-digit get "only digits"; all-digit strings of other lengths get "4-6 digits" |
| `Security.ZeroPadded` | app/utils/security.py:62 | the `:06d` formatting: a digit string of exactly the given width whose decimal value is the number |
| `Security.GenerateVerificationCode` | app/utils/security.py:60-62 | a 6-character digit string whose decimal value is the draw, so it lies in [100000, 999999] |
| `Security.DecimalValueBound` | app/utils/security.py:62 | a digit string of length n has value below 10^n |
| `Security.LeadingZero` | app/utils/security.py:62 | a digit string starting with '0' has the value of its tail |
| `Security.VerificationCodeHasNoLeadingZero` | app/utils/security.py:62 | because the draw is at least 100000, the padding never adds a leading zero |
| `Store.FirstMatch` | app/services/user_service.py:89 | `.first()`: the lowest index whose row passes the filter; None exactly when no row passes |
| `Store.FirstMatchAgrees` | app/services/reset_service.py:85 | two tables that agree row by row on the filter give the same `.first()` |
| `Store.UserById` | app/services/reset_service.py:133 | the row with that id, none exactly when no row has it |
| `Store.UpdateUserKeepsInvariants` | app/services/user_service.py:144 | overwriting a user's credential columns keeps the unique constraints and token ownership |
| `Store.AppendUserKeepsInvariants` | app/services/user_service.py:45-52 | adding a user with fresh id, username, email and Google id keeps the unique constraints and token ownership |
| `Store.Database.constructor` | app/db/database.py:32-34 | an empty store, with no users, tokens or mail, is well formed and has no orphan rows |
| `UserService.GetUserByUsername` | app/services/user_service.py:87-89 | the first row with that username; none exactly when no row has it |
| `UserService.GetUserByEmail` | app/services/user_service.py:92-94 | the first row with that email; none exactly when no row has it |
| `UserService.GetUserByUsernameOrEmail` | app/services/user_service.py:97-106 | a row whose username or email is the identifier; a username match wins whenever one exists; none exactly when no row has either |
| `UserService.AuthenticateUser` | app/services/user_service.py:109-116 | the looked-up row exactly when its password digest is the hash of the password; an unknown identifier, a row with no password digest (every Google row is created so by `CreateGoogleUser`) and a wrong password give none |
| `UserService.VerifyUserPin` | app/services/user_service.py:162-167 | false without a PIN; otherwise true exactly when the digest is the PIN's hash |
| `UserService.CreateUser` | app/services/user_service.py:20-59 | fails on a taken username, then a taken email, then a weak password, adding nothing; succeeds exactly when all pass, appending one row with the password's digest and no PIN and one welcome mail |
| `UserService.CreateGoogleUser` | app/services/user_service.py:62-84 | an existing email returns its row unchanged; otherwise appends a Google row (username = email, no digests) and a welcome mail, or fails on a username or Google-id collision; succeeds exactly when the email is known or neither collision occurs; after success the email looks up to the returned row |
| `UserService.GoogleSignInIsIdempotent` | app/services/user_service.py:65-67 | a second Google sign-in with the same email returns the same row as the first |
| `UserService.ChangePassword` | app/services/user_service.py:119-145 | refuses a Google account, then a wrong current password, then a weak new one, changing nothing; succeeds exactly when all three checks pass, and then stores the new password's digest only |
| `UserService.SetPin` | app/services/user_service.py:148-159 | a badly formatted PIN is refused; otherwise the PIN digest is overwritten whatever was there |
| `UserService.ChangePin` | app/services/user_service.py:170-194 | refuses a missing PIN, then a wrong current PIN, then a badly formatted new one, changing nothing; succeeds exactly when the current PIN verifies and the new one is well formed, and then stores the new PIN's digest only |
| `UserService.RemovePin` | app/services/user_service.py:197-212 | refuses a missing PIN, then a wrong current PIN; succeeds exactly when the current PIN verifies and then clears the PIN only |
| `UserService.WithoutTokensOf` | app/services/user_service.py:218 | the bulk delete: keeps exactly the rows of other users |
| `UserService.ConsTokenWellFormed` | app/services/user_service.py:218 | a row whose id and token are new to a well-formed table extends it well formed |
| `UserService.WithoutTokensOfWellFormed` | app/services/user_service.py:218 | deleting rows keeps the token table well formed |
| `UserService.RemoveUserKeepsInvariants` | app/services/user_service.py:220-221 | removing a user that owns no rows keeps the unique constraints and leaves no orphan rows |
| `UserService.DeleteUser` | app/services/user_service.py:215-222 | afterwards no reset row carries the user's id and no user has it; every other row and user is kept |
| `ResetService.FirstUnexpired` | app/services/reset_service.py:41-55 | the first matching row if it has not expired; none when there is no match or the first match has expired |
| `ResetService.VerifyResetToken` | app/services/reset_service.py:39-55 | a returned row has the token, the type, is unused and unexpired; with unique tokens, none exactly when every such row has expired |
| `ResetService.VerifyResetCode` | app/services/reset_service.py:58-80 | none for an unknown email; a returned row is the first unused row of the email's user with that code and type, and is unexpired; when none is returned, every match is preceded by an expired match |
| `ResetService.VerifyResetCodeAccepts` | app/services/reset_service.py:58-80 | the converse: the first matching row of the email's user is returned whenever it is unexpired |
| `ResetService.MarkUsed` | app/services/reset_service.py:83-88 | only rows with the id can change, and only in their used flag; the first row with the id is marked; a no-op when no row has the id; with unique ids exactly that one row changes (`MarkUsedMarksRow`) |
| `ResetService.MarkUsedIdempotent` | app/services/reset_service.py:83-88 | marking a row twice is the same as marking it once |
| `ResetService.MarkUsedMarksRow` | app/services/reset_service.py:83-88 | with unique ids, marking row k's id flips exactly row k's used flag |
| `ResetService.MarkTokenAsUsed` | app/services/reset_service.py:83-88 | the token table becomes `MarkUsed` of the old one; nothing else changes, and no row becomes orphaned |
| `ResetService.CreateResetToken` | app/services/reset_service.py:17-36 | appends exactly one unused row for the user and type, expiring one hour after `now`, with the fresh token and the generated code, and returns both; no other row changes |
| `ResetService.WithSecret` | app/services/reset_service.py:140 | a password reset sets only the password digest and a PIN reset only the PIN digest (line 228 for the PIN) |
| `ResetService.Consume` | app/services/reset_service.py:132-145 | with the owner present, its digest is overwritten and the row marked used; with the owner gone, "User not found" (404) and nothing changes; never the latter while no row is orphaned |
| `ResetService.RequestPasswordReset` | app/services/reset_service.py:91-111 | an unknown email gets the generic message and changes nothing; a Google account is refused with 400; otherwise one unused password row is issued, the code is mailed to the email, and the same generic message returned |
| `ResetService.RequestPinReset` | app/services/reset_service.py:186-199 | always the same message; a row is issued and the code mailed only for a known email whose user has a PIN, and nothing changes otherwise |
| `ResetService.ResetPassword` | app/services/reset_service.py:114-147 | a weak password fails before the lookup and changes nothing; an unmatched, spent or expired token fails with 400 and changes nothing; otherwise the matched row is consumed |
| `ResetService.ResetPasswordWithCode` | app/services/reset_service.py:150-183 | as `ResetPassword`, matching by email and code |
| `ResetService.ResetPin` | app/services/reset_service.py:202-235 | as `ResetPassword`, with the PIN format check and the PIN digest |
| `ResetService.ResetPinWithCode` | app/services/reset_service.py:238-271 | as `ResetPin`, matching by email and code |
| `ResetService.TokenIsSingleUse` | app/services/reset_service.py:41-45 | once the row matched by a token is marked used, that token matches nothing at any later time |
| `ResetService.CodeRowIsSingleUse` | app/services/reset_service.py:65-70 | the row consumed by a code is never matched again; when no other row of the user carries that code, a second reset with it fails |
| `ResetService.ConsumeTouchesOneColumn` | app/services/reset_service.py:140-145 | a successful reset changes only the owner's digest of the reset kind; other users and the other digest are untouched |
| `UsersApi.CurrentUserInfo` | app/api/v1/users.py:21-28 | `has_pin` is true exactly when a non-empty PIN digest is stored; id and username are copied |
| `UsersApi.VerifyPinHandler` | app/api/v1/users.py:66-83 | "No PIN set" with `valid = false` when there is no PIN; otherwise `valid` is `verify_user_pin` and the message follows it; `valid` exactly when the digest is the PIN's hash |
| `UsersApi.ForceRemovePin` | app/api/v1/users.py:108-140 | refuses a Google account first (400), then a missing PIN (400), then a missing or wrong password (401), changing nothing; succeeds exactly when all pass and then clears only the PIN digest |
| `Scenarios.Registered` | app/services/user_service.py:20-59 | registering on an empty store yields exactly one row with id 1, the password's digest, no PIN and no reset rows |
| `Scenarios.CodeRequested` | app/services/reset_service.py:91-111 | for the only, non-Google user, a reset request issues exactly one unused password row with the mailed digit code |
| `Scenarios.CodeConfirmed` | app/services/reset_service.py:150-183 | confirming that code before expiry stores the new password's digest and marks the row used |
| `Scenarios.ResetByCodeEndToEnd` | app/services/reset_service.py:150-183 | on a fresh store, register, log in, request a reset and confirm it with the mailed code: the old password is then refused, the new one accepted, and the same code is refused a second time |

## Left out

- Mail delivery: HTML templating and the Resend API calls are not modelled. A send is an entry in `Database.outbox`. The live mail service addresses a configured recipient rather than the user (app/services/email_service.py:70, 155); the log records the intended recipient.
- bcrypt: the hash is symbolic and injective. bcrypt's truncation of secrets to 72 bytes is not modelled. passlib raises on an empty stored digest; the model treats that digest as non-verifying.
- JWT issuing and decoding (app/utils/jwt.py), the routing and dependency glue (app/api/v1/auth.py, app/auth/dependencies.py), the Google userinfo HTTP call, configuration, database setup and the migration scripts are not part of this model.
- `backup_old_structure/`: superseded copies that the live app does not serve.
- Randomness: the reset token and the code draw are parameters, constrained as described above.
- Wall-clock time and the ISO-string `expires_at` column: an integer clock instead.
- Unicode character classes: `isupper`, `islower` and `isdigit` are modelled on ASCII only.
- Transactions and concurrency: `commit` and `refresh` are not modelled. Operations run one at a time, and a failing commit is not modelled except for the unique-constraint case of `CreateGoogleUser`.
- String comparison: every `.filter(column == value)` and every unique constraint runs in MySQL with the `utf8mb4` charset (app/core/config.py:50-54), whose default collations ignore case. The model compares strings exactly. With "alice" stored, the source refuses to register "Alice" as a taken username while the model accepts it; the same holds for email lookups and link-token matching.
- Column widths: `users.username` holds 50 characters and `users.email` 100 (backup_old_structure/app/models/user.py:13-17). The model has no width limit, so it accepts a Google sign-in whose email, used as the username, is longer than 50 characters, which the database would refuse.
- `users.email` is nullable in the table; the model keeps it a plain string, as every creation path sets it.
- app/models/user.py and app/models/reset_token.py are not part of this model; the columns follow the `backup_old_structure` model files plus the `verification_code` column the services use.
- `UserService.CreateGoogleUser`: the source's commit fails when `username = email` collides with another user's username or the Google id is taken. The model returns `Err(Integrity(column))` and states no HTTP status for it.
- The pass-through handlers of app/api/v1/users.py (change password, delete account, set, change and remove PIN, the forgot and reset PIN routes) only call the service methods modelled above.
