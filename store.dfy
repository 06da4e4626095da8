/** The two tables of the service (`users`, `reset_tokens`), the outgoing
    mail log, and the query primitive `.filter(...).first()`. */
module Store {

  import opened Outcomes

  /** `reset_tokens.token_type`: the services only ever write "password" or "pin". */
  datatype TokenKind = PasswordReset | PinReset

  /** A row of `users`. Digests are nullable strings, as in the table. */
  datatype User = User(
    id: nat,
    username: string,
    email: string,
    hashedPassword: Option<string>,
    hashedPin: Option<string>,
    googleId: Option<string>,
    isGoogleUser: bool)

  /** A row of `reset_tokens`; `expiresAt` is on the integer clock of `now`. */
  datatype ResetToken = ResetToken(
    id: nat,
    userId: nat,
    token: string,
    verificationCode: string,
    tokenType: TokenKind,
    expiresAt: int,
    used: bool)

  /** A message handed to the mail transport. */
  datatype Mail =
    | WelcomeMail(to: string, username: string)
    | ResetMail(to: string, code: string, kind: TokenKind)

  /** `.filter(p).first()`: the lowest-index row satisfying `p`, if any. */
  function FirstMatch<T>(rows: seq<T>, p: T -> bool): (r: Option<nat>)
    ensures r.Some? ==> r.value < |rows| && p(rows[r.value])
    ensures r.Some? ==> forall j :: 0 <= j < r.value ==> !p(rows[j])
    ensures r.None? ==> forall j :: 0 <= j < |rows| ==> !p(rows[j])
  {
    if rows == [] then None
    else if p(rows[0]) then Some(0)
    else
      match FirstMatch(rows[1..], p)
      case None =>
        assert forall j :: 1 <= j < |rows| ==> rows[j] == rows[1..][j - 1];
        None
      case Some(k) =>
        assert forall j :: 1 <= j <= k + 1 ==> rows[j] == rows[1..][j - 1];
        Some(k + 1)
  }

  /** Two tables whose rows agree on the filter give the same `.first()`. */
  lemma FirstMatchAgrees<T, U>(a: seq<T>, p: T -> bool, b: seq<U>, q: U -> bool)
    requires |a| == |b|
    requires forall j :: 0 <= j < |a| ==> p(a[j]) == q(b[j])
    ensures FirstMatch(a, p) == FirstMatch(b, q)
  {
    var ra := FirstMatch(a, p);
    if ra.Some? {
      assert q(b[ra.value]);
    }
  }

  /** The row with primary key `id`. */
  function UserById(users: seq<User>, id: nat): (r: Option<nat>)
    ensures r.Some? ==> r.value < |users| && users[r.value].id == id
    ensures r.None? <==> forall j :: 0 <= j < |users| ==> users[j].id != id
  {
    FirstMatch(users, (u: User) => u.id == id)
  }

  /** `users` as the unique constraints and the auto-increment key keep it:
      ids below the next key, and pairwise distinct ids, usernames, emails and
      (non-null) Google ids. */
  ghost predicate UsersWellFormed(users: seq<User>, nextId: nat) {
    && nextId >= 1
    && (forall i :: 0 <= i < |users| ==> 1 <= users[i].id < nextId)
    && (forall i, j :: 0 <= i < j < |users| ==>
          && users[i].id != users[j].id
          && users[i].username != users[j].username
          && users[i].email != users[j].email
          && (users[i].googleId.Some? ==> users[i].googleId != users[j].googleId))
  }

  /** `reset_tokens` as its constraints keep it: ids below the next key, and
      pairwise distinct ids and token strings. */
  ghost predicate TokensWellFormed(tokens: seq<ResetToken>, nextId: nat) {
    && nextId >= 1
    && (forall i :: 0 <= i < |tokens| ==> 1 <= tokens[i].id < nextId)
    && (forall i, j :: 0 <= i < j < |tokens| ==>
          tokens[i].id != tokens[j].id && tokens[i].token != tokens[j].token)
  }

  /** The columns a credential update never touches. */
  predicate SameKeys(a: User, b: User) {
    a.id == b.id && a.username == b.username && a.email == b.email && a.googleId == b.googleId
  }

  /** Every reset token belongs to an existing user. */
  ghost predicate TokensOwned(users: seq<User>, tokens: seq<ResetToken>) {
    forall k :: 0 <= k < |tokens| ==> UserById(users, tokens[k].userId).Some?
  }

  /** Rewriting the credential columns of one row keeps the table well formed
      and keeps every token's owner. */
  lemma UpdateUserKeepsInvariants(users: seq<User>, nextId: nat, i: nat, u: User, tokens: seq<ResetToken>)
    requires UsersWellFormed(users, nextId)
    requires i < |users| && SameKeys(users[i], u)
    ensures UsersWellFormed(users[i := u], nextId)
    ensures TokensOwned(users, tokens) ==> TokensOwned(users[i := u], tokens)
  {
    var users' := users[i := u];
    if TokensOwned(users, tokens) {
      forall k | 0 <= k < |tokens| ensures UserById(users', tokens[k].userId).Some? {
        var j := UserById(users, tokens[k].userId).value;
        assert users'[j].id == tokens[k].userId;
      }
    }
  }

  /** Appending a user with a fresh key and no clashing unique column keeps
      the table well formed and keeps every token's owner. */
  lemma AppendUserKeepsInvariants(users: seq<User>, nextId: nat, u: User, tokens: seq<ResetToken>)
    requires UsersWellFormed(users, nextId)
    requires 1 <= u.id == nextId
    requires forall j :: 0 <= j < |users| ==>
               users[j].username != u.username && users[j].email != u.email
               && (u.googleId.Some? ==> users[j].googleId != u.googleId)
    ensures UsersWellFormed(users + [u], nextId + 1)
    ensures TokensOwned(users, tokens) ==> TokensOwned(users + [u], tokens)
  {
    var users' := users + [u];
    if TokensOwned(users, tokens) {
      forall k | 0 <= k < |tokens| ensures UserById(users', tokens[k].userId).Some? {
        var j := UserById(users, tokens[k].userId).value;
        assert users'[j].id == tokens[k].userId;
      }
    }
  }

  /** The store behind the session: both tables, the mail log, and the next
      auto-increment keys. */
  class Database {
    var users: seq<User>
    var tokens: seq<ResetToken>
    var outbox: seq<Mail>
    var nextUserId: nat
    var nextTokenId: nat

    ghost predicate Valid()
      reads this
    {
      UsersWellFormed(users, nextUserId) && TokensWellFormed(tokens, nextTokenId)
    }

    /** No reset token refers to a missing user. */
    ghost predicate NoOrphanTokens()
      reads this
    {
      TokensOwned(users, tokens)
    }

    constructor ()
      ensures Valid() && NoOrphanTokens()
      ensures users == [] && tokens == [] && outbox == []
      ensures nextUserId == 1 && nextTokenId == 1
    {
      users, tokens, outbox := [], [], [];
      nextUserId, nextTokenId := 1, 1;
    }
  }
}
