/**
 * The user and token tables the authentication routes work on: users with
 * a unique (lower-cased) e-mail, opaque refresh tokens identified by the
 * SHA-256 of the token, and e-mail verification and password reset tokens
 * that belong to a user. Deleting a user deletes its tokens (the schema's
 * cascade). Request bodies reach the routes already parsed: the JSON
 * parser and the zod schemas are the Body variants.
 */
module AuthStore {
  import opened Common
  import opened SessionValidator

  /** A request body: missing, not JSON, rejected by the schema, or parsed. */
  datatype Body<T> = EmptyBody | InvalidJson | SchemaFailed | Parsed(value: T)

  /** An optional nullable field of an update: left out, null, or a value. */
  datatype Field<T> = Absent | Null | Given(value: T)

  datatype Gender = Male | Female

  datatype User = User(
    email: string,
    passwordHash: string,
    fullName: string,
    phoneE164: Option<string>,
    role: Role,
    isEmailVerified: bool,
    lastLogin: Option<Time>,
    placeOfBirth: Option<string>,
    dateOfBirth: Option<Time>,
    gender: Option<Gender>)

  /** A refresh token row, keyed by its hash. */
  datatype RefreshRow = RefreshRow(userId: nat, expiresAt: Time, revokedAt: Option<Time>, replacedBy: Option<string>)

  /** A verification or password reset token row. */
  datatype TokenRow = TokenRow(userId: nat, tokenHash: string, expiresAt: Time)

  /** new Date(Date.now() + ttl): the expiry of a row issued at now that lives ttl milliseconds. */
  function ExpiresAt(now: Time, ttl: int): Time
  {
    now + ttl
  }

  /** The role as the database and the token spell it. */
  function RoleName(r: Role): (s: string)
    ensures s == "STUDENT" || s == "TUTOR" || s == "ADMIN"
    ensures r.Student? <==> s == "STUDENT"
  {
    match r
    case Student => "STUDENT"
    case Tutor => "TUTOR"
    case Admin => "ADMIN"
  }

  /** No two users share an e-mail. */
  ghost predicate EmailsUnique(users: map<nat, User>)
  {
    forall a, b :: a in users && b in users && users[a].email == users[b].email ==> a == b
  }

  /** The users whose stored e-mail is exactly email. */
  function UsersWithEmail(users: map<nat, User>, email: string): set<nat>
  {
    set u | u in users && users[u].email == email
  }

  /** What isSessionValid looks up: each user's lastLogin. */
  function LastLogins(users: map<nat, User>): (r: map<nat, Option<Time>>)
    ensures r.Keys == users.Keys
    ensures forall u :: u in users ==> r[u] == users[u].lastLogin
  {
    map u | u in users :: users[u].lastLogin
  }

  /** The refresh tokens of a user that are not revoked. */
  function Unrevoked(tokens: map<string, RefreshRow>, userId: nat): set<string>
  {
    set h | h in tokens && tokens[h].userId == userId && tokens[h].revokedAt.None?
  }

  /** The verification or reset tokens of a user carrying a hash. */
  function Matching(tokens: map<nat, TokenRow>, userId: nat, tokenHash: string): set<nat>
  {
    set i | i in tokens && tokens[i].userId == userId && tokens[i].tokenHash == tokenHash
  }

  /** deleteMany({ where: { userId } }). */
  function DropTokensOf(tokens: map<nat, TokenRow>, userId: nat): (r: map<nat, TokenRow>)
    ensures forall i :: i in r <==> i in tokens && tokens[i].userId != userId
    ensures forall i :: i in r ==> r[i] == tokens[i]
  {
    map i | i in tokens && tokens[i].userId != userId :: tokens[i]
  }

  /** Every row points at an existing user and every id is below the counter. */
  ghost predicate TokensOwned(tokens: map<nat, TokenRow>, users: map<nat, User>, nextId: nat)
  {
    forall i :: i in tokens ==> i < nextId && tokens[i].userId in users
  }

  ghost predicate RefreshOwned(tokens: map<string, RefreshRow>, users: map<nat, User>)
  {
    forall h :: h in tokens ==> tokens[h].userId in users
  }

  /** A user without tokens left leaves the others' rows owned. */
  lemma DropKeepsOwned(tokens: map<nat, TokenRow>, users: map<nat, User>, nextId: nat, userId: nat)
    requires TokensOwned(tokens, users, nextId)
    ensures TokensOwned(DropTokensOf(tokens, userId), users - {userId}, nextId)
  {
  }

  /** The verification or reset rows of a user. */
  function TokensOfUser(tokens: map<nat, TokenRow>, userId: nat): set<nat>
  {
    set i | i in tokens && tokens[i].userId == userId
  }

  /** Once a user's rows are deleted, no row of theirs matches any hash: a deleted token cannot be used again. */
  lemma DroppedMatchesNothing(tokens: map<nat, TokenRow>, userId: nat, tokenHash: string)
    ensures Matching(DropTokensOf(tokens, userId), userId, tokenHash) == {}
  {
    forall i | i in Matching(DropTokensOf(tokens, userId), userId, tokenHash) ensures false {
    }
  }

  /** The invariant of the tables: unique e-mails, ids below the counter, every token owned by a user. */
  ghost predicate TablesValid(users: map<nat, User>, refreshTokens: map<string, RefreshRow>,
                              verificationTokens: map<nat, TokenRow>, resetTokens: map<nat, TokenRow>,
                              nextId: nat, nextTokenId: nat)
  {
    EmailsUnique(users)
    && (forall u :: u in users ==> u < nextId)
    && RefreshOwned(refreshTokens, users)
    && TokensOwned(verificationTokens, users, nextTokenId)
    && TokensOwned(resetTokens, users, nextTokenId)
  }

  /** Rewriting a user's row without touching the e-mail, and deleting any user's token rows, keeps the tables valid. */
  lemma RewriteUserKeepsValid(users: map<nat, User>, refreshTokens: map<string, RefreshRow>,
                              verificationTokens: map<nat, TokenRow>, resetTokens: map<nat, TokenRow>,
                              nextId: nat, nextTokenId: nat, u: nat, row: User, dropVerification: bool, dropReset: bool)
    requires TablesValid(users, refreshTokens, verificationTokens, resetTokens, nextId, nextTokenId)
    requires u in users && row.email == users[u].email
    ensures TablesValid(users[u := row], refreshTokens,
                        if dropVerification then DropTokensOf(verificationTokens, u) else verificationTokens,
                        if dropReset then DropTokensOf(resetTokens, u) else resetTokens, nextId, nextTokenId)
  {
    var r := users[u := row];
    forall a, b | a in r && b in r && r[a].email == r[b].email ensures a == b {
      assert users[a].email == r[a].email && users[b].email == r[b].email;
    }
  }

  class Store {
    var users: map<nat, User>
    var refreshTokens: map<string, RefreshRow>
    var verificationTokens: map<nat, TokenRow>
    var resetTokens: map<nat, TokenRow>
    /** The next user id the database hands out. */
    var nextId: nat
    /** The next id of a verification or reset token row. */
    var nextTokenId: nat

    ghost predicate Valid()
      reads this
    {
      TablesValid(users, refreshTokens, verificationTokens, resetTokens, nextId, nextTokenId)
    }

    constructor()
      ensures Valid() && users == map[] && refreshTokens == map[]
      ensures verificationTokens == map[] && resetTokens == map[]
    {
      users := map[];
      refreshTokens := map[];
      verificationTokens := map[];
      resetTokens := map[];
      nextId := 0;
      nextTokenId := 0;
    }

    /** findUnique({ where: { email } }). */
    method FindByEmail(email: string) returns (found: Option<nat>)
      requires Valid()
      ensures found.None? <==> UsersWithEmail(users, email) == {}
      ensures found.Some? ==> UsersWithEmail(users, email) == {found.value}
    {
      var ids := UsersWithEmail(users, email);
      if ids == {} {
        return None;
      }
      var u :| u in ids;
      assert ids == {u};
      return Some(u);
    }

    /** findFirst({ where: { userId, tokenHash } }) on one of the token tables. */
    static method FindToken(tokens: map<nat, TokenRow>, userId: nat, tokenHash: string) returns (found: Option<nat>)
      ensures found.None? <==> Matching(tokens, userId, tokenHash) == {}
      ensures found.Some? ==> found.value in Matching(tokens, userId, tokenHash)
    {
      var ids := Matching(tokens, userId, tokenHash);
      if ids == {} {
        return None;
      }
      var i :| i in ids;
      return Some(i);
    }
  }
}
