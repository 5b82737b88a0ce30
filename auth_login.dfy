/**
 * POST /api/auth/login (app/api/auth/login/route.js). Every failure before
 * the e-mail check answers the same 'Invalid credentials'. A successful
 * login is single-device: the stored lastLogin becomes the login time,
 * every live refresh token of the user is revoked, the expired ones are
 * deleted, and one new refresh token is issued. Password hashing, JWT
 * signing and the random token are parameters.
 */
module AuthLogin {
  import opened Common
  import opened SessionValidator
  import opened AuthStore
  import opened Tokens
  import opened Env
  import opened Cookies

  datatype LoginInput = LoginInput(email: string, password: string)

  datatype LoginReply =
    | TooManyRequests
    | InvalidCredentials
    | EmailNotVerified
    | LoggedIn(userId: nat, access: Payload, accessCookie: SetCookie, refreshCookie: SetCookie)

  /** updateMany({ where: { userId, revokedAt: null }, data: { revokedAt: now } }). */
  function RevokeAll(tokens: map<string, RefreshRow>, userId: nat, now: Time): (r: map<string, RefreshRow>)
    ensures r.Keys == tokens.Keys
    ensures forall h :: h in tokens && tokens[h].userId != userId ==> r[h] == tokens[h]
    ensures forall h :: h in tokens && tokens[h].userId == userId ==>
      r[h].userId == userId && r[h].revokedAt.Some? && r[h].expiresAt == tokens[h].expiresAt
  {
    map h | h in tokens :: if tokens[h].userId == userId && tokens[h].revokedAt.None? then tokens[h].(revokedAt := Some(now)) else tokens[h]
  }

  /** deleteMany({ where: { userId, expiresAt: { lt: now } } }). */
  function DropExpired(tokens: map<string, RefreshRow>, userId: nat, now: Time): (r: map<string, RefreshRow>)
    ensures forall h :: h in r <==> h in tokens && !(tokens[h].userId == userId && tokens[h].expiresAt < now)
    ensures forall h :: h in r ==> r[h] == tokens[h]
  {
    map h | h in tokens && !(tokens[h].userId == userId && tokens[h].expiresAt < now) :: tokens[h]
  }

  /** The refresh tokens after the login transaction and the create that follows it. */
  function LoginTokens(tokens: map<string, RefreshRow>, userId: nat, now: Time, newHash: string, ttl: int): map<string, RefreshRow>
  {
    DropExpired(RevokeAll(tokens, userId, now), userId, now)[newHash := RefreshRow(userId, now + ttl, None, None)]
  }

  /** After a login the user has exactly one live refresh token: the new one. */
  lemma SingleDevice(tokens: map<string, RefreshRow>, userId: nat, now: Time, newHash: string, ttl: int)
    ensures Unrevoked(LoginTokens(tokens, userId, now, newHash, ttl), userId) == {newHash}
  {
    var r := LoginTokens(tokens, userId, now, newHash, ttl);
    forall h | h in Unrevoked(r, userId) ensures h == newHash {
    }
  }

  /** Other users' refresh tokens are left exactly as they were. */
  lemma OthersUntouched(tokens: map<string, RefreshRow>, userId: nat, now: Time, newHash: string, ttl: int, h: string)
    requires h in tokens && tokens[h].userId != userId && h != newHash
    ensures h in LoginTokens(tokens, userId, now, newHash, ttl) && LoginTokens(tokens, userId, now, newHash, ttl)[h] == tokens[h]
  {
  }

  /** What the checks before the session is issued decide: a refusal, or the user to log in. */
  datatype Verdict = Refuse(reply: LoginReply) | Accept(userId: nat)

  /**
   * The checks of the route up to the e-mail verification: the rate limit,
   * the body, the lower-cased e-mail lookup, the password, the flag.
   */
  method Authenticate(store: Store, rateOk: bool, body: Body<LoginInput>, verifyPassword: (string, string) -> bool)
    returns (v: Verdict)
    requires store.Valid()
    ensures v.Refuse? ==> !v.reply.LoggedIn?
    ensures !rateOk ==> v == Refuse(TooManyRequests)
    ensures rateOk && !body.Parsed? ==> v == Refuse(InvalidCredentials)
    ensures rateOk && body.Parsed? && UsersWithEmail(store.users, Lower(body.value.email)) == {} ==>
      v == Refuse(InvalidCredentials)
    ensures rateOk && body.Parsed? ==> forall u :: u in UsersWithEmail(store.users, Lower(body.value.email)) ==>
      (!verifyPassword(body.value.password, store.users[u].passwordHash) ==> v == Refuse(InvalidCredentials)) &&
      (verifyPassword(body.value.password, store.users[u].passwordHash) && !store.users[u].isEmailVerified ==>
        v == Refuse(EmailNotVerified)) &&
      (verifyPassword(body.value.password, store.users[u].passwordHash) && store.users[u].isEmailVerified ==>
        v == Accept(u))
    ensures v.Accept? ==> v.userId in store.users
  {
    if !rateOk {
      return Refuse(TooManyRequests);
    }
    if !body.Parsed? {
      return Refuse(InvalidCredentials);
    }
    var found := store.FindByEmail(Lower(body.value.email));
    if found.None? {
      return Refuse(InvalidCredentials);
    }
    var u := found.value;
    var user := store.users[u];
    if !verifyPassword(body.value.password, user.passwordHash) {
      return Refuse(InvalidCredentials);
    }
    if !user.isEmailVerified {
      return Refuse(EmailNotVerified);
    }
    return Accept(u);
  }

  /** The login transaction and the new refresh token. */
  method IssueSession(store: Store, u: nat, now: Time, newHash: string, refreshTtlMs: int)
    requires store.Valid() && u in store.users
    modifies store
    ensures store.Valid()
    ensures store.users == old(store.users)[u := old(store.users)[u].(lastLogin := Some(now))]
    ensures store.refreshTokens == LoginTokens(old(store.refreshTokens), u, now, newHash, refreshTtlMs)
    ensures store.verificationTokens == old(store.verificationTokens) && store.resetTokens == old(store.resetTokens)
    ensures store.nextId == old(store.nextId) && store.nextTokenId == old(store.nextTokenId)
  {
    var users := store.users[u := store.users[u].(lastLogin := Some(now))];
    var tokens := LoginTokens(store.refreshTokens, u, now, newHash, refreshTtlMs);
    assert users.Keys == store.users.Keys;
    store.users, store.refreshTokens := users, tokens;
  }

  /** The stored lastLogin is now: a token stamped now passes, one stamped over a second earlier fails. */
  lemma LoginStamp(users: map<nat, User>, u: nat, now: Time)
    requires u in users && users[u].lastLogin == Some(now)
    ensures now != 0 ==> IsSessionValid(Some(u), Some(now), LastLogins(users), false)
    ensures forall ts :: ts < now - Tolerance ==> !IsSessionValid(Some(u), Some(ts), LastLogins(users), false)
  {
  }

  method Login(store: Store, vars: Vars, rateOk: bool, body: Body<LoginInput>,
               verifyPassword: (string, string) -> bool, sign: Payload -> string,
               now: Time, pair: TokenPair, refreshTtlMs: int, accessDays: int, refreshDays: int)
    returns (reply: LoginReply)
    requires store.Valid()
    requires pair.tokenHash !in store.refreshTokens
    modifies store
    ensures store.Valid()
    ensures !rateOk ==> reply == TooManyRequests
    ensures rateOk && !body.Parsed? ==> reply == InvalidCredentials
    ensures rateOk && body.Parsed? && UsersWithEmail(old(store.users), Lower(body.value.email)) == {} ==>
      reply == InvalidCredentials
    ensures rateOk && body.Parsed? ==> forall u :: u in UsersWithEmail(old(store.users), Lower(body.value.email)) ==>
      (!verifyPassword(body.value.password, old(store.users)[u].passwordHash) ==> reply == InvalidCredentials) &&
      (verifyPassword(body.value.password, old(store.users)[u].passwordHash) && !old(store.users)[u].isEmailVerified ==>
        reply == EmailNotVerified) &&
      (verifyPassword(body.value.password, old(store.users)[u].passwordHash) && old(store.users)[u].isEmailVerified ==>
        reply.LoggedIn? && reply.userId == u)
    ensures !reply.LoggedIn? ==> unchanged(store)
    ensures reply.LoggedIn? ==>
      var u := reply.userId;
      u in old(store.users) &&
      store.users == old(store.users)[u := old(store.users)[u].(lastLogin := Some(now))] &&
      store.refreshTokens == LoginTokens(old(store.refreshTokens), u, now, pair.tokenHash, refreshTtlMs) &&
      store.verificationTokens == old(store.verificationTokens) && store.resetTokens == old(store.resetTokens) &&
      store.nextId == old(store.nextId) && store.nextTokenId == old(store.nextTokenId) &&
      Unrevoked(store.refreshTokens, u) == {pair.tokenHash} &&
      reply.access == Payload(Some(u), Some(RoleName(old(store.users)[u].role)), Some(now)) &&
      reply.accessCookie == CreateAuthCookie(vars, sign(reply.access), accessDays) &&
      reply.refreshCookie == CreateRefreshCookie(vars, pair.token, refreshDays)
    ensures reply.LoggedIn? && now != 0 ==>
      IsSessionValid(Some(reply.userId), Some(now), LastLogins(store.users), false)
    ensures reply.LoggedIn? ==> forall ts :: ts < now - Tolerance ==>
      !IsSessionValid(Some(reply.userId), Some(ts), LastLogins(store.users), false)
  {
    var v := Authenticate(store, rateOk, body, verifyPassword);
    if v.Refuse? {
      return v.reply;
    }
    var u := v.userId;
    var role := RoleName(store.users[u].role);
    IssueSession(store, u, now, pair.tokenHash, refreshTtlMs);
    SingleDevice(old(store.refreshTokens), u, now, pair.tokenHash, refreshTtlMs);
    LoginStamp(store.users, u, now);
    var payload := Payload(Some(u), Some(role), Some(now));
    reply := LoggedIn(u, payload, CreateAuthCookie(vars, sign(payload), accessDays), CreateRefreshCookie(vars, pair.token, refreshDays));
  }
}
