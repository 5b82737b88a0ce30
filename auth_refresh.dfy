/**
 * POST /api/auth/refresh (app/api/auth/refresh/route.js): refresh token
 * rotation. The presented token must exist, be unrevoked and unexpired,
 * and belong to an existing user; then the user's revoked tokens older
 * than the retention cutoff are deleted, the presented token is revoked
 * and linked to its successor, and the successor is issued. Every refusal
 * clears both cookies.
 */
module AuthRefresh {
  import opened Common
  import opened SessionValidator
  import opened AuthStore
  import opened Tokens
  import opened Env
  import opened Cookies

  datatype RefreshFailure = MissingToken | InvalidRefresh | ExpiredRefresh

  /** What the checks decide about a presented token: its owner, or why it is refused. */
  datatype Decision = Owner(userId: nat) | Refused(failure: RefreshFailure)

  datatype RefreshReply =
    | RefreshRejected(failure: RefreshFailure, cleared: seq<SetCookie>)
    | Refreshed(access: Payload, accessCookie: SetCookie, refreshCookie: SetCookie)

  /** The checks on a presented token hash: the owner, or why it is refused. */
  function Decide(tokens: map<string, RefreshRow>, users: map<nat, User>, tokenHash: string, now: Time): (r: Decision)
    ensures r.Owner? <==>
      tokenHash in tokens && tokens[tokenHash].revokedAt.None? && now <= tokens[tokenHash].expiresAt &&
      tokens[tokenHash].userId in users
    ensures r.Owner? ==> r.userId == tokens[tokenHash].userId
    ensures r == Refused(ExpiredRefresh) <==>
      tokenHash in tokens && tokens[tokenHash].revokedAt.None? && now > tokens[tokenHash].expiresAt
  {
    if tokenHash !in tokens || tokens[tokenHash].revokedAt.Some? then Refused(InvalidRefresh)
    else if now > tokens[tokenHash].expiresAt then Refused(ExpiredRefresh)
    else if tokens[tokenHash].userId !in users then Refused(InvalidRefresh)
    else Owner(tokens[tokenHash].userId)
  }

  /** deleteMany({ where: { userId, revokedAt: { lt: cutoff } } }). */
  function PruneRevoked(tokens: map<string, RefreshRow>, userId: nat, cutoff: Time): (r: map<string, RefreshRow>)
    ensures forall h :: h in r <==>
      h in tokens && !(tokens[h].userId == userId && tokens[h].revokedAt.Some? && tokens[h].revokedAt.value < cutoff)
    ensures forall h :: h in r ==> r[h] == tokens[h]
  {
    map h | h in tokens && !(tokens[h].userId == userId && tokens[h].revokedAt.Some? && tokens[h].revokedAt.value < cutoff) :: tokens[h]
  }

  /** The rotation transaction: revoke the presented token, pointing at its successor, and create the successor. */
  function Rotate(tokens: map<string, RefreshRow>, oldHash: string, newHash: string, userId: nat, now: Time, expiresAt: Time): (r: map<string, RefreshRow>)
    requires oldHash in tokens
  {
    tokens[oldHash := tokens[oldHash].(revokedAt := Some(now), replacedBy := Some(newHash))][newHash := RefreshRow(userId, expiresAt, None, None)]
  }

  /** The refresh tokens after a successful refresh. */
  function RefreshTokens(tokens: map<string, RefreshRow>, oldHash: string, newHash: string, userId: nat, now: Time, cutoff: Time, ttl: int): (r: map<string, RefreshRow>)
    requires oldHash in tokens && tokens[oldHash].revokedAt.None?
  {
    Rotate(PruneRevoked(tokens, userId, cutoff), oldHash, newHash, userId, now, now + ttl)
  }

  /**
   * Rotation is one-time: the presented token is revoked and names its
   * successor, which is live; presenting the old token again is refused.
   */
  lemma ReplayRejected(tokens: map<string, RefreshRow>, users: map<nat, User>, oldHash: string, newHash: string,
                       userId: nat, now: Time, cutoff: Time, ttl: int, later: Time)
    requires oldHash in tokens && tokens[oldHash].revokedAt.None? && oldHash != newHash
    ensures var r := RefreshTokens(tokens, oldHash, newHash, userId, now, cutoff, ttl);
      oldHash in r && r[oldHash].revokedAt == Some(now) && r[oldHash].replacedBy == Some(newHash) &&
      newHash in r && r[newHash] == RefreshRow(userId, now + ttl, None, None) &&
      Decide(r, users, oldHash, later) == Refused(InvalidRefresh)
  {
    assert oldHash in PruneRevoked(tokens, userId, cutoff);
  }

  /** Rows of other users, other than the presented one, are kept as they were. */
  lemma RefreshKeepsOthers(tokens: map<string, RefreshRow>, oldHash: string, newHash: string, userId: nat,
                           now: Time, cutoff: Time, ttl: int, h: string)
    requires oldHash in tokens && tokens[oldHash].revokedAt.None?
    requires h in tokens && h != oldHash && h != newHash && tokens[h].userId != userId
    ensures h in RefreshTokens(tokens, oldHash, newHash, userId, now, cutoff, ttl)
    ensures RefreshTokens(tokens, oldHash, newHash, userId, now, cutoff, ttl)[h] == tokens[h]
  {
  }

  /**
   * The lastLoginAt the new access token carries: the stored login time, or
   * now when there is none. A stored Date is truthy even at the epoch, so a
   * lastLogin of 0 is carried as 0.
   */
  function LoginStamp(lastLogin: Option<Time>, now: Time): (ts: Time)
    ensures lastLogin.Some? ==> ts == lastLogin.value
    ensures lastLogin.None? ==> ts == now
  {
    if lastLogin.Some? then lastLogin.value else now
  }

  /**
   * A user whose stored lastLogin is the epoch gets an access token stamped
   * 0, which the session check then refuses as a missing login time.
   */
  lemma EpochLoginRefreshRejected(users: map<nat, User>, u: nat, now: Time)
    requires u in users && users[u].lastLogin == Some(0)
    ensures LoginStamp(users[u].lastLogin, now) == 0
    ensures !IsSessionValid(Some(u), Some(LoginStamp(users[u].lastLogin, now)), LastLogins(users), false)
  {
  }

  /** A refreshed access token passes the session check as long as no newer login happened. */
  lemma RefreshedTokenValid(users: map<nat, User>, u: nat, now: Time)
    requires u in users && now != 0
    requires users[u].lastLogin.None? || users[u].lastLogin.value != 0
    ensures IsSessionValid(Some(u), Some(LoginStamp(users[u].lastLogin, now)), LastLogins(users), false)
  {
  }

  /** The rotation writes of a successful refresh. */
  method RotateToken(store: Store, oldHash: string, newHash: string, userId: nat, now: Time, cutoff: Time, ttl: int)
    requires store.Valid() && userId in store.users
    requires oldHash in store.refreshTokens && store.refreshTokens[oldHash].revokedAt.None?
    modifies store
    ensures store.Valid()
    ensures store.refreshTokens == RefreshTokens(old(store.refreshTokens), oldHash, newHash, userId, now, cutoff, ttl)
    ensures store.users == old(store.users) && store.nextId == old(store.nextId) && store.nextTokenId == old(store.nextTokenId)
    ensures store.verificationTokens == old(store.verificationTokens) && store.resetTokens == old(store.resetTokens)
  {
    assert oldHash in PruneRevoked(store.refreshTokens, userId, cutoff);
    store.refreshTokens := RefreshTokens(store.refreshTokens, oldHash, newHash, userId, now, cutoff, ttl);
  }

  method Refresh(store: Store, vars: Vars, cookieHeader: Option<string>, sha256Hex: string -> string,
                 now: Time, pair: TokenPair, refreshTtlMs: int, sign: Payload -> string, accessDays: int, refreshDays: int)
    returns (reply: RefreshReply)
    requires store.Valid()
    requires pair.tokenHash !in store.refreshTokens
    modifies store
    ensures store.Valid()
    ensures reply.RefreshRejected? ==>
      unchanged(store) && reply.cleared == [ClearAuthCookie(vars), ClearRefreshCookie(vars)]
    ensures RefreshFromRequest(vars, cookieHeader) == "" ==> reply.RefreshRejected? && reply.failure == MissingToken
    ensures var raw := RefreshFromRequest(vars, cookieHeader);
      raw != "" ==> match Decide(old(store.refreshTokens), old(store.users), sha256Hex(raw), now)
        case Refused(f) => reply.RefreshRejected? && reply.failure == f
        case Owner(u) =>
          reply.Refreshed? &&
          store.refreshTokens == RefreshTokens(old(store.refreshTokens), sha256Hex(raw), pair.tokenHash, u, now,
                                               RevokedPruneCutoff(vars, now), refreshTtlMs) &&
          store.users == old(store.users) &&
          reply.access == Payload(Some(u), Some(RoleName(store.users[u].role)), Some(LoginStamp(store.users[u].lastLogin, now))) &&
          reply.accessCookie == CreateAuthCookie(vars, sign(reply.access), accessDays) &&
          reply.refreshCookie == CreateRefreshCookie(vars, pair.token, refreshDays)
    ensures store.verificationTokens == old(store.verificationTokens) && store.resetTokens == old(store.resetTokens)
    ensures store.nextId == old(store.nextId) && store.nextTokenId == old(store.nextTokenId)
  {
    var cleared := [ClearAuthCookie(vars), ClearRefreshCookie(vars)];
    var raw := RefreshFromRequest(vars, cookieHeader);
    if raw == "" {
      return RefreshRejected(MissingToken, cleared);
    }
    var tokenHash := sha256Hex(raw);
    var d := Decide(store.refreshTokens, store.users, tokenHash, now);
    if d.Refused? {
      return RefreshRejected(d.failure, cleared);
    }
    var u := d.userId;
    RotateToken(store, tokenHash, pair.tokenHash, u, now, RevokedPruneCutoff(vars, now), refreshTtlMs);
    var access := Payload(Some(u), Some(RoleName(store.users[u].role)), Some(LoginStamp(store.users[u].lastLogin, now)));
    reply := Refreshed(access, CreateAuthCookie(vars, sign(access), accessDays), CreateRefreshCookie(vars, pair.token, refreshDays));
  }
}
