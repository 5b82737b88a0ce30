/**
 * POST /api/auth/resend-verification
 * (app/api/auth/resend-verification/route.js). The route is rate-limited
 * per client (3 requests per 15 minutes in production, 10 otherwise). An
 * unregistered address is answered 404, so the route tells whether an
 * address is registered. A probe reports the verified flag and writes
 * nothing; otherwise every verification token of the user is deleted and
 * exactly one new one is created, whether or not the user is verified.
 */
module AuthResendVerification {
  import opened Common
  import opened SessionValidator
  import opened AuthStore
  import opened Tokens
  import opened Env
  import RL = RateLimit

  /** The body after validation; probeOnly is body.probeOnly when it is a boolean. */
  datatype ResendInput = ResendInput(email: string, probeOnly: Option<bool>)

  datatype ResendReply =
    | ResendTooMany            // 429
    | EmptyBodyRejected        // 400
    | InvalidJsonRejected      // 400
    | InvalidEmail             // 400
    | NotRegistered            // 404
    | ProbeStatus(verified: bool)
    | LinkSent

  const ResendName := "resend-verification"
  const ResendWindowMs := 15 * 60 * 1000

  /** The limiter's max: 3 in production, 10 otherwise. */
  function ResendMax(vars: Vars): (m: nat)
    ensures IsProd(vars) ==> m == 3
    ensures !IsProd(vars) ==> m == 10
  {
    if IsProd(vars) then 3 else 10
  }

  /** A probe: the x-probe-only header is 'true' in any case, or body.probeOnly is true. */
  predicate IsProbe(header: Option<string>, probeOnly: Option<bool>)
  {
    (header.Some? && Lower(header.value) == "true") || probeOnly == Some(true)
  }

  /**
   * The answer to a request the limiter let through, and the verification
   * tokens after it: tokenHash and expiresAt are those of the new row, id0
   * its id.
   */
  ghost predicate Answered(users: map<nat, User>, tokens0: map<nat, TokenRow>, id0: nat, body: Body<ResendInput>,
                           header: Option<string>, tokenHash: string, expiresAt: Time,
                           reply: ResendReply, tokens: map<nat, TokenRow>)
  {
    match body
    case EmptyBody => reply == EmptyBodyRejected && tokens == tokens0
    case InvalidJson => reply == InvalidJsonRejected && tokens == tokens0
    case SchemaFailed => reply == InvalidEmail && tokens == tokens0
    case Parsed(v) =>
      (UsersWithEmail(users, Lower(v.email)) == {} ==> reply == NotRegistered && tokens == tokens0) &&
      forall u :: u in UsersWithEmail(users, Lower(v.email)) ==>
        if IsProbe(header, v.probeOnly) then reply == ProbeStatus(users[u].isEmailVerified) && tokens == tokens0
        else reply == LinkSent && tokens == DropTokensOf(tokens0, u)[id0 := TokenRow(u, tokenHash, expiresAt)]
  }

  /** After a resend the user has exactly one verification token, the new one, and no one else lost any. */
  lemma ResendLeavesOneToken(users: map<nat, User>, tokens0: map<nat, TokenRow>, id0: nat, body: Body<ResendInput>,
                             header: Option<string>, tokenHash: string, expiresAt: Time,
                             reply: ResendReply, tokens: map<nat, TokenRow>, u: nat)
    requires Answered(users, tokens0, id0, body, header, tokenHash, expiresAt, reply, tokens)
    requires body.Parsed? && u in UsersWithEmail(users, Lower(body.value.email)) && reply == LinkSent
    ensures TokensOfUser(tokens, u) == {id0} && tokens[id0].tokenHash == tokenHash
    ensures forall i :: i in tokens0 && tokens0[i].userId != u && i != id0 ==> i in tokens && tokens[i] == tokens0[i]
  {
    assert tokens == DropTokensOf(tokens0, u)[id0 := TokenRow(u, tokenHash, expiresAt)];
    forall i | i in TokensOfUser(tokens, u) ensures i == id0 {
    }
  }

  /** The writes of a resend: the user's rows deleted, one created. */
  method ReplaceVerificationToken(store: Store, u: nat, tokenHash: string, expiresAt: Time)
    requires store.Valid() && u in store.users
    modifies store
    ensures store.Valid()
    ensures store.verificationTokens ==
      DropTokensOf(old(store.verificationTokens), u)[old(store.nextTokenId) := TokenRow(u, tokenHash, expiresAt)]
    ensures store.nextTokenId == old(store.nextTokenId) + 1
    ensures store.users == old(store.users) && store.refreshTokens == old(store.refreshTokens)
    ensures store.resetTokens == old(store.resetTokens) && store.nextId == old(store.nextId)
  {
    var id := store.nextTokenId;
    store.verificationTokens := DropTokensOf(store.verificationTokens, u)[id := TokenRow(u, tokenHash, expiresAt)];
    store.nextTokenId := id + 1;
  }

  /** Everything after the rate limit. */
  method ResendAllowed(store: Store, body: Body<ResendInput>, header: Option<string>, now: Time, pair: TokenPair,
                       verificationTtlMs: int)
    returns (reply: ResendReply)
    requires store.Valid()
    modifies store
    ensures store.Valid()
    ensures reply != LinkSent ==> unchanged(store)
    ensures Answered(old(store.users), old(store.verificationTokens), old(store.nextTokenId), body, header,
                     pair.tokenHash, ExpiresAt(now, verificationTtlMs), reply, store.verificationTokens)
    ensures store.users == old(store.users) && store.refreshTokens == old(store.refreshTokens)
    ensures store.resetTokens == old(store.resetTokens) && store.nextId == old(store.nextId)
  {
    match body
    case EmptyBody => return EmptyBodyRejected;
    case InvalidJson => return InvalidJsonRejected;
    case SchemaFailed => return InvalidEmail;
    case Parsed(v) =>
      var found := store.FindByEmail(Lower(v.email));
      if found.None? {
        return NotRegistered;
      }
      var u := found.value;
      if IsProbe(header, v.probeOnly) {
        return ProbeStatus(store.users[u].isEmailVerified);
      }
      ReplaceVerificationToken(store, u, pair.tokenHash, ExpiresAt(now, verificationTtlMs));
      reply := LinkSent;
  }

  /** The route: the limiter's check for the client ip, then the rest. */
  method ResendVerification(store: Store, limiter: RL.Limiter, vars: Vars, ip: string, now: Time,
                            body: Body<ResendInput>, header: Option<string>, pair: TokenPair, verificationTtlMs: int)
    returns (reply: ResendReply)
    requires store.Valid()
    modifies store, limiter
    ensures store.Valid()
    ensures limiter.stores == RL.Next(old(limiter.stores), ResendName, ResendWindowMs, ip, now)
    ensures reply == ResendTooMany <==>
      RL.Count(limiter.stores, RL.WindowKey(ResendName, RL.WindowIndex(now, ResendWindowMs)), ip) > ResendMax(vars)
    ensures !reply.LinkSent? ==> unchanged(store)
    ensures reply != ResendTooMany ==>
      Answered(old(store.users), old(store.verificationTokens), old(store.nextTokenId), body, header,
               pair.tokenHash, ExpiresAt(now, verificationTtlMs), reply, store.verificationTokens)
    ensures store.users == old(store.users) && store.refreshTokens == old(store.refreshTokens)
    ensures store.resetTokens == old(store.resetTokens) && store.nextId == old(store.nextId)
  {
    var res := limiter.Check(ResendName, ResendWindowMs, ResendMax(vars), ip, now);
    if !res.ok {
      return ResendTooMany;
    }
    reply := ResendAllowed(store, body, header, now, pair, verificationTtlMs);
  }
}
