/**
 * POST /api/auth/forgot-password (app/api/auth/forgot-password/route.js).
 * Apart from the rate limit, the route answers with the same generic body
 * whatever happens, so the reply does not reveal whether an address is
 * registered; a reset token is created only for an existing, verified
 * user. Sending the e-mail is best-effort and not modelled.
 */
module AuthForgotPassword {
  import opened Common
  import opened SessionValidator
  import opened AuthStore
  import opened Tokens

  datatype ForgotInput = ForgotInput(email: string)

  datatype ForgotReply = ForgotTooMany | ResetLinkMaybeSent

  /** The user a reset token is issued for: the owner of the lower-cased e-mail, when verified. */
  predicate IssuesFor(users: map<nat, User>, body: Body<ForgotInput>, u: nat)
  {
    body.Parsed? && u in UsersWithEmail(users, Lower(body.value.email)) && users[u].isEmailVerified
  }

  /** The one write of the route: the reset token row. */
  method AddResetToken(store: Store, u: nat, tokenHash: string, expiresAt: Time)
    requires store.Valid() && u in store.users
    modifies store
    ensures store.Valid()
    ensures old(store.nextTokenId) !in old(store.resetTokens)
    ensures store.resetTokens == old(store.resetTokens)[old(store.nextTokenId) := TokenRow(u, tokenHash, expiresAt)]
    ensures store.nextTokenId == old(store.nextTokenId) + 1
    ensures store.users == old(store.users) && store.refreshTokens == old(store.refreshTokens)
    ensures store.verificationTokens == old(store.verificationTokens) && store.nextId == old(store.nextId)
  {
    var id := store.nextTokenId;
    store.resetTokens, store.nextTokenId := store.resetTokens[id := TokenRow(u, tokenHash, expiresAt)], id + 1;
  }

  /** The route. resetTtlMs is what Env reads for the reset link's lifetime. */
  method ForgotPassword(store: Store, rateOk: bool, body: Body<ForgotInput>, now: Time, pair: TokenPair, resetTtlMs: int)
    returns (reply: ForgotReply)
    requires store.Valid()
    modifies store
    ensures store.Valid()
    ensures !rateOk ==> reply == ForgotTooMany
    ensures rateOk ==> reply == ResetLinkMaybeSent
    ensures store.users == old(store.users) && store.refreshTokens == old(store.refreshTokens)
    ensures store.verificationTokens == old(store.verificationTokens) && store.nextId == old(store.nextId)
    ensures (!rateOk || forall u :: !IssuesFor(old(store.users), body, u)) ==> unchanged(store)
    ensures forall u :: rateOk && IssuesFor(old(store.users), body, u) ==>
      store.resetTokens == old(store.resetTokens)[old(store.nextTokenId) := TokenRow(u, pair.tokenHash, ExpiresAt(now, resetTtlMs))]
  {
    if !rateOk {
      return ForgotTooMany;
    }
    if !body.Parsed? {
      return ResetLinkMaybeSent;
    }
    var found := store.FindByEmail(Lower(body.value.email));
    if found.None? || !store.users[found.value].isEmailVerified {
      return ResetLinkMaybeSent;
    }
    assert IssuesFor(store.users, body, found.value);
    AddResetToken(store, found.value, pair.tokenHash, ExpiresAt(now, resetTtlMs));
    reply := ResetLinkMaybeSent;
  }
}
