/**
 * GET /api/auth/verify-email (app/api/auth/verify-email/route.js). The
 * link carries the raw token and the e-mail. An already verified user is
 * answered with success before any token check; otherwise a token row of
 * the user carrying the token's hash must exist and be unexpired, and then
 * the user is marked verified and all of their verification tokens are
 * deleted in one transaction.
 */
module AuthVerifyEmail {
  import opened Common
  import opened SessionValidator
  import opened AuthStore

  /** The query after validation: a non-empty token and an e-mail. */
  datatype VerifyQuery = VerifyQuery(token: string, email: string)

  datatype VerifyReply =
    | QueryInvalid      // 400
    | UnknownEmail      // 404 'Invalid verification link'
    | AlreadyVerified   // 200
    | TokenInvalid      // 404 'Invalid or expired verification token'
    | LinkExpired       // 410
    | Verified          // 200

  /** The user row once its e-mail is verified. */
  function MarkedVerified(users: map<nat, User>, u: nat): (r: map<nat, User>)
    requires u in users
    ensures r.Keys == users.Keys && r[u].isEmailVerified
    ensures r[u] == users[u].(isEmailVerified := true)
    ensures forall w :: w in users && w != u ==> r[w] == users[w]
  {
    users[u := users[u].(isEmailVerified := true)]
  }

  /** The writes of a successful verification. */
  method MarkVerified(store: Store, u: nat)
    requires store.Valid() && u in store.users
    modifies store
    ensures store.Valid()
    ensures store.users == MarkedVerified(old(store.users), u)
    ensures store.verificationTokens == DropTokensOf(old(store.verificationTokens), u)
    ensures forall h :: Matching(store.verificationTokens, u, h) == {}
    ensures store.refreshTokens == old(store.refreshTokens) && store.resetTokens == old(store.resetTokens)
    ensures store.nextId == old(store.nextId) && store.nextTokenId == old(store.nextTokenId)
  {
    RewriteUserKeepsValid(store.users, store.refreshTokens, store.verificationTokens, store.resetTokens,
                          store.nextId, store.nextTokenId, u, store.users[u].(isEmailVerified := true), true, false);
    store.users, store.verificationTokens := MarkedVerified(store.users, u), DropTokensOf(store.verificationTokens, u);
    forall h ensures Matching(store.verificationTokens, u, h) == {} {
      DroppedMatchesNothing(old(store.verificationTokens), u, h);
    }
  }

  /** The route. query is None when the query string fails validation. */
  method VerifyEmail(store: Store, query: Option<VerifyQuery>, sha256Hex: string -> string, now: Time)
    returns (reply: VerifyReply)
    requires store.Valid()
    modifies store
    ensures store.Valid()
    ensures reply != Verified ==> unchanged(store)
    ensures query.None? ==> reply == QueryInvalid
    ensures query.Some? && UsersWithEmail(old(store.users), Lower(query.value.email)) == {} ==> reply == UnknownEmail
    ensures query.Some? ==> forall u :: u in UsersWithEmail(old(store.users), Lower(query.value.email)) ==>
      var ids := Matching(old(store.verificationTokens), u, sha256Hex(query.value.token));
      (old(store.users)[u].isEmailVerified ==> reply == AlreadyVerified) &&
      (!old(store.users)[u].isEmailVerified && ids == {} ==> reply == TokenInvalid) &&
      (!old(store.users)[u].isEmailVerified && ids != {} ==> reply == LinkExpired || reply == Verified) &&
      (reply == LinkExpired ==> exists i :: i in ids && now > old(store.verificationTokens)[i].expiresAt) &&
      (reply == Verified ==>
        (exists i :: i in ids && now <= old(store.verificationTokens)[i].expiresAt) &&
        store.users == MarkedVerified(old(store.users), u) &&
        store.verificationTokens == DropTokensOf(old(store.verificationTokens), u) &&
        forall h :: Matching(store.verificationTokens, u, h) == {})
    ensures store.refreshTokens == old(store.refreshTokens) && store.resetTokens == old(store.resetTokens)
    ensures store.nextId == old(store.nextId) && store.nextTokenId == old(store.nextTokenId)
  {
    if query.None? {
      return QueryInvalid;
    }
    var found := store.FindByEmail(Lower(query.value.email));
    if found.None? {
      return UnknownEmail;
    }
    var u := found.value;
    if store.users[u].isEmailVerified {
      return AlreadyVerified;
    }
    var record := Store.FindToken(store.verificationTokens, u, sha256Hex(query.value.token));
    if record.None? {
      return TokenInvalid;
    }
    if now > store.verificationTokens[record.value].expiresAt {
      return LinkExpired;
    }
    MarkVerified(store, u);
    reply := Verified;
  }
}
