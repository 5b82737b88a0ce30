/**
 * /api/auth/reset-password (app/api/auth/reset-password/route.js). GET
 * checks a reset link without consuming it; POST checks it the same way,
 * then stores the new password hash and deletes every reset token of the
 * user in one transaction, so a link works at most once. Hashing and the
 * clock are parameters; the notification e-mail is not modelled.
 */
module AuthResetPassword {
  import opened Common
  import opened SessionValidator
  import opened AuthStore

  /** The link's query after validation. */
  datatype ResetQuery = ResetQuery(token: string, email: string)

  /** The POST body after validation. */
  datatype ResetInput = ResetInput(email: string, token: string, newPassword: string)

  /** What the lookup of a presented reset token finds. */
  datatype TokenCheck = NoUser | NoToken | Expired | Live(userId: nat)

  datatype ResetReply =
    | EmptyBodyRejected     // 400
    | InvalidJsonRejected   // 400
    | ValidationFailed      // 400
    | InvalidLink           // 404 'Invalid reset link'
    | TokenInvalid          // 404 'Invalid or expired reset token'
    | LinkExpired           // 410
    | TokenValid            // 200, GET
    | PasswordReset         // 200, POST

  /** The reply for a lookup that did not find a live token. */
  function Refusal(c: TokenCheck): (r: ResetReply)
    requires !c.Live?
    ensures r == InvalidLink <==> c == NoUser
    ensures r == TokenInvalid <==> c == NoToken
    ensures r == LinkExpired <==> c == Expired
  {
    match c
    case NoUser => InvalidLink
    case NoToken => TokenInvalid
    case Expired => LinkExpired
  }

  /**
   * The lookup both handlers do: the user with the lower-cased e-mail, one
   * of their reset rows carrying the hash (findFirst: any of them), and its
   * expiry against now.
   */
  method CheckResetToken(store: Store, email: string, tokenHash: string, now: Time) returns (c: TokenCheck)
    requires store.Valid()
    ensures UsersWithEmail(store.users, Lower(email)) == {} <==> c == NoUser
    ensures forall u :: u in UsersWithEmail(store.users, Lower(email)) ==>
      var ids := Matching(store.resetTokens, u, tokenHash);
      (ids == {} <==> c == NoToken) &&
      (ids != {} ==> c == Expired || c == Live(u)) &&
      (c == Expired ==> exists i :: i in ids && now > store.resetTokens[i].expiresAt) &&
      (c.Live? ==> c.userId == u && exists i :: i in ids && now <= store.resetTokens[i].expiresAt)
  {
    var found := store.FindByEmail(Lower(email));
    if found.None? {
      return NoUser;
    }
    var u := found.value;
    var record := Store.FindToken(store.resetTokens, u, tokenHash);
    if record.None? {
      return NoToken;
    }
    if now > store.resetTokens[record.value].expiresAt {
      return Expired;
    }
    return Live(u);
  }

  /** GET: the check, with nothing written. query is None when the query string fails validation. */
  method ValidateLink(store: Store, query: Option<ResetQuery>, sha256Hex: string -> string, now: Time)
    returns (reply: ResetReply)
    requires store.Valid()
    ensures query.None? ==> reply == ValidationFailed
    ensures query.Some? && UsersWithEmail(store.users, Lower(query.value.email)) == {} ==> reply == InvalidLink
    ensures query.Some? ==> forall u :: u in UsersWithEmail(store.users, Lower(query.value.email)) ==>
      var ids := Matching(store.resetTokens, u, sha256Hex(query.value.token));
      (ids == {} <==> reply == TokenInvalid) &&
      (ids != {} ==> reply == LinkExpired || reply == TokenValid) &&
      (reply == LinkExpired ==> exists i :: i in ids && now > store.resetTokens[i].expiresAt) &&
      (reply == TokenValid ==> exists i :: i in ids && now <= store.resetTokens[i].expiresAt)
  {
    if query.None? {
      return ValidationFailed;
    }
    var c := CheckResetToken(store, query.value.email, sha256Hex(query.value.token), now);
    if c.Live? {
      return TokenValid;
    }
    return Refusal(c);
  }

  /** The reset transaction: the new hash, and none of the user's reset tokens left. */
  method ApplyReset(store: Store, u: nat, passwordHash: string)
    requires store.Valid() && u in store.users
    modifies store
    ensures store.Valid()
    ensures store.users == old(store.users)[u := old(store.users)[u].(passwordHash := passwordHash)]
    ensures store.resetTokens == DropTokensOf(old(store.resetTokens), u)
    ensures forall h :: Matching(store.resetTokens, u, h) == {}
    ensures store.refreshTokens == old(store.refreshTokens) && store.verificationTokens == old(store.verificationTokens)
    ensures store.nextId == old(store.nextId) && store.nextTokenId == old(store.nextTokenId)
  {
    var row := store.users[u].(passwordHash := passwordHash);
    RewriteUserKeepsValid(store.users, store.refreshTokens, store.verificationTokens, store.resetTokens,
                          store.nextId, store.nextTokenId, u, row, false, true);
    store.users, store.resetTokens := store.users[u := row], DropTokensOf(store.resetTokens, u);
    forall h ensures Matching(store.resetTokens, u, h) == {} {
      DroppedMatchesNothing(old(store.resetTokens), u, h);
    }
  }

  /** POST. */
  method ResetPassword(store: Store, body: Body<ResetInput>, sha256Hex: string -> string,
                       hashPassword: string -> string, now: Time)
    returns (reply: ResetReply)
    requires store.Valid()
    modifies store
    ensures store.Valid()
    ensures reply != PasswordReset ==> unchanged(store)
    ensures body.EmptyBody? ==> reply == EmptyBodyRejected
    ensures body.InvalidJson? ==> reply == InvalidJsonRejected
    ensures body.SchemaFailed? ==> reply == ValidationFailed
    ensures body.Parsed? && UsersWithEmail(old(store.users), Lower(body.value.email)) == {} ==> reply == InvalidLink
    ensures body.Parsed? ==> forall u :: u in UsersWithEmail(old(store.users), Lower(body.value.email)) ==>
      var ids := Matching(old(store.resetTokens), u, sha256Hex(body.value.token));
      (ids == {} <==> reply == TokenInvalid) &&
      (ids != {} ==> reply == LinkExpired || reply == PasswordReset) &&
      (reply == LinkExpired ==> exists i :: i in ids && now > old(store.resetTokens)[i].expiresAt) &&
      (reply == PasswordReset ==>
        (exists i :: i in ids && now <= old(store.resetTokens)[i].expiresAt) &&
        store.users == old(store.users)[u := old(store.users)[u].(passwordHash := hashPassword(body.value.newPassword))] &&
        store.resetTokens == DropTokensOf(old(store.resetTokens), u) &&
        forall h :: Matching(store.resetTokens, u, h) == {})
    ensures store.refreshTokens == old(store.refreshTokens) && store.verificationTokens == old(store.verificationTokens)
    ensures store.nextId == old(store.nextId) && store.nextTokenId == old(store.nextTokenId)
  {
    match body
    case EmptyBody => return EmptyBodyRejected;
    case InvalidJson => return InvalidJsonRejected;
    case SchemaFailed => return ValidationFailed;
    case Parsed(v) =>
      var c := CheckResetToken(store, v.email, sha256Hex(v.token), now);
      if !c.Live? {
        return Refusal(c);
      }
      ApplyReset(store, c.userId, hashPassword(v.newPassword));
      reply := PasswordReset;
  }
}
