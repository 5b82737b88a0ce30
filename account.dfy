/**
 * /api/account (app/api/account/route.js): the signed-in user edits or
 * deletes their own account. PATCH writes only the fields present in the
 * body, title-casing the names as registration does; null clears a
 * nullable field. DELETE removes the user, their tokens going with it, and
 * clears both cookies. Both handlers first run requireAuthAndSession.
 */
module Account {
  import opened Common
  import opened SessionValidator
  import opened AuthStore
  import opened NameCase
  import opened Cookies
  import opened Env
  import opened RequireAuth

  /**
   * The PATCH body after validation: fullName None when absent (it cannot
   * be null); the others Absent, Null or Given.
   */
  datatype AccountPatch = AccountPatch(
    fullName: Option<string>,
    phoneE164: Field<string>,
    placeOfBirth: Field<string>,
    dateOfBirth: Field<Time>,
    gender: Field<Gender>)

  datatype AccountReply =
    | AuthRejected(status: int, failure: AuthFailure)
    | EmptyBodyRejected       // 400
    | InvalidJsonRejected     // 400
    | ValidationFailed        // 400
    | NoFieldsToUpdate        // 400
    | AccountFailed           // 500: the user row is gone
    | Updated(user: User)
    | Deleted(cleared: seq<SetCookie>)

  /** A field of the body as the value to store, when present. */
  function Stored<T>(f: Field<T>, current: Option<T>): (r: Option<T>)
    ensures f.Absent? ==> r == current
    ensures f.Null? ==> r.None?
    ensures f.Given? ==> r == Some(f.value)
  {
    match f
    case Absent => current
    case Null => None
    case Given(v) => Some(v)
  }

  /** The place of birth as stored: title-cased when given. */
  function StoredPlace(f: Field<string>, current: Option<string>): (r: Option<string>)
    ensures f.Absent? ==> r == current
    ensures f.Null? ==> r.None?
    ensures f.Given? ==> r == Some(TitleCase(Trim(f.value)))
  {
    match f
    case Absent => current
    case Null => None
    case Given(v) => Some(TitleCase(Trim(v)))
  }

  /** The data object has at least one key. */
  predicate HasChanges(p: AccountPatch)
  {
    p.fullName.Some? || !p.phoneE164.Absent? || !p.placeOfBirth.Absent? || !p.dateOfBirth.Absent? || !p.gender.Absent?
  }

  /** The row after prisma.user.update with the built data. */
  function ApplyPatch(user: User, p: AccountPatch): (r: User)
    ensures r.email == user.email && r.passwordHash == user.passwordHash && r.role == user.role
    ensures r.isEmailVerified == user.isEmailVerified && r.lastLogin == user.lastLogin
    ensures p.fullName.None? ==> r.fullName == user.fullName
    ensures p.fullName.Some? ==> r.fullName == TitleCase(Trim(p.fullName.value))
    ensures r.phoneE164 == Stored(p.phoneE164, user.phoneE164)
    ensures r.placeOfBirth == StoredPlace(p.placeOfBirth, user.placeOfBirth)
    ensures r.dateOfBirth == Stored(p.dateOfBirth, user.dateOfBirth) && r.gender == Stored(p.gender, user.gender)
  {
    user.(fullName := if p.fullName.Some? then TitleCase(Trim(p.fullName.value)) else user.fullName,
          phoneE164 := Stored(p.phoneE164, user.phoneE164),
          placeOfBirth := StoredPlace(p.placeOfBirth, user.placeOfBirth),
          dateOfBirth := Stored(p.dateOfBirth, user.dateOfBirth),
          gender := Stored(p.gender, user.gender))
  }

  /** A patch with no field in it leaves the row as it is, which is why the route refuses it. */
  lemma EmptyPatchChangesNothing(user: User, p: AccountPatch)
    requires !HasChanges(p)
    ensures ApplyPatch(user, p) == user
  {
  }

  /** Sending the same patch twice stores what sending it once does. */
  lemma PatchIdempotent(user: User, p: AccountPatch)
    ensures ApplyPatch(ApplyPatch(user, p), p) == ApplyPatch(user, p)
  {
  }

  /** The write of a PATCH. */
  method WriteUser(store: Store, u: nat, row: User)
    requires store.Valid() && u in store.users && row.email == store.users[u].email
    modifies store
    ensures store.Valid()
    ensures store.users == old(store.users)[u := row]
    ensures store.refreshTokens == old(store.refreshTokens) && store.verificationTokens == old(store.verificationTokens)
    ensures store.resetTokens == old(store.resetTokens)
    ensures store.nextId == old(store.nextId) && store.nextTokenId == old(store.nextTokenId)
  {
    RewriteUserKeepsValid(store.users, store.refreshTokens, store.verificationTokens, store.resetTokens,
                          store.nextId, store.nextTokenId, u, row, false, false);
    store.users := store.users[u := row];
  }

  /** PATCH. The access token, its verification and the session check's failure are parameters. */
  method UpdateAccount(store: Store, token: string, verify: string -> Option<Payload>, failing: bool,
                       body: Body<AccountPatch>)
    returns (reply: AccountReply)
    requires store.Valid()
    modifies store
    ensures store.Valid()
    ensures !reply.Updated? ==> unchanged(store)
    ensures var auth := RequireAuthAndSession(token, verify, LastLogins(old(store.users)), failing);
      match auth
      case Rejected(f) => reply == AuthRejected(FailureStatus(f), f)
      case Authorized(payload) =>
        (body.EmptyBody? ==> reply == EmptyBodyRejected) &&
        (body.InvalidJson? ==> reply == InvalidJsonRejected) &&
        (body.SchemaFailed? ==> reply == ValidationFailed) &&
        (body.Parsed? && !HasChanges(body.value) ==> reply == NoFieldsToUpdate) &&
        (body.Parsed? && HasChanges(body.value) ==>
          var u := payload.sub.value;
          (u !in old(store.users) ==> reply == AccountFailed) &&
          (u in old(store.users) ==>
            reply == Updated(ApplyPatch(old(store.users)[u], body.value)) &&
            store.users == old(store.users)[u := ApplyPatch(old(store.users)[u], body.value)]))
    ensures store.refreshTokens == old(store.refreshTokens) && store.verificationTokens == old(store.verificationTokens)
    ensures store.resetTokens == old(store.resetTokens)
  {
    var auth := RequireAuthAndSession(token, verify, LastLogins(store.users), failing);
    if auth.Rejected? {
      return AuthRejected(FailureStatus(auth.failure), auth.failure);
    }
    match body
    case EmptyBody => return EmptyBodyRejected;
    case InvalidJson => return InvalidJsonRejected;
    case SchemaFailed => return ValidationFailed;
    case Parsed(p) =>
      if !HasChanges(p) {
        return NoFieldsToUpdate;
      }
      var u := auth.payload.sub.value;
      if u !in store.users {
        return AccountFailed;
      }
      var row := ApplyPatch(store.users[u], p);
      WriteUser(store, u, row);
      reply := Updated(row);
  }

  /** The user's refresh tokens deleted with the user (onDelete: Cascade). */
  function DropRefreshOf(tokens: map<string, RefreshRow>, userId: nat): (r: map<string, RefreshRow>)
    ensures forall h :: h in r <==> h in tokens && tokens[h].userId != userId
    ensures forall h :: h in r ==> r[h] == tokens[h]
  {
    map h | h in tokens && tokens[h].userId != userId :: tokens[h]
  }

  /** Deleting a user with their tokens keeps the tables valid and leaves nothing of theirs behind. */
  lemma DeleteKeepsValid(users: map<nat, User>, refreshTokens: map<string, RefreshRow>,
                         verificationTokens: map<nat, TokenRow>, resetTokens: map<nat, TokenRow>,
                         nextId: nat, nextTokenId: nat, u: nat)
    requires TablesValid(users, refreshTokens, verificationTokens, resetTokens, nextId, nextTokenId)
    ensures TablesValid(users - {u}, DropRefreshOf(refreshTokens, u), DropTokensOf(verificationTokens, u),
                        DropTokensOf(resetTokens, u), nextId, nextTokenId)
    ensures Unrevoked(DropRefreshOf(refreshTokens, u), u) == {}
    ensures TokensOfUser(DropTokensOf(verificationTokens, u), u) == {} && TokensOfUser(DropTokensOf(resetTokens, u), u) == {}
  {
    DropKeepsOwned(verificationTokens, users, nextTokenId, u);
    DropKeepsOwned(resetTokens, users, nextTokenId, u);
    forall h | h in Unrevoked(DropRefreshOf(refreshTokens, u), u) ensures false {
    }
    forall i | i in TokensOfUser(DropTokensOf(verificationTokens, u), u) ensures false {
    }
    forall i | i in TokensOfUser(DropTokensOf(resetTokens, u), u) ensures false {
    }
  }

  /** The delete with its cascade. */
  method RemoveUser(store: Store, u: nat)
    requires store.Valid()
    modifies store
    ensures store.Valid()
    ensures store.users == old(store.users) - {u}
    ensures store.refreshTokens == DropRefreshOf(old(store.refreshTokens), u)
    ensures store.verificationTokens == DropTokensOf(old(store.verificationTokens), u)
    ensures store.resetTokens == DropTokensOf(old(store.resetTokens), u)
    ensures store.nextId == old(store.nextId) && store.nextTokenId == old(store.nextTokenId)
  {
    DeleteKeepsValid(store.users, store.refreshTokens, store.verificationTokens, store.resetTokens,
                     store.nextId, store.nextTokenId, u);
    store.users, store.refreshTokens := store.users - {u}, DropRefreshOf(store.refreshTokens, u);
    store.verificationTokens, store.resetTokens := DropTokensOf(store.verificationTokens, u), DropTokensOf(store.resetTokens, u);
  }

  /** DELETE. */
  method DeleteAccount(store: Store, vars: Vars, token: string, verify: string -> Option<Payload>, failing: bool)
    returns (reply: AccountReply)
    requires store.Valid()
    modifies store
    ensures store.Valid()
    ensures !reply.Deleted? ==> unchanged(store)
    ensures var auth := RequireAuthAndSession(token, verify, LastLogins(old(store.users)), failing);
      match auth
      case Rejected(f) => reply == AuthRejected(FailureStatus(f), f)
      case Authorized(payload) =>
        var u := payload.sub.value;
        (u !in old(store.users) ==> reply == AccountFailed) &&
        (u in old(store.users) ==>
          reply == Deleted([ClearAuthCookie(vars), ClearRefreshCookie(vars)]) &&
          store.users == old(store.users) - {u} &&
          store.refreshTokens == DropRefreshOf(old(store.refreshTokens), u) &&
          store.verificationTokens == DropTokensOf(old(store.verificationTokens), u) &&
          store.resetTokens == DropTokensOf(old(store.resetTokens), u))
  {
    var auth := RequireAuthAndSession(token, verify, LastLogins(store.users), failing);
    if auth.Rejected? {
      return AuthRejected(FailureStatus(auth.failure), auth.failure);
    }
    var u := auth.payload.sub.value;
    if u !in store.users {
      return AccountFailed;
    }
    RemoveUser(store, u);
    reply := Deleted([ClearAuthCookie(vars), ClearRefreshCookie(vars)]);
  }
}
