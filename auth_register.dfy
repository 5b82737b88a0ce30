/**
 * POST /api/auth/register (app/api/auth/register/route.js). The body is
 * validated (the gender is upper-cased first), the date of birth must be at
 * least three years back, the e-mail domain must have MX records, and the
 * lower-cased e-mail must be free. Then an unverified user is created with
 * title-cased names, together with an e-mail verification token. Hashing,
 * the DNS lookup, the clock and the random token are parameters; sending
 * the e-mail is best-effort and not modelled.
 */
module AuthRegister {
  import opened Common
  import opened SessionValidator
  import opened AuthStore
  import opened Tokens
  import opened NameCase

  /**
   * A JSON body as the route reads it. dateOfBirth is the instant the
   * string parses to, None when it is not a date; gender is the raw text.
   */
  datatype RegisterInput = RegisterInput(
    email: string,
    password: string,
    fullName: string,
    phoneE164: Option<string>,
    role: Option<Role>,
    placeOfBirth: string,
    dateOfBirth: Option<Time>,
    gender: string)

  datatype RegisterReply =
    | EmptyBodyRejected
    | InvalidJsonRejected
    | ValidationFailed
    | TooYoung
    | InvalidEmailDomain
    | NoMxRecords
    | EmailTaken
    | RegisterFailed
    | Registered(userId: nat, verifyToken: string)

  /** The gender after toUpperCase, if the enum accepts it. */
  function ParseGender(g: string): (r: Option<Gender>)
    ensures r == Some(Male) <==> Upper(g) == "MALE"
    ensures r == Some(Female) <==> Upper(g) == "FEMALE"
  {
    var u := Upper(g);
    if u == "MALE" then Some(Male) else if u == "FEMALE" then Some(Female) else None
  }

  /**
   * The schema: the trimmed full name at least one character, the trimmed
   * place of birth at least three, the gender one of the enum; formatOk
   * stands for the remaining format and length rules.
   */
  predicate SchemaAccepts(v: RegisterInput, formatOk: bool)
  {
    formatOk && |Trim(v.fullName)| >= 1 && |Trim(v.placeOfBirth)| >= 3 && ParseGender(v.gender).Some?
  }

  /** The date of birth is later than three years ago (an unparseable date never is). */
  predicate TooRecent(v: RegisterInput, threeYearsAgo: Time)
  {
    v.dateOfBirth.Some? && v.dateOfBirth.value > threeYearsAgo
  }

  /** String(email.split('@')[1] || '').trim(). */
  function EmailDomain(email: string): (d: string)
    ensures !Contains(email, '@') ==> d == ""
  {
    var parts := Split(email, '@');
    if |parts| >= 2 then Trim(parts[1]) else ""
  }

  /** An address local@domain with a single '@' has the trimmed domain as its domain. */
  lemma DomainOfAddress(local: string, domain: string)
    requires !Contains(local, '@') && !Contains(domain, '@')
    ensures EmailDomain(local + "@" + domain) == Trim(domain)
  {
    var s := local + "@" + domain;
    assert s[|local|] == '@';
    assert forall i :: 0 <= i < |local| ==> s[i] == local[i];
    assert IndexOf(s, '@') == Some(|local|);
    assert s[..|local|] == local && s[|local| + 1..] == domain;
    assert Split(domain, '@') == [domain];
    assert Split(s, '@') == [local] + Split(domain, '@');
  }

  /** The user row that is created. */
  function NewUser(v: RegisterInput, passwordHash: string, dob: Time, gender: Gender): (u: User)
    ensures u.email == Lower(v.email) && !u.isEmailVerified && u.lastLogin.None?
    ensures u.role == (if v.role.Some? then v.role.value else Student)
    ensures u.fullName == TitleCase(Trim(v.fullName)) && u.placeOfBirth == Some(TitleCase(Trim(v.placeOfBirth)))
    ensures u.dateOfBirth == Some(dob) && u.gender == Some(gender) && u.phoneE164 == v.phoneE164
  {
    User(Lower(v.email), passwordHash, TitleCase(Trim(v.fullName)), v.phoneE164,
         if v.role.Some? then v.role.value else Student, false, None,
         Some(TitleCase(Trim(v.placeOfBirth))), Some(dob), Some(gender))
  }

  /** A stored name is already in title case: registering it again would store the same text. */
  lemma StoredNameStable(v: RegisterInput)
    ensures TitleCase(Trim(TitleCase(Trim(v.fullName)))) == TitleCase(Trim(v.fullName))
  {
    var a := Trim(v.fullName);
    var t := TitleCase(a);
    TrimOfTrimmed(t);
    TitleCaseIdempotent(a);
  }

  /** Adding a user with a fresh e-mail, and a token of theirs, keeps the tables valid. */
  lemma AddAccountKeepsValid(users: map<nat, User>, refreshTokens: map<string, RefreshRow>,
                             verificationTokens: map<nat, TokenRow>, resetTokens: map<nat, TokenRow>,
                             nextId: nat, nextTokenId: nat, user: User, row: TokenRow)
    requires TablesValid(users, refreshTokens, verificationTokens, resetTokens, nextId, nextTokenId)
    requires UsersWithEmail(users, user.email) == {} && row.userId == nextId
    ensures nextId !in users && nextTokenId !in verificationTokens
    ensures TablesValid(users[nextId := user], refreshTokens, verificationTokens[nextTokenId := row], resetTokens,
                        nextId + 1, nextTokenId + 1)
  {
    forall a | a in users ensures users[a].email != user.email {
      assert a !in UsersWithEmail(users, user.email);
    }
  }

  /** The writes of a registration: the user, then its verification token. */
  method CreateAccount(store: Store, user: User, tokenHash: string, expiresAt: Time) returns (userId: nat)
    requires store.Valid() && UsersWithEmail(store.users, user.email) == {}
    modifies store
    ensures store.Valid()
    ensures userId == old(store.nextId) && userId !in old(store.users)
    ensures store.users == old(store.users)[userId := user]
    ensures old(store.nextTokenId) !in old(store.verificationTokens)
    ensures store.verificationTokens == old(store.verificationTokens)[old(store.nextTokenId) := TokenRow(userId, tokenHash, expiresAt)]
    ensures store.refreshTokens == old(store.refreshTokens) && store.resetTokens == old(store.resetTokens)
    ensures store.nextId == old(store.nextId) + 1 && store.nextTokenId == old(store.nextTokenId) + 1
  {
    userId := store.nextId;
    var tokenId := store.nextTokenId;
    var row := TokenRow(userId, tokenHash, expiresAt);
    AddAccountKeepsValid(store.users, store.refreshTokens, store.verificationTokens, store.resetTokens, userId, tokenId, user, row);
    store.users, store.verificationTokens := store.users[userId := user], store.verificationTokens[tokenId := row];
    store.nextId, store.nextTokenId := userId + 1, tokenId + 1;
  }

  /** The checks before the database is consulted: the refusal they give, if any. */
  function Precheck(body: Body<RegisterInput>, formatOk: bool, threeYearsAgo: Time, mxFound: bool): (r: Option<RegisterReply>)
    ensures r.None? <==>
      body.Parsed? && SchemaAccepts(body.value, formatOk) && !TooRecent(body.value, threeYearsAgo) &&
      EmailDomain(body.value.email) != "" && mxFound
    ensures r.Some? ==> !r.value.Registered?
    ensures body.EmptyBody? ==> r == Some(EmptyBodyRejected)
    ensures body.InvalidJson? ==> r == Some(InvalidJsonRejected)
    ensures body.SchemaFailed? ==> r == Some(ValidationFailed)
    ensures body.Parsed? ==> (!SchemaAccepts(body.value, formatOk) ==> r == Some(ValidationFailed))
    ensures body.Parsed? && SchemaAccepts(body.value, formatOk) ==>
      (TooRecent(body.value, threeYearsAgo) ==> r == Some(TooYoung))
    ensures body.Parsed? && SchemaAccepts(body.value, formatOk) && !TooRecent(body.value, threeYearsAgo) ==>
      (EmailDomain(body.value.email) == "" ==> r == Some(InvalidEmailDomain)) &&
      (EmailDomain(body.value.email) != "" && !mxFound ==> r == Some(NoMxRecords))
  {
    match body
    case EmptyBody => Some(EmptyBodyRejected)
    case InvalidJson => Some(InvalidJsonRejected)
    case SchemaFailed => Some(ValidationFailed)
    case Parsed(v) =>
      if !SchemaAccepts(v, formatOk) then Some(ValidationFailed)
      else if TooRecent(v, threeYearsAgo) then Some(TooYoung)
      else if EmailDomain(v.email) == "" then Some(InvalidEmailDomain)
      else if !mxFound then Some(NoMxRecords)
      else None
  }

  /**
   * The database part of the route, once the request has passed the checks:
   * the e-mail lookup, then the insert of user (dateOfBirth None is the
   * insert failing on an invalid date) and of its verification token.
   */
  method Complete(store: Store, user: User, dateOfBirth: Option<Time>, pair: TokenPair, expiresAt: Time)
    returns (reply: RegisterReply)
    requires store.Valid()
    modifies store
    ensures store.Valid()
    ensures !reply.Registered? ==> unchanged(store)
    ensures UsersWithEmail(old(store.users), user.email) != {} ==> reply == EmailTaken
    ensures UsersWithEmail(old(store.users), user.email) == {} && dateOfBirth.None? ==> reply == RegisterFailed
    ensures reply.Registered? <==> UsersWithEmail(old(store.users), user.email) == {} && dateOfBirth.Some?
    ensures reply.Registered? ==>
      var u := reply.userId;
      u == old(store.nextId) && u !in old(store.users) &&
      store.users == old(store.users)[u := user] &&
      store.verificationTokens == old(store.verificationTokens)[old(store.nextTokenId) := TokenRow(u, pair.tokenHash, expiresAt)] &&
      store.refreshTokens == old(store.refreshTokens) && store.resetTokens == old(store.resetTokens) &&
      reply.verifyToken == pair.token
  {
    if UsersWithEmail(store.users, user.email) != {} {
      return EmailTaken;
    }
    if dateOfBirth.None? {
      // An unparseable date passes the age check, and the insert then fails.
      return RegisterFailed;
    }
    var u := CreateAccount(store, user, pair.tokenHash, expiresAt);
    reply := Registered(u, pair.token);
  }

  /**
   * The route. verificationTtlMs is what Env.VerificationTtlMs reads from
   * the environment.
   */
  method Register(store: Store, body: Body<RegisterInput>, formatOk: bool, threeYearsAgo: Time,
                  mxFound: bool, hashPassword: string -> string, now: Time, pair: TokenPair, verificationTtlMs: int)
    returns (reply: RegisterReply)
    requires store.Valid()
    modifies store
    ensures store.Valid()
    ensures !reply.Registered? ==> unchanged(store)
    ensures Precheck(body, formatOk, threeYearsAgo, mxFound).Some? ==>
      reply == Precheck(body, formatOk, threeYearsAgo, mxFound).value
    ensures Precheck(body, formatOk, threeYearsAgo, mxFound).None? ==>
      (UsersWithEmail(old(store.users), Lower(body.value.email)) != {} ==> reply == EmailTaken) &&
      (UsersWithEmail(old(store.users), Lower(body.value.email)) == {} && body.value.dateOfBirth.None? ==>
        reply == RegisterFailed) &&
      (UsersWithEmail(old(store.users), Lower(body.value.email)) == {} && body.value.dateOfBirth.Some? ==>
        reply.Registered?)
    ensures reply.Registered? ==>
      body.Parsed? && body.value.dateOfBirth.Some? && ParseGender(body.value.gender).Some?
    ensures reply.Registered? ==>
      var v := body.value;
      var u := reply.userId;
      u == old(store.nextId) && u !in old(store.users) &&
      u in store.users && store.users == old(store.users)[u := store.users[u]] &&
      store.users[u] == NewUser(v, hashPassword(v.password), v.dateOfBirth.value, ParseGender(v.gender).value) &&
      store.verificationTokens == old(store.verificationTokens)[old(store.nextTokenId) := TokenRow(u, pair.tokenHash, ExpiresAt(now, verificationTtlMs))] &&
      store.refreshTokens == old(store.refreshTokens) && store.resetTokens == old(store.resetTokens) &&
      reply.verifyToken == pair.token
  {
    var stop := Precheck(body, formatOk, threeYearsAgo, mxFound);
    if stop.Some? {
      return stop.value;
    }
    var v := body.value;
    var dob := if v.dateOfBirth.Some? then v.dateOfBirth.value else 0;
    var user := NewUser(v, hashPassword(v.password), dob, ParseGender(v.gender).value);
    reply := Complete(store, user, v.dateOfBirth, pair, ExpiresAt(now, verificationTtlMs));
  }
}
