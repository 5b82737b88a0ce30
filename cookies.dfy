/**
 * The cookie helpers of src/lib/auth.js. A Set-Cookie value (section 4.1
 * of RFC 6265) is the name=value pair followed by its attributes in a
 * fixed order; the Cookie request header (section 4.2) is read back into
 * a map from name to value. JWT signing and verification are not part of
 * this module: the token is an opaque string.
 */
module Cookies {
  import opened Common
  import opened Env

  /** One attribute of a Set-Cookie value. */
  datatype Attr =
    | MaxAge(seconds: int)
    | Domain(domain: string)
    | Path(path: string)
    | Expires(date: string)
    | HttpOnly
    | Secure
    | SameSite(mode: string)

  /**
   * The attrs object of serializeCookie. An empty string is a falsy, hence
   * absent, domain, path or sameSite; expires holds the toUTCString() of
   * the Date when one is given; maxAge is a whole number of seconds.
   */
  datatype CookieOptions = CookieOptions(maxAge: Option<int>, domain: string, path: string, expires: Option<string>,
                                         httpOnly: bool, secure: bool, sameSite: string)

  /** A Set-Cookie value before it is written out. */
  datatype SetCookie = SetCookie(name: string, value: string, attrs: seq<Attr>)

  /** The position of each attribute in the serialised cookie. */
  function Rank(a: Attr): nat
  {
    match a
    case MaxAge(_) => 0
    case Domain(_) => 1
    case Path(_) => 2
    case Expires(_) => 3
    case HttpOnly => 4
    case Secure => 5
    case SameSite(_) => 6
  }

  /** Attributes in serialisation order, each kind at most once. */
  predicate InOrder(attrs: seq<Attr>)
  {
    forall i, j :: 0 <= i < j < |attrs| ==> Rank(attrs[i]) < Rank(attrs[j])
  }

  /** `${ss[0].toUpperCase()}${ss.slice(1)}`. */
  function Capitalise(s: string): (r: string)
    ensures |r| == |s|
  {
    if |s| == 0 then s else [UpperChar(s[0])] + s[1..]
  }

  predicate KnownSameSite(lower: string)
  {
    lower == "lax" || lower == "strict" || lower == "none"
  }

  /** The SameSite attribute: emitted only for lax, strict or none in any letter case. */
  function SameSitePart(sameSite: string): (r: seq<Attr>)
    ensures |r| <= 1
    ensures |r| == 1 <==> sameSite != "" && KnownSameSite(Lower(sameSite))
    ensures |r| == 1 ==> r[0] == SameSite(Capitalise(Lower(sameSite)))
  {
    if sameSite != "" && KnownSameSite(Lower(sameSite)) then [SameSite(Capitalise(Lower(sameSite)))] else []
  }

  /** The three SameSite spellings a browser is sent. */
  lemma SameSiteSpellings(lower: string)
    requires KnownSameSite(lower)
    ensures Capitalise(lower) == "Lax" || Capitalise(lower) == "Strict" || Capitalise(lower) == "None"
  {
  }

  /** Whether serializeCookie pushes the attribute a for these options. */
  predicate Pushed(o: CookieOptions, a: Attr)
  {
    match a
    case MaxAge(n) => o.maxAge == Some(n)
    case Domain(d) => o.domain != "" && d == o.domain
    case Path(p) => o.path != "" && p == o.path
    case Expires(e) => o.expires == Some(e)
    case HttpOnly => o.httpOnly
    case Secure => o.secure
    case SameSite(m) => SameSitePart(o.sameSite) == [SameSite(m)]
  }

  function Slot(cond: bool, a: Attr): (r: seq<Attr>)
    ensures forall x :: x in r <==> cond && x == a
    ensures |r| <= 1 && (|r| == 1 ==> r[0] == a)
  {
    if cond then [a] else []
  }

  /** An attribute is in seven concatenated slots exactly when it is in one of them. */
  lemma InSlots(s0: seq<Attr>, s1: seq<Attr>, s2: seq<Attr>, s3: seq<Attr>, s4: seq<Attr>, s5: seq<Attr>, s6: seq<Attr>, a: Attr)
    ensures a in s0 + s1 + s2 + s3 + s4 + s5 + s6 <==> a in s0 || a in s1 || a in s2 || a in s3 || a in s4 || a in s5 || a in s6
  {
  }

  /** The attributes serializeCookie pushes, in the order it pushes them. */
  function Attrs(o: CookieOptions): (r: seq<Attr>)
    ensures forall a :: a in r <==> Pushed(o, a)
  {
    var s0 := Slot(o.maxAge.Some?, MaxAge(if o.maxAge.Some? then o.maxAge.value else 0));
    var s1 := Slot(o.domain != "", Domain(o.domain));
    var s2 := Slot(o.path != "", Path(o.path));
    var s3 := Slot(o.expires.Some?, Expires(if o.expires.Some? then o.expires.value else ""));
    var s4 := Slot(o.httpOnly, HttpOnly);
    var s5 := Slot(o.secure, Secure);
    var s6 := SameSitePart(o.sameSite);
    assert forall a :: a in s0 + s1 + s2 + s3 + s4 + s5 + s6 <==> Pushed(o, a) by {
      forall a
        ensures a in s0 + s1 + s2 + s3 + s4 + s5 + s6 <==> Pushed(o, a)
      {
        InSlots(s0, s1, s2, s3, s4, s5, s6, a);
      }
    }
    s0 + s1 + s2 + s3 + s4 + s5 + s6
  }

  /** Every attribute ranks below k. */
  predicate RanksBelow(r: seq<Attr>, k: nat)
  {
    forall i :: 0 <= i < |r| ==> Rank(r[i]) < k
  }

  /** Appending an attribute of higher rank keeps the order. */
  lemma PushInOrder(acc: seq<Attr>, slot: seq<Attr>, k: nat)
    requires InOrder(acc) && RanksBelow(acc, k)
    requires |slot| <= 1 && (|slot| == 1 ==> Rank(slot[0]) == k)
    ensures InOrder(acc + slot) && RanksBelow(acc + slot, k + 1)
  {
  }

  /** Seven slots of rising rank, concatenated, are in order. */
  lemma SlotsInOrder(s0: seq<Attr>, s1: seq<Attr>, s2: seq<Attr>, s3: seq<Attr>, s4: seq<Attr>, s5: seq<Attr>, s6: seq<Attr>)
    requires |s0| <= 1 && (|s0| == 1 ==> Rank(s0[0]) == 0)
    requires |s1| <= 1 && (|s1| == 1 ==> Rank(s1[0]) == 1)
    requires |s2| <= 1 && (|s2| == 1 ==> Rank(s2[0]) == 2)
    requires |s3| <= 1 && (|s3| == 1 ==> Rank(s3[0]) == 3)
    requires |s4| <= 1 && (|s4| == 1 ==> Rank(s4[0]) == 4)
    requires |s5| <= 1 && (|s5| == 1 ==> Rank(s5[0]) == 5)
    requires |s6| <= 1 && (|s6| == 1 ==> Rank(s6[0]) == 6)
    ensures InOrder(s0 + s1 + s2 + s3 + s4 + s5 + s6)
  {
    PushInOrder([], s0, 0);
    assert [] + s0 == s0;
    PushInOrder(s0, s1, 1);
    PushInOrder(s0 + s1, s2, 2);
    PushInOrder(s0 + s1 + s2, s3, 3);
    PushInOrder(s0 + s1 + s2 + s3, s4, 4);
    PushInOrder(s0 + s1 + s2 + s3 + s4, s5, 5);
    PushInOrder(s0 + s1 + s2 + s3 + s4 + s5, s6, 6);
  }

  /** serializeCookie pushes the attributes in the order Max-Age, Domain, Path, Expires, HttpOnly, Secure, SameSite. */
  lemma AttrsInOrder(o: CookieOptions)
    ensures InOrder(Attrs(o))
  {
    SlotsInOrder(Slot(o.maxAge.Some?, MaxAge(if o.maxAge.Some? then o.maxAge.value else 0)),
      Slot(o.domain != "", Domain(o.domain)), Slot(o.path != "", Path(o.path)),
      Slot(o.expires.Some?, Expires(if o.expires.Some? then o.expires.value else "")),
      Slot(o.httpOnly, HttpOnly), Slot(o.secure, Secure), SameSitePart(o.sameSite));
  }

  function Render(a: Attr): string
  {
    match a
    case MaxAge(n) => "Max-Age=" + IntString(n)
    case Domain(d) => "Domain=" + d
    case Path(p) => "Path=" + p
    case Expires(e) => "Expires=" + e
    case HttpOnly => "HttpOnly"
    case Secure => "Secure"
    case SameSite(m) => "SameSite=" + m
  }

  function RenderAll(attrs: seq<Attr>): (r: seq<string>)
    ensures |r| == |attrs|
    ensures forall i :: 0 <= i < |attrs| ==> r[i] == Render(attrs[i])
  {
    if |attrs| == 0 then [] else [Render(attrs[0])] + RenderAll(attrs[1..])
  }

  /** The parts of a Set-Cookie value: name=value first, then one part per attribute. */
  function Parts(c: SetCookie): (r: seq<string>)
    ensures |r| == |c.attrs| + 1
    ensures r[0] == c.name + "=" + c.value
    ensures forall i :: 0 <= i < |c.attrs| ==> r[i + 1] == Render(c.attrs[i])
  {
    [c.name + "=" + c.value] + RenderAll(c.attrs)
  }

  /** parts.join('; '). */
  function Serialize(c: SetCookie): string
  {
    Join(Parts(c), "; ")
  }

  /** serializeCookie(name, value, attrs). */
  function SerializeCookie(name: string, value: string, o: CookieOptions): (r: SetCookie)
    ensures r.name == name && r.value == value && r.attrs == Attrs(o)
  {
    SetCookie(name, value, Attrs(o))
  }

  /** A cookie with only a name and a value serialises to name=value. */
  lemma BareCookie(name: string, value: string)
    ensures Serialize(SetCookie(name, value, [])) == name + "=" + value
  {
  }

  /** The Domain attribute is kept only for a dotted host other than localhost. */
  function CookieDomain(appDomain: string): (r: string)
    ensures r != "" <==> appDomain != "" && appDomain != "localhost" && Contains(appDomain, '.')
    ensures r != "" ==> r == appDomain
  {
    if appDomain != "" && appDomain != "localhost" && Contains(appDomain, '.') then appDomain else ""
  }

  /** new Date(0).toUTCString(). */
  const Epoch: string := "Thu, 01 Jan 1970 00:00:00 GMT"

  /**
   * The cookie every builder makes: HttpOnly, for the whole site, with the
   * configured Secure and SameSite, and a Domain only when CookieDomain
   * keeps the configured one.
   */
  function SiteCookie(name: string, value: string, appDomain: string, secure: bool, sameSite: string,
                      maxAge: int, expires: Option<string>): (c: SetCookie)
    ensures c.name == name && c.value == value && InOrder(c.attrs)
    ensures HttpOnly in c.attrs && Path("/") in c.attrs
    ensures forall n :: MaxAge(n) in c.attrs <==> n == maxAge
    ensures forall e :: Expires(e) in c.attrs <==> expires == Some(e)
    ensures forall d :: Domain(d) in c.attrs <==> CookieDomain(appDomain) != "" && d == appDomain
    ensures Secure in c.attrs <==> secure
  {
    var o := CookieOptions(Some(maxAge), CookieDomain(appDomain), "/", expires, true, secure, sameSite);
    AttrsInOrder(o);
    SerializeCookie(name, value, o)
  }

  /** createAuthCookie({ token, maxAgeDays }). */
  function CreateAuthCookie(vars: Vars, token: string, maxAgeDays: int): (c: SetCookie)
    ensures c.name == CookieName(vars) && c.value == token && InOrder(c.attrs)
    ensures HttpOnly in c.attrs && Path("/") in c.attrs && MaxAge(maxAgeDays * 86400) in c.attrs
    ensures forall e :: Expires(e) !in c.attrs
  {
    SiteCookie(CookieName(vars), token, AppDomain(vars), CookieSecure(vars), CookieSameSite(vars), maxAgeDays * 24 * 60 * 60, None)
  }

  /** createRefreshCookie({ token, maxAgeDays }). */
  function CreateRefreshCookie(vars: Vars, token: string, maxAgeDays: int): (c: SetCookie)
    ensures c.name == RefreshCookieName(vars) && c.value == token && InOrder(c.attrs)
    ensures HttpOnly in c.attrs && Path("/") in c.attrs && MaxAge(maxAgeDays * 86400) in c.attrs
    ensures forall e :: Expires(e) !in c.attrs
  {
    SiteCookie(RefreshCookieName(vars), token, AppDomain(vars), CookieSecure(vars), CookieSameSite(vars), maxAgeDays * 24 * 60 * 60, None)
  }

  /** A cleared cookie: empty value, Max-Age=0 and an expiry at the epoch. */
  ghost predicate Cleared(c: SetCookie)
  {
    c.value == "" && MaxAge(0) in c.attrs && Expires(Epoch) in c.attrs
    && (forall n :: MaxAge(n) in c.attrs ==> n == 0)
  }

  /** clearAuthCookie(). */
  function ClearAuthCookie(vars: Vars): (c: SetCookie)
    ensures c.name == CookieName(vars) && Cleared(c) && InOrder(c.attrs)
  {
    SiteCookie(CookieName(vars), "", AppDomain(vars), CookieSecure(vars), CookieSameSite(vars), 0, Some(Epoch))
  }

  /** clearRefreshCookie(). */
  function ClearRefreshCookie(vars: Vars): (c: SetCookie)
    ensures c.name == RefreshCookieName(vars) && Cleared(c) && InOrder(c.attrs)
  {
    SiteCookie(RefreshCookieName(vars), "", AppDomain(vars), CookieSecure(vars), CookieSameSite(vars), 0, Some(Epoch))
  }

  /** The name of one trimmed cookie pair: everything before its first '='. */
  function PairKey(p: string): (k: string)
    ensures !Contains(k, '=')
    ensures |k| <= |p| && k == p[..|k|]
  {
    match IndexOf(p, '=')
    case None => p
    case Some(i) => p[..i]
  }

  /** The value of one trimmed cookie pair: everything after its first '=', or '' when there is none. */
  function PairValue(p: string): string
  {
    match IndexOf(p, '=')
    case None => ""
    case Some(i) => p[i + 1..]
  }

  /** `const [k, ...v] = p.split('=')` and `v.join('=')` are the name and value above. */
  lemma PairIsSplitAtFirstEquals(p: string)
    ensures PairKey(p) == Split(p, '=')[0]
    ensures PairValue(p) == Join(Split(p, '=')[1..], "=")
  {
    match IndexOf(p, '=')
    case None =>
    case Some(i) =>
      JoinSplit(p[i + 1..], '=');
  }

  /** A value may itself contain '=': only the first one separates. */
  lemma ValueKeepsEquals(name: string, value: string)
    requires !Contains(name, '=')
    ensures PairKey(name + "=" + value) == name
    ensures PairValue(name + "=" + value) == value
  {
    var p := name + "=" + value;
    assert p[|name|] == '=';
    assert forall i :: 0 <= i < |name| ==> p[i] == name[i];
    assert IndexOf(p, '=').Some? && IndexOf(p, '=').value == |name|;
    assert p[|name| + 1..] == value;
  }

  /** The map the loop has built after the given pairs: each pair, trimmed, overwrites its name. */
  function Fold(pairs: seq<string>): map<string, string>
  {
    if |pairs| == 0 then map[]
    else
      var p := Trim(pairs[|pairs| - 1]);
      Fold(pairs[..|pairs| - 1])[PairKey(p) := PairValue(p)]
  }

  /** parseCookies(header) as a value: an empty header gives no cookies. */
  function CookieMap(header: string): map<string, string>
  {
    if header == "" then map[] else Fold(Split(header, ';'))
  }

  /** One more pair overwrites its name. */
  lemma FoldStep(pairs: seq<string>, i: nat)
    requires i < |pairs|
    ensures Fold(pairs[..i + 1]) == Fold(pairs[..i])[PairKey(Trim(pairs[i])) := PairValue(Trim(pairs[i]))]
  {
    assert pairs[..i + 1][..i] == pairs[..i];
  }

  /** parseCookies. */
  method ParseCookies(header: string) returns (out: map<string, string>)
    ensures out == CookieMap(header)
  {
    if header == "" {
      return map[];
    }
    out := FoldPairs(Split(header, ';'));
  }

  /** The loop of parseCookies over the ';'-separated pairs. */
  method FoldPairs(pairs: seq<string>) returns (out: map<string, string>)
    ensures out == Fold(pairs)
  {
    out := map[];
    var i := 0;
    while i < |pairs|
      invariant 0 <= i <= |pairs|
      invariant out == Fold(pairs[..i])
    {
      var p := Trim(pairs[i]);
      out := out[PairKey(p) := PairValue(p)];
      FoldStep(pairs, i);
      i := i + 1;
    }
    assert pairs[..|pairs|] == pairs;
  }

  /** A name is mapped exactly when some pair carries it. */
  lemma {:induction false} FoldKeys(pairs: seq<string>, k: string)
    ensures k in Fold(pairs) <==> exists i :: 0 <= i < |pairs| && PairKey(Trim(pairs[i])) == k
  {
    if |pairs| > 0 {
      var init := pairs[..|pairs| - 1];
      FoldKeys(init, k);
      if k in Fold(init) {
        var i :| 0 <= i < |init| && PairKey(Trim(init[i])) == k;
        assert pairs[i] == init[i];
      }
      if exists i :: 0 <= i < |pairs| && PairKey(Trim(pairs[i])) == k {
        var i :| 0 <= i < |pairs| && PairKey(Trim(pairs[i])) == k;
        if i < |pairs| - 1 {
          assert init[i] == pairs[i];
        }
      }
    }
  }

  /** Of several pairs with the same name, the last one wins. */
  lemma {:induction false} LaterDuplicateWins(pairs: seq<string>, i: nat)
    requires i < |pairs|
    requires forall j :: i < j < |pairs| ==> PairKey(Trim(pairs[j])) != PairKey(Trim(pairs[i]))
    ensures PairKey(Trim(pairs[i])) in Fold(pairs)
    ensures Fold(pairs)[PairKey(Trim(pairs[i]))] == PairValue(Trim(pairs[i]))
  {
    if i < |pairs| - 1 {
      var init := pairs[..|pairs| - 1];
      forall j | i < j < |init|
        ensures PairKey(Trim(init[j])) != PairKey(Trim(init[i]))
      {
        assert init[j] == pairs[j];
      }
      LaterDuplicateWins(init, i);
      assert init[i] == pairs[i];
    }
  }

  /** A string with no white space anywhere is its own trim. */
  lemma TrimOfSpaceless(s: string)
    requires forall i :: 0 <= i < |s| ==> !IsJsSpace(s[i])
    ensures Trim(s) == s
  {
    TrimOfTrimmed(s);
  }

  /** A single pair is the whole map. */
  lemma FoldSingle(p: string)
    ensures Fold([p]) == map[PairKey(Trim(p)) := PairValue(Trim(p))]
  {
    assert [p][..0] == [];
  }

  /** A header with no ';' is one pair. */
  lemma SplitWithoutSeparator(p: string)
    requires forall i :: 0 <= i < |p| ==> p[i] != ';'
    ensures Split(p, ';') == [p]
  {
    assert !Contains(p, ';');
  }

  /** parseCookies('n=v') maps n to v, whatever '=' v holds, when neither holds ';' or white space. */
  lemma SinglePair(name: string, value: string)
    requires !Contains(name, '=') && !Contains(name, ';') && !Contains(value, ';')
    requires forall i :: 0 <= i < |name| ==> !IsJsSpace(name[i])
    requires forall i :: 0 <= i < |value| ==> !IsJsSpace(value[i])
    ensures CookieMap(name + "=" + value) == map[name := value]
  {
    var p := name + "=" + value;
    forall i | 0 <= i < |p| ensures p[i] != ';' && !IsJsSpace(p[i]) {
      if i < |name| { assert p[i] == name[i]; }
      else if i > |name| { assert p[i] == value[i - |name| - 1]; }
    }
    SplitWithoutSeparator(p);
    TrimOfSpaceless(p);
    ValueKeepsEquals(name, value);
    FoldSingle(p);
  }

  /** getJwtFromRequest / getRefreshFromRequest: the named cookie, '' when absent. */
  function CookieOr(header: Option<string>, name: string): (r: string)
    ensures header.None? ==> r == ""
    ensures header.Some? && name !in CookieMap(header.value) ==> r == ""
    ensures header.Some? && name in CookieMap(header.value) ==> r == CookieMap(header.value)[name]
  {
    var cookies := CookieMap(if header.Some? then header.value else "");
    if name in cookies then cookies[name] else ""
  }

  function JwtFromRequest(vars: Vars, header: Option<string>): string
  {
    CookieOr(header, CookieName(vars))
  }

  function RefreshFromRequest(vars: Vars, header: Option<string>): string
  {
    CookieOr(header, RefreshCookieName(vars))
  }

  /** A request carrying only the auth cookie yields its token; one without it yields ''. */
  lemma AuthTokenRoundTrip(vars: Vars, token: string)
    requires !Contains(CookieName(vars), '=') && !Contains(CookieName(vars), ';') && !Contains(token, ';')
    requires forall i :: 0 <= i < |CookieName(vars)| ==> !IsJsSpace(CookieName(vars)[i])
    requires forall i :: 0 <= i < |token| ==> !IsJsSpace(token[i])
    ensures JwtFromRequest(vars, Some(CookieName(vars) + "=" + token)) == token
    ensures JwtFromRequest(vars, None) == ""
  {
    SinglePair(CookieName(vars), token);
  }
}
