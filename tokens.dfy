/**
 * The e-mail token helpers: random bytes become a URL-safe token by
 * encoding them in standard Base64 (section 4 of RFC 4648) and rewriting
 * the result into the URL and filename safe alphabet (section 5) with the
 * padding dropped; the database keeps only a hash of the token. Expiry is a
 * strict comparison with the current time.
 *
 * The random bytes and the SHA-256 digest are parameters.
 */
module Tokens {
  import opened Common

  type Byte = b: nat | b < 256

  /** The standard alphabet of section 4 of RFC 4648. */
  function StdChar(v: nat): (c: char)
    requires v < 64
  {
    if v < 26 then ('A' as int + v) as char
    else if v < 52 then ('a' as int + v - 26) as char
    else if v < 62 then ('0' as int + v - 52) as char
    else if v == 62 then '+'
    else '/'
  }

  /** The URL and filename safe alphabet of section 5 of RFC 4648. */
  function UrlChar(v: nat): (c: char)
    requires v < 64
  {
    if v < 62 then StdChar(v) else if v == 62 then '-' else '_'
  }

  /** The 6-bit groups of one to three bytes, most significant first. */
  function Sextets(b: seq<Byte>): (r: seq<nat>)
    requires 1 <= |b| <= 3
    ensures |r| == |b| + 1
    ensures forall i :: 0 <= i < |r| ==> r[i] < 64
  {
    var b1: nat := if |b| > 1 then b[1] else 0;
    var b2: nat := if |b| > 2 then b[2] else 0;
    var n: nat := (b[0] as nat) * 65536 + b1 * 256 + b2;
    var all := [n / 262144, (n / 4096) % 64, (n / 64) % 64, n % 64];
    all[..|b| + 1]
  }

  function StdChars(v: seq<nat>): (s: string)
    requires forall i :: 0 <= i < |v| ==> v[i] < 64
    ensures |s| == |v|
    ensures forall i :: 0 <= i < |v| ==> s[i] == StdChar(v[i])
  {
    seq(|v|, i requires 0 <= i < |v| => StdChar(v[i]))
  }

  function UrlChars(v: seq<nat>): (s: string)
    requires forall i :: 0 <= i < |v| ==> v[i] < 64
    ensures |s| == |v|
    ensures forall i :: 0 <= i < |v| ==> s[i] == UrlChar(v[i])
  {
    seq(|v|, i requires 0 <= i < |v| => UrlChar(v[i]))
  }

  /** buffer.toString('base64'): four characters per three bytes, the last group padded with '='. */
  function Base64(b: seq<Byte>): (s: string)
    decreases |b|
  {
    if |b| == 0 then ""
    else if |b| < 3 then StdChars(Sextets(b)) + (if |b| == 1 then "==" else "=")
    else StdChars(Sextets(b[..3])) + Base64(b[3..])
  }

  /**
   * The reference encoding: section 5 of RFC 4648 with the padding left
   * out, as section 3.2 allows.
   */
  function Base64UrlUnpadded(b: seq<Byte>): (s: string)
    ensures |s| == (4 * |b| + 2) / 3
    decreases |b|
  {
    if |b| == 0 then ""
    else if |b| < 3 then UrlChars(Sextets(b))
    else UrlChars(Sextets(b[..3])) + Base64UrlUnpadded(b[3..])
  }

  /** '+' becomes '-' and '/' becomes '_'; every other character stays where it is. */
  function ToUrlAlphabet(s: string): (r: string)
    ensures |r| == |s|
    ensures forall i :: 0 <= i < |s| ==>
      r[i] == (if s[i] == '+' then '-' else if s[i] == '/' then '_' else s[i])
  {
    seq(|s|, i requires 0 <= i < |s| => if s[i] == '+' then '-' else if s[i] == '/' then '_' else s[i])
  }

  /** s.replace(/=+$/g, ''): the run of '=' at the end is removed, nothing else. */
  function DropTrailingPadding(s: string): (r: string)
    ensures |r| <= |s| && r == s[..|r|]
    ensures |r| == 0 || r[|r| - 1] != '='
    ensures forall i :: |r| <= i < |s| ==> s[i] == '='
  {
    if |s| == 0 || s[|s| - 1] != '=' then s else DropTrailingPadding(s[..|s| - 1])
  }

  /** base64UrlEncode. */
  function Base64UrlEncode(b: seq<Byte>): string
  {
    DropTrailingPadding(ToUrlAlphabet(Base64(b)))
  }

  /** Characters a URL or a file name carries as they are. */
  predicate UrlSafe(s: string)
  {
    forall i :: 0 <= i < |s| ==> s[i] != '+' && s[i] != '/' && s[i] != '='
  }

  lemma UrlCharIsSafe(v: nat)
    requires v < 64
    ensures UrlChar(v) != '+' && UrlChar(v) != '/' && UrlChar(v) != '='
  {
  }

  lemma UrlCharsSafe(v: seq<nat>)
    requires forall i :: 0 <= i < |v| ==> v[i] < 64
    ensures UrlSafe(UrlChars(v))
  {
    forall i | 0 <= i < |v| {
      UrlCharIsSafe(v[i]);
    }
  }

  /** The standard characters rewritten are the URL characters. */
  lemma ToUrlOfStd(v: seq<nat>)
    requires forall i :: 0 <= i < |v| ==> v[i] < 64
    ensures ToUrlAlphabet(StdChars(v)) == UrlChars(v)
  {
  }

  lemma ToUrlKeepsPadding(pad: string)
    requires forall i :: 0 <= i < |pad| ==> pad[i] == '='
    ensures ToUrlAlphabet(pad) == pad
  {
  }

  lemma ToUrlAppend(a: string, b: string)
    ensures ToUrlAlphabet(a + b) == ToUrlAlphabet(a) + ToUrlAlphabet(b)
  {
  }

  /** Padding at the end of a string that does not otherwise end in '=' is exactly what is dropped. */
  lemma {:induction false} DropPadding(s: string, pad: string)
    requires |s| == 0 || s[|s| - 1] != '='
    requires forall i :: 0 <= i < |pad| ==> pad[i] == '='
    ensures DropTrailingPadding(s + pad) == s
    decreases |pad|
  {
    if |pad| > 0 {
      assert (s + pad)[..|s + pad| - 1] == s + pad[..|pad| - 1];
      DropPadding(s, pad[..|pad| - 1]);
    } else {
      assert s + pad == s;
    }
  }

  /** The '=' that close the last group of n bytes. */
  function Padding(n: nat): string
  {
    if n % 3 == 1 then "==" else if n % 3 == 2 then "=" else ""
  }

  /**
   * The rewritten standard encoding is the URL-safe encoding with padding
   * and all: standard Base64 differs from it only in the two characters and
   * in the '=' that close the last group.
   */
  lemma PaddingPeriodic(n: nat)
    ensures Padding(n + 3) == Padding(n)
  {
    assert (n + 3) % 3 == n % 3;
  }

  lemma {:induction false} RewrittenIsUrlPadded(b: seq<Byte>)
    ensures ToUrlAlphabet(Base64(b)) == Base64UrlUnpadded(b) + Padding(|b|)
    decreases |b|
  {
    if |b| == 0 {
    } else if |b| < 3 {
      LastGroupRewritten(b);
    } else {
      RewrittenIsUrlPadded(b[3..]);
      FullGroupRewritten(b);
    }
  }

  lemma LastGroupRewritten(b: seq<Byte>)
    requires 1 <= |b| < 3
    ensures ToUrlAlphabet(Base64(b)) == Base64UrlUnpadded(b) + Padding(|b|)
  {
    var pad := if |b| == 1 then "==" else "=";
    assert Base64(b) == StdChars(Sextets(b)) + pad;
    ToUrlAppend(StdChars(Sextets(b)), pad);
    ToUrlOfStd(Sextets(b));
    ToUrlKeepsPadding(pad);
    assert Base64UrlUnpadded(b) == UrlChars(Sextets(b));
    assert Padding(|b|) == pad;
  }

  lemma FullGroupRewritten(b: seq<Byte>)
    requires |b| >= 3
    requires ToUrlAlphabet(Base64(b[3..])) == Base64UrlUnpadded(b[3..]) + Padding(|b[3..]|)
    ensures ToUrlAlphabet(Base64(b)) == Base64UrlUnpadded(b) + Padding(|b|)
  {
    var v := Sextets(b[..3]);
    var rest := Base64(b[3..]);
    var u := Base64UrlUnpadded(b[3..]);
    var pad := Padding(|b|);
    PaddingPeriodic(|b[3..]|);
    assert Base64(b) == StdChars(v) + rest;
    ToUrlAppend(StdChars(v), rest);
    ToUrlOfStd(v);
    assert Base64UrlUnpadded(b) == UrlChars(v) + u;
    assert UrlChars(v) + (u + pad) == (UrlChars(v) + u) + pad;
  }

  lemma {:induction false} UnpaddedIsSafe(b: seq<Byte>)
    ensures UrlSafe(Base64UrlUnpadded(b))
    decreases |b|
  {
    if |b| == 0 {
    } else if |b| < 3 {
      UrlCharsSafe(Sextets(b));
    } else {
      UrlCharsSafe(Sextets(b[..3]));
      UnpaddedIsSafe(b[3..]);
    }
  }

  /**
   * base64UrlEncode is the unpadded URL-safe encoding of section 5 of
   * RFC 4648: no '+', no '/', no '=', and ceil(4n/3) characters for n bytes.
   */
  lemma Base64UrlEncodeIsUnpadded(b: seq<Byte>)
    ensures Base64UrlEncode(b) == Base64UrlUnpadded(b)
    ensures UrlSafe(Base64UrlEncode(b))
    ensures |Base64UrlEncode(b)| == (4 * |b| + 2) / 3
  {
    RewrittenIsUrlPadded(b);
    UnpaddedIsSafe(b);
    var u := Base64UrlUnpadded(b);
    DropPadding(u, Padding(|b|));
  }

  /** isExpired: a date is past only once the current time is strictly after it. */
  predicate IsExpired(expiresAt: int, now: int)
  {
    now > expiresAt
  }

  /** What generateTokenPair hands out: the token to e-mail and the hash to store. */
  datatype TokenPair = TokenPair(token: string, tokenHash: string)

  /** generateTokenPair on the random bytes it drew, with the digest function given. */
  function GenerateTokenPair(raw: seq<Byte>, sha256Hex: string -> string): (r: TokenPair)
    ensures r.tokenHash == sha256Hex(r.token)
    ensures r.token == Base64UrlUnpadded(raw)
  {
    Base64UrlEncodeIsUnpadded(raw);
    var token := Base64UrlEncode(raw);
    TokenPair(token, sha256Hex(token))
  }

  /** The default 32 random bytes give a 43-character URL-safe token. */
  lemma DefaultTokenShape(raw: seq<Byte>, sha256Hex: string -> string)
    requires |raw| == 32
    ensures |GenerateTokenPair(raw, sha256Hex).token| == 43
    ensures UrlSafe(GenerateTokenPair(raw, sha256Hex).token)
  {
    Base64UrlEncodeIsUnpadded(raw);
  }
}
