/**
 * The environment reader (src/lib/env.js): process.env is a map from
 * variable name to text, and every setting is a function of it. Booleans
 * and integers are parsed leniently with a default; a few settings fall
 * back from a deprecated variable to its replacement.
 */
module Env {
  import opened Common
  import opened JsNumber

  /** process.env: a variable that is not set has no entry. */
  type Vars = map<string, string>

  datatype EnvError = MissingVariable(name: string)

  datatype Required = Present(value: string) | Missing(error: EnvError)

  /** get(key): the variable's text, None when it is not set. */
  function Get(vars: Vars, key: string): Option<string>
  {
    if key in vars then Some(vars[key]) else None
  }

  /** get(key, def). */
  function GetOr(vars: Vars, key: string, def: string): (r: string)
    ensures key in vars ==> r == vars[key]
    ensures key !in vars ==> r == def
  {
    if key in vars then vars[key] else def
  }

  const TrueWords: set<string> := {"1", "true", "yes", "y", "on"}
  const FalseWords: set<string> := {"0", "false", "no", "n", "off"}

  /** A word read as a boolean: one of the true words, one of the false words, or the default. */
  function ReadBool(word: string, def: bool): (r: bool)
    ensures word in TrueWords ==> r
    ensures word in FalseWords ==> !r
    ensures word !in TrueWords && word !in FalseWords ==> r == def
  {
    WordsDisjoint();
    if word in TrueWords then true else if word in FalseWords then false else def
  }

  /**
   * toBool: unset or empty gives the default; otherwise the text is
   * lowercased and trimmed and read as a word.
   */
  function ToBool(val: Option<string>, def: bool): (r: bool)
    ensures val.None? || val == Some("") ==> r == def
    ensures val.Some? && val.value != "" ==> r == ReadBool(Word(val.value), def)
  {
    if val.None? || val.value == "" then def else ReadBool(Word(val.value), def)
  }

  /** String(val).toLowerCase().trim(). */
  function Word(val: string): string
  {
    Trim(Lower(val))
  }

  /** No word is both true and false. */
  lemma WordsDisjoint()
    ensures TrueWords * FalseWords == {}
  {
  }

  /**
   * toInt: parseInt of the trimmed text in base 10; an unset variable reads
   * as the empty text, and text with no leading integer gives the default.
   * The default may itself be absent (undefined).
   */
  function ToInt(val: Option<string>, def: Option<int>): (r: Option<int>)
    ensures val.None? ==> r == def
    ensures r != def ==> r.Some? && val.Some? && ParseInt(Trim(val.value)) == r
  {
    var n := ParseInt(Trim(if val.Some? then val.value else ""));
    if n.Some? then n else def
  }

  /** A variable holding String(i) is read as i, whatever the default. */
  lemma ToIntReadsIntString(i: int, def: Option<int>)
    ensures ToInt(Some(IntString(i)), def) == Some(i)
  {
    var s := IntString(i);
    assert forall k :: 0 <= k < |s| ==> !IsJsSpace(s[k]);
    TrimOfTrimmed(s);
    ParseIntString(i);
  }

  /** must: the variable's text, or an error naming it when it is unset or empty. */
  function Must(vars: Vars, key: string): (r: Required)
    ensures r.Missing? <==> key !in vars || vars[key] == ""
    ensures r.Missing? ==> r.error == MissingVariable(key)
    ensures r.Present? ==> r.value == vars[key]
  {
    if key !in vars || vars[key] == "" then Missing(MissingVariable(key)) else Present(vars[key])
  }

  /** isProd: NODE_ENV is exactly 'production' (unset reads as 'development'). */
  function IsProd(vars: Vars): (r: bool)
    ensures r <==> "NODE_ENV" in vars && vars["NODE_ENV"] == "production"
  {
    GetOr(vars, "NODE_ENV", "development") == "production"
  }

  /**
   * toInt(get(old)) || fallback: the deprecated variable counts only when
   * it holds a non-zero integer.
   */
  function Deprecated(vars: Vars, oldKey: string, fallback: int): (r: int)
    ensures ToInt(Get(vars, oldKey), None).Some? && ToInt(Get(vars, oldKey), None).value != 0 ==>
      r == ToInt(Get(vars, oldKey), None).value
    ensures ToInt(Get(vars, oldKey), None) == None || ToInt(Get(vars, oldKey), None) == Some(0) ==> r == fallback
  {
    var n := ToInt(Get(vars, oldKey), None);
    if n.Some? && n.value != 0 then n.value else fallback
  }

  /** An integer setting with its default. */
  function IntSetting(vars: Vars, key: string, def: int): (r: int)
    ensures key !in vars ==> r == def
    ensures forall i :: key in vars && vars[key] == IntString(i) ==> r == i
  {
    forall i | key in vars && vars[key] == IntString(i) ensures ToInt(Get(vars, key), Some(def)) == Some(i) {
      ToIntReadsIntString(i, Some(def));
    }
    ToInt(Get(vars, key), Some(def)).value
  }

  /** Math.ceil(m / 60) for an integer m. */
  function CeilDiv60(m: int): (r: int)
    ensures 60 * (r - 1) < m <= 60 * r
  {
    -((-m) / 60)
  }

  function EmailVerificationExpiresMinutes(vars: Vars): int
  {
    IntSetting(vars, "EMAIL_VERIFICATION_EXPIRES_MINUTES", 30)
  }

  function PasswordResetExpiresMinutes(vars: Vars): int
  {
    IntSetting(vars, "PASSWORD_RESET_EXPIRES_MINUTES", 30)
  }

  /** The deprecated hours settings: the old variable, else the minutes rounded up to hours. */
  function EmailVerificationExpiresHours(vars: Vars): int
  {
    Deprecated(vars, "EMAIL_VERIFICATION_EXPIRES_HOURS", CeilDiv60(EmailVerificationExpiresMinutes(vars)))
  }

  function PasswordResetExpiresHours(vars: Vars): int
  {
    Deprecated(vars, "PASSWORD_RESET_EXPIRES_HOURS", CeilDiv60(PasswordResetExpiresMinutes(vars)))
  }

  function UnverifiedUserCleanupDays(vars: Vars): int
  {
    IntSetting(vars, "UNVERIFIED_USER_CLEANUP_DAYS", 30)
  }

  function UnverifiedRetentionDays(vars: Vars): int
  {
    Deprecated(vars, "UNVERIFIED_RETENTION_DAYS", UnverifiedUserCleanupDays(vars))
  }

  function RefreshTokenCleanupDays(vars: Vars): int
  {
    IntSetting(vars, "REFRESH_TOKEN_CLEANUP_DAYS", 7)
  }

  function RefreshRevokedRetentionDays(vars: Vars): int
  {
    Deprecated(vars, "REFRESH_REVOKED_RETENTION_DAYS", RefreshTokenCleanupDays(vars))
  }

  function TestDataCleanupDays(vars: Vars): int
  {
    IntSetting(vars, "TEST_DATA_CLEANUP_DAYS", 1)
  }

  function CleanupRetentionDays(vars: Vars): int
  {
    Deprecated(vars, "CLEANUP_RETENTION_DAYS", TestDataCleanupDays(vars))
  }

  function TestResultRetentionMonths(vars: Vars): int
  {
    IntSetting(vars, "TEST_RESULT_RETENTION_MONTHS", 12)
  }

  /** getVerificationTtlMs and getPasswordResetTtlMs: minutes in milliseconds. */
  function VerificationTtlMs(vars: Vars): (r: int)
    ensures r == 60000 * EmailVerificationExpiresMinutes(vars)
  {
    EmailVerificationExpiresMinutes(vars) * 60 * 1000
  }

  function PasswordResetTtlMs(vars: Vars): (r: int)
    ensures r == 60000 * PasswordResetExpiresMinutes(vars)
  {
    PasswordResetExpiresMinutes(vars) * 60 * 1000
  }

  /** getRevokedPruneCutoffDate: the cleanup days before now. */
  function RevokedPruneCutoff(vars: Vars, now: int): (r: int)
    ensures r == now - 86400000 * RefreshTokenCleanupDays(vars)
  {
    now - RefreshTokenCleanupDays(vars) * 24 * 60 * 60 * 1000
  }

  function CookieSecure(vars: Vars): bool
  {
    ToBool(Get(vars, "COOKIE_SECURE"), false)
  }

  function AppDomain(vars: Vars): string
  {
    GetOr(vars, "APP_DOMAIN", "localhost")
  }

  function CookieName(vars: Vars): string
  {
    GetOr(vars, "COOKIE_NAME", "nova_auth")
  }

  function RefreshCookieName(vars: Vars): string
  {
    GetOr(vars, "REFRESH_COOKIE_NAME", "ne_refresh")
  }

  function CookieSameSite(vars: Vars): string
  {
    GetOr(vars, "COOKIE_SAMESITE", "Lax")
  }

  function LoginWindowMs(vars: Vars): int
  {
    IntSetting(vars, "RATE_LIMIT_LOGIN_WINDOW_MS", 60000)
  }

  function LoginMax(vars: Vars): int
  {
    IntSetting(vars, "RATE_LIMIT_LOGIN_MAX", 5)
  }

  function ForgotWindowMs(vars: Vars): int
  {
    IntSetting(vars, "RATE_LIMIT_FORGOT_WINDOW_MS", 60000)
  }

  function ForgotMax(vars: Vars): int
  {
    IntSetting(vars, "RATE_LIMIT_FORGOT_MAX", 3)
  }

  function MediaMaxImageMb(vars: Vars): int
  {
    IntSetting(vars, "MEDIA_MAX_IMAGE_MB", 5)
  }

  function MediaMaxAudioMb(vars: Vars): int
  {
    IntSetting(vars, "MEDIA_MAX_AUDIO_MB", 15)
  }

  function MediaAllowedImageTypes(vars: Vars): string
  {
    GetOr(vars, "MEDIA_ALLOWED_IMAGE_TYPES", "image/jpeg,image/png,image/webp,image/gif")
  }

  function MediaAllowedAudioTypes(vars: Vars): string
  {
    GetOr(vars, "MEDIA_ALLOWED_AUDIO_TYPES", "audio/mpeg,audio/wav,audio/ogg")
  }

  /** With nothing set, both tokens live 30 minutes. */
  lemma DefaultTtls(vars: Vars)
    requires vars == map[]
    ensures VerificationTtlMs(vars) == 1800000 && PasswordResetTtlMs(vars) == 1800000
  {
    assert EmailVerificationExpiresMinutes(vars) == 30;
    assert PasswordResetExpiresMinutes(vars) == 30;
  }

  /** With neither variable set, a deprecated hours setting reads as the 30-minute default rounded up: 1 hour. */
  lemma UnsetHours(vars: Vars, oldKey: string, minutesKey: string)
    requires oldKey !in vars && minutesKey !in vars
    ensures Deprecated(vars, oldKey, CeilDiv60(IntSetting(vars, minutesKey, 30))) == 1
  {
    var m := IntSetting(vars, minutesKey, 30);
    assert m == 30;
    assert CeilDiv60(m) == 1;
    UnsetDeprecated(vars, oldKey, 1);
  }

  /** With nothing set, both deprecated hour settings read as 1 hour. */
  lemma DefaultHours(vars: Vars)
    requires vars == map[]
    ensures EmailVerificationExpiresHours(vars) == 1 && PasswordResetExpiresHours(vars) == 1
  {
    UnsetHours(vars, "EMAIL_VERIFICATION_EXPIRES_HOURS", "EMAIL_VERIFICATION_EXPIRES_MINUTES");
    UnsetHours(vars, "PASSWORD_RESET_EXPIRES_HOURS", "PASSWORD_RESET_EXPIRES_MINUTES");
  }

  /** An unset deprecated variable gives its fallback. */
  lemma UnsetDeprecated(vars: Vars, oldKey: string, fallback: int)
    requires oldKey !in vars
    ensures Deprecated(vars, oldKey, fallback) == fallback
  {
    assert Trim("") == "";
    assert ParseInt("") == None;
  }

  /** A deprecated variable set to a non-zero integer overrides its replacement; set to 0 it does not. */
  lemma DeprecatedOverrides(vars: Vars, oldKey: string, n: int, fallback: int)
    requires oldKey in vars && vars[oldKey] == IntString(n)
    ensures Deprecated(vars, oldKey, fallback) == (if n != 0 then n else fallback)
  {
    ToIntReadsIntString(n, None);
  }
}
