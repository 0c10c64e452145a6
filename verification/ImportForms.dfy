/** The line formats without a token: an e-mail address first, and the older Outlook format. */
module ImportForms {
  import opened Accounts
  import opened ImportTokens
  import opened ProviderConfig
  import opened Text
  import opened Utf8
  import opened Wrappers

  /** What stands behind the first at sign, trimmed and in lower case. */
  function MailDomain(email: string): Option<string> {
    if '@' in email then Some(ToLower(TrimSpace(email[|Before(email, '@')| + 1..]))) else None
  }

  /** The provider of a mail domain, and whether it takes application passwords. */
  function ProviderOfDomain(domain: string): (r: (Option<Provider>, bool))
    ensures r.1 ==> r.0.Some? && !r.0.value.Outlook? && !r.0.value.Custom?
  {
    if domain == "gmail.com" then (Some(Gmail), true)
    else if domain == "qq.com" then (Some(Qq), true)
    else if domain == "163.com" then (Some(Netease163), true)
    else if domain == "126.com" then (Some(Netease126), true)
    else if domain == "icloud.com" || domain == "me.com" || domain == "mac.com" then (Some(Icloud), true)
    else if domain == "yahoo.com" then (Some(Yahoo), true)
    else if domain == "zoho.com" then (Some(Zoho), true)
    else if domain == "aliyun.com" then (Some(Aliyun), true)
    else if domain == "fastmail.com" then (Some(Fastmail), true)
    else if domain == "aol.com" then (Some(Aol), true)
    else if domain == "gmx.com" then (Some(Gmx), true)
    else if domain == "mail.com" then (Some(Mailcom), true)
    else if domain == "yandex.com" || domain == "yandex.ru" || domain == "ya.ru" then (Some(Yandex), true)
    else if domain == "outlook.com" || domain == "hotmail.com" || domain == "live.com" || domain == "msn.com" then
      (Some(Outlook), false)
    else (None, false)
  }

  function InferProvider(email: string): (r: (Option<Provider>, bool))
    ensures r.1 ==> r.0.Some? && !r.0.value.Outlook? && !r.0.value.Custom?
  {
    match MailDomain(email)
    case None => (None, false)
    case Some(domain) => ProviderOfDomain(domain)
  }

  function OAuthAuthType(p: Provider): AuthType {
    if p.Gmail? then GoogleOauth else MicrosoftOauth
  }

  /** The length in bytes of the UTF-8 form. */
  function ByteLength(s: string): nat {
    if s == "" then 0 else ByteLength(s[1..]) + |Encode(s[0] as int)|
  }

  function Count(s: string, c: char): nat {
    if s == "" then 0 else Count(s[1..], c) + if s[0] == c then 1 else 0
  }

  predicate HasSuffix(s: string, suffix: string) {
    |suffix| <= |s| && s[|s| - |suffix|..] == suffix
  }

  predicate LooksLikeOAuthClientID(value: string) {
    var v := TrimSpace(value);
    HasSuffix(ToLower(v), ".apps.googleusercontent.com") || (ByteLength(v) == 36 && Count(v, '-') == 4)
  }

  predicate LooksLikeRefreshToken(value: string) {
    var v := TrimSpace(value);
    "M." <= v || "1//" <= v || "ya29." <= v
  }

  function AppPasswordAccount(email: string, p: Provider, password: string, login: Option<string>): Outcome {
    Account(Imported(email, p, AppPassword, None, None, None, Some(TrimSpace(password)), login, Defaults(p)))
  }

  /** An address, a client and a refresh token. */
  function ClientAndToken(email: string, p: Provider, parts: seq<string>): Outcome
    requires |parts| == 3
  {
    Account(Imported(email, p, OAuthAuthType(p), Some(TrimSpace(parts[1])), None, Some(TrimSpace(parts[2])),
                     None, None, Defaults(p)))
  }

  /** An address, its login password, a client, a refresh token, and perhaps the client's secret. */
  function AddressColumns(email: string, p: Provider, parts: seq<string>): Outcome
    requires |parts| >= 4
  {
    var config := if p.Outlook? then Defaults(p).(readMode := "IMAP_ONLY") else Defaults(p);
    if Optional(parts[2]).None? || Optional(parts[3]).None? then Rejected(OAuthFieldsRequired)
    else
      Account(Imported(email, p, OAuthAuthType(p), Optional(parts[2]),
                       if |parts| > 4 then Optional(parts[4]) else None, Optional(parts[3]),
                       None, Optional(parts[1]), config))
  }

  /** Address first: an application password, a client and refresh token, or the columns of an OAuth account. */
  function EmailFirst(parts: seq<string>, env: Env): Outcome
    requires |parts| >= 2
  {
    var email := ToLower(parts[0]);
    if !env.validEmail(email) then Rejected(InvalidEmail)
    else
      var (inferred, passwords) := InferProvider(email);
      var p := if inferred.Some? then inferred.value else Outlook;
      if |parts| == 2 && passwords then AppPasswordAccount(email, p, parts[1], None)
      else if |parts| == 3 && passwords && !LooksLikeOAuthClientID(parts[1]) then
        AppPasswordAccount(email, p, parts[1], Optional(parts[2]))
      else if |parts| == 3 && LooksLikeOAuthClientID(parts[1]) && LooksLikeRefreshToken(parts[2]) then
        ClientAndToken(email, p, parts)
      else if |parts| >= 4 then AddressColumns(email, p, parts)
      else Rejected(UnrecognizedEmailFirst)
  }

  function LegacyAccount(email: string, clientId: Option<string>, clientSecret: Option<string>,
                         refreshToken: Option<string>, login: Option<string>, env: Env): Outcome {
    if !env.validEmail(ToLower(email)) || clientId.None? || refreshToken.None? then Rejected(LegacyFieldsMissing)
    else
      Account(Imported(ToLower(email), Outlook, MicrosoftOauth, clientId, clientSecret, refreshToken,
                       None, login, Defaults(Outlook)))
  }

  /** The older Outlook columns, of which there are four orders. */
  function Legacy(parts: seq<string>, env: Env): Outcome {
    if |parts| < 3 then Rejected(TooFewLegacyColumns)
    else if |parts| >= 5 && ToLower(parts[3]) == "oauth" then
      LegacyAccount(parts[0], Optional(parts[1]), Optional(parts[2]), Optional(parts[4]), None, env)
    else if |parts| >= 5 then
      LegacyAccount(parts[0], Optional(parts[1]), None, Optional(parts[4]), None, env)
    else if |parts| == 4 then
      LegacyAccount(parts[0], Optional(parts[2]), None, Optional(parts[3]), Optional(parts[1]), env)
    else
      LegacyAccount(parts[0], Optional(parts[1]), None, Optional(parts[2]), None, env)
  }

  function OtherForm(parts: seq<string>, env: Env): Outcome
    requires |parts| >= 2
  {
    if '@' in parts[0] then EmailFirst(parts, env) else Legacy(parts, env)
  }
}
