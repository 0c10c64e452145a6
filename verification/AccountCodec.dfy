/**
 The line format in which mail accounts are exported and imported again: separator-joined columns,
 a base64url configuration document for OAuth accounts, a short and a long application-password form.
 */
module AccountCodec {
  import opened Accounts
  import opened Base64Url
  import opened Decimal
  import opened ImportForms
  import opened ImportTokens
  import opened ProviderConfig
  import opened Text
  import opened Utf8
  import opened Wrappers

  // ---------- Export ----------

  datatype Plain = Plain(clientSecret: string, refreshToken: string, password: string, loginPassword: string)

  /** A missing or blank secret reads as ""; None is a decryption error. */
  function Secret(value: Option<string>, env: Env): Option<string> {
    if value.None? || TrimSpace(value.value) == "" then Some("") else env.decrypt(value.value)
  }

  function Secrets(row: Row, env: Env): Option<Plain> {
    match (Secret(row.clientSecret, env), Secret(row.refreshToken, env), Secret(row.password, env),
           Secret(row.loginPassword, env))
    case (Some(s), Some(t), Some(p), Some(l)) => Some(Plain(s, t, p, l))
    case _ => None
  }

  function Text0(value: Option<string>): string {
    if value.Some? then value.value else ""
  }

  function FormatBool(b: bool): string {
    if b then "true" else "false"
  }

  predicate On(flag: Option<bool>) {
    flag != Some(false)
  }

  /** Two configurations that connect an application-password account in the same way. */
  predicate SameService(c: Config, d: Config) {
    && c.imapHost == d.imapHost && c.imapPort == d.imapPort && On(c.imapTls) == On(d.imapTls)
    && c.smtpHost == d.smtpHost && c.smtpPort == d.smtpPort && On(c.smtpSecure) == On(d.smtpSecure)
    && MailboxFolder(c, "INBOX") == MailboxFolder(d, "INBOX")
    && MailboxFolder(c, "Junk") == MailboxFolder(d, "Junk")
    && MailboxFolder(c, "SENT") == MailboxFolder(d, "SENT")
  }

  function DocumentColumn(c: Config, env: Env): string {
    "config:" + EncodeToString(env.marshal(c))
  }

  /** The nine columns that only the long application-password form carries. */
  function ServiceColumns(c: Config): seq<string> {
    [c.imapHost, Itoa(c.imapPort), FormatBool(On(c.imapTls)),
     c.smtpHost, Itoa(c.smtpPort), FormatBool(On(c.smtpSecure)),
     MailboxFolder(c, "INBOX"), MailboxFolder(c, "Junk"), MailboxFolder(c, "SENT")]
  }

  /** The application-password form; only the long one carries the service columns. */
  function AppPasswordColumns(row: Row, plain: Plain, c: Config, long: bool, rawSecrets: bool): seq<string> {
    [ImportToken(row.provider, row.authType), row.email, plain.password]
    + (if long then ServiceColumns(c) else [])
    + (if rawSecrets then [plain.loginPassword] else [])
  }

  function OAuthColumns(row: Row, plain: Plain, c: Config, rawSecrets: bool, env: Env): seq<string> {
    [ImportToken(row.provider, row.authType), row.email, Text0(row.clientId), plain.clientSecret, plain.refreshToken,
     if rawSecrets then plain.loginPassword else "", DocumentColumn(c, env)]
  }

  /** The columns of one exported line. */
  function Columns(row: Row, plain: Plain, c: Config, rawSecrets: bool, env: Env): seq<string> {
    if row.authType.AppPassword? then
      AppPasswordColumns(row, plain, c, !SameService(c, Defaults(row.provider)), rawSecrets)
    else
      OAuthColumns(row, plain, c, rawSecrets, env)
  }

  /** `line` is an export of `row` whose merged configuration is `c`. */
  ghost predicate Exports(row: Row, sep: string, rawSecrets: bool, env: Env, c: Config, line: string) {
    && Secrets(row, env).Some?
    && MergeResult(Defaults(row.provider), row.providerConfig, env.unmarshal, Ok(c))
    && line == Join(Columns(row, Secrets(row, env).value, c, rawSecrets, env), sep)
  }

  method FormatExportMailAccount(row: Row, sep: string, rawSecrets: bool, env: Env)
    returns (line: Option<string>, ghost merged: Option<Config>)
    ensures line.Some? <==> merged.Some?
    ensures line.Some? ==> Exports(row, sep, rawSecrets, env, merged.value, line.value)
    ensures line.None? ==> Secrets(row, env) == None
                           || exists e :: MergeResult(Defaults(row.provider), row.providerConfig, env.unmarshal, Err(e))
  {
    line, merged := None, None;
    var clientSecret := Secret(row.clientSecret, env);
    if clientSecret.None? { return; }
    var refreshToken := Secret(row.refreshToken, env);
    if refreshToken.None? { return; }
    var password := Secret(row.password, env);
    if password.None? { return; }
    var loginPassword := Secret(row.loginPassword, env);
    if loginPassword.None? { return; }
    var outcome := MergeProviderConfigInto(Defaults(row.provider), row.providerConfig, env.unmarshal);
    if outcome.Err? { return; }
    var plain := Plain(clientSecret.value, refreshToken.value, password.value, loginPassword.value);
    var parts := AppendColumns(row, plain, outcome.value, rawSecrets, env);
    line, merged := Some(Join(parts, sep)), Some(outcome.value);
  }

  method AppendColumns(row: Row, plain: Plain, config: Config, rawSecrets: bool, env: Env) returns (parts: seq<string>)
    ensures parts == Columns(row, plain, config, rawSecrets, env)
  {
    var head := ImportToken(row.provider, row.authType);
    if !row.authType.AppPassword? {
      parts := [head, row.email, Text0(row.clientId), plain.clientSecret, plain.refreshToken, ""];
      if rawSecrets {
        parts := parts[5 := plain.loginPassword];
      }
      parts := parts + [DocumentColumn(config, env)];
    } else {
      parts := [head, row.email, plain.password];
      if !SameService(config, Defaults(row.provider)) {
        parts := parts + ServiceColumns(config);
      }
      if rawSecrets {
        parts := parts + [plain.loginPassword];
      }
    }
  }

  // ---------- Import ----------

  function ParsePort(value: string, fallback: int): int {
    match ParseInt(TrimSpace(value))
    case Some(n) => if 1 <= n <= 65535 then n else fallback
    case None => fallback
  }

  /** strconv.ParseBool; None is a syntax error. */
  function ParseBool(value: string): Option<bool> {
    if value in {"1", "t", "T", "TRUE", "true", "True"} then Some(true)
    else if value in {"0", "f", "F", "FALSE", "false", "False"} then Some(false)
    else None
  }

  function ParseFlag(value: string, fallback: bool): bool {
    if TrimSpace(value) == "" then fallback
    else match ParseBool(TrimSpace(value))
         case Some(b) => b
         case None => fallback
  }

  function OrDefault(value: string, fallback: string): string {
    if TrimSpace(value) == "" then fallback else TrimSpace(value)
  }

  const DOCUMENT_PREFIX := "config:"

  /** The results decoding a configuration column may have. */
  ghost predicate DocumentResult(p: Provider, column: string, env: Env, r: Result<Config, ImportError>) {
    var text := TrimSpace(column);
    if !(DOCUMENT_PREFIX <= text) then r == Err(OAuthConfigInvalid)
    else
      match DecodeString(text[|DOCUMENT_PREFIX|..])
      case None => r == Err(OAuthConfigUndecodable)
      case Some(raw) =>
        || (exists c :: MergeResult(Defaults(p), raw, env.unmarshal, Ok(c)) && r == Ok(c))
        || (exists e :: MergeResult(Defaults(p), raw, env.unmarshal, Err(e)) && r == Err(OAuthConfigRejected(e)))
  }

  method DecodeImportedOAuthProviderConfig(p: Provider, column: string, env: Env)
    returns (r: Result<Config, ImportError>)
    ensures DocumentResult(p, column, env, r)
  {
    var encoded := TrimSpace(column);
    if !(DOCUMENT_PREFIX <= encoded) {
      return Err(OAuthConfigInvalid);
    }
    var raw := DecodeString(encoded[|DOCUMENT_PREFIX|..]);
    if raw.None? {
      return Err(OAuthConfigUndecodable);
    }
    var merged := MergeProviderConfigInto(Defaults(p), raw.value, env.unmarshal);
    match merged
    case Ok(c) => return Ok(c);
    case Err(e) => return Err(OAuthConfigRejected(e));
  }

  function LongFormConfig(parts: seq<string>): Config
    requires |parts| >= 12
  {
    Config("IMAP", parts[3], ParsePort(parts[4], 993), Some(ParseFlag(parts[5], true)),
           parts[6], ParsePort(parts[7], 465), Some(ParseFlag(parts[8], true)),
           Some(map["inbox" := OrDefault(parts[9], "INBOX"), "junk" := OrDefault(parts[10], "Junk"),
                    "sent" := OrDefault(parts[11], "Sent")]),
           "", "")
  }

  /** The OAuth form, given the outcome of decoding its configuration column. */
  function TokenizedOAuth(parts: seq<string>, p: Provider, a: AuthType, document: Result<Config, ImportError>): Outcome
    requires |parts| >= 3
  {
    if |parts| < 5 || parts[2] == "" || parts[4] == "" then Rejected(OAuthFieldsRequired)
    else if |parts| > 6 && document.Err? then Rejected(document.error)
    else
      Account(Imported(
        ToLower(parts[1]), p, a,
        Some(TrimSpace(parts[2])), Optional(parts[3]), Some(TrimSpace(parts[4])), None,
        if |parts| > 5 then Optional(parts[5]) else None,
        if |parts| > 6 then document.value else Defaults(p)))
  }

  /** The application-password form: twelve columns or more carry a whole configuration. */
  function TokenizedAppPassword(parts: seq<string>, p: Provider): Outcome
    requires |parts| >= 3
  {
    var config := if |parts| >= 12 then LongFormConfig(parts) else Defaults(p);
    if parts[2] == "" then Rejected(PasswordRequired)
    else if config.imapHost == "" || config.smtpHost == "" then Rejected(HostsRequired)
    else
      Account(Imported(
        ToLower(parts[1]), p, AppPassword,
        None, None, None, Some(TrimSpace(parts[2])),
        if |parts| > 12 then Optional(parts[12]) else if 3 < |parts| < 12 then Optional(parts[3]) else None,
        config))
  }

  /** What a tokenized line means. */
  function Tokenized(parts: seq<string>, p: Provider, a: AuthType, document: Result<Config, ImportError>,
                     env: Env): Outcome {
    if |parts| < 3 || !env.validEmail(ToLower(parts[1])) then Rejected(InvalidEmail)
    else if a.AppPassword? then TokenizedAppPassword(parts, p)
    else TokenizedOAuth(parts, p, a, document)
  }

  /** Whether parsing gets as far as the configuration column. */
  predicate ReadsDocument(parts: seq<string>, a: AuthType, env: Env) {
    !a.AppPassword? && |parts| > 6 && env.validEmail(ToLower(parts[1])) && parts[2] != "" && parts[4] != ""
  }

  function TrimAll(parts: seq<string>): (r: seq<string>)
    ensures |r| == |parts| && forall i :: 0 <= i < |parts| ==> r[i] == TrimSpace(parts[i])
  {
    seq(|parts|, i requires 0 <= i < |parts| => TrimSpace(parts[i]))
  }

  /** The outcomes parsing a line may have. */
  ghost predicate ParseResult(line: string, sep: string, env: Env, r: Outcome)
    requires sep != ""
  {
    var parts := TrimAll(Split(line, sep));
    if |parts| < 2 then r == Rejected(InvalidFormat)
    else
      match TokenProfile(parts[0])
      case None => r == OtherForm(parts, env)
      case Some((p, a)) =>
        exists document: Result<Config, ImportError> ::
          (ReadsDocument(parts, a, env) ==> DocumentResult(p, parts[6], env, document))
          && r == Tokenized(parts, p, a, document, env)
  }

  method ParseTokenizedImportedMailAccount(parts: seq<string>, p: Provider, a: AuthType, env: Env)
    returns (r: Outcome, ghost document: Result<Config, ImportError>)
    ensures r == Tokenized(parts, p, a, document, env)
    ensures ReadsDocument(parts, a, env) ==> DocumentResult(p, parts[6], env, document)
  {
    document := Err(OAuthConfigInvalid);
    if |parts| < 3 || !env.validEmail(ToLower(parts[1])) {
      r := Rejected(InvalidEmail);
    } else if !a.AppPassword? {
      r, document := FillOAuth(parts, p, a, env);
    } else {
      r := FillAppPassword(parts, p);
    }
  }

  method FillOAuth(parts: seq<string>, p: Provider, a: AuthType, env: Env)
    returns (r: Outcome, ghost document: Result<Config, ImportError>)
    requires |parts| >= 3
    ensures r == TokenizedOAuth(parts, p, a, document)
    ensures |parts| > 6 && parts[2] != "" && parts[4] != "" ==> DocumentResult(p, parts[6], env, document)
  {
    document := Err(OAuthConfigInvalid);
    if |parts| < 5 || parts[2] == "" || parts[4] == "" {
      return Rejected(OAuthFieldsRequired), document;
    }
    var clientId := Some(TrimSpace(parts[2]));
    var clientSecret := Optional(parts[3]);
    var refreshToken := Some(TrimSpace(parts[4]));
    var loginPassword, config := None, Defaults(p);
    if |parts| > 5 {
      loginPassword := Optional(parts[5]);
    }
    if |parts| > 6 {
      var decoded := DecodeImportedOAuthProviderConfig(p, parts[6], env);
      document := decoded;
      if decoded.Err? {
        return Rejected(decoded.error), document;
      }
      config := decoded.value;
    }
    r := Account(Imported(ToLower(parts[1]), p, a, clientId, clientSecret, refreshToken, None, loginPassword, config));
  }

  method FillAppPassword(parts: seq<string>, p: Provider) returns (r: Outcome)
    requires |parts| >= 3
    ensures r == TokenizedAppPassword(parts, p)
  {
    if parts[2] == "" {
      return Rejected(PasswordRequired);
    }
    var config, loginPassword := Defaults(p), None;
    if |parts| >= 12 {
      config := LongFormConfig(parts);
      if |parts| > 12 {
        loginPassword := Optional(parts[12]);
      }
    } else if |parts| > 3 {
      loginPassword := Optional(parts[3]);
    }
    if config.imapHost == "" || config.smtpHost == "" {
      return Rejected(HostsRequired);
    }
    r := Account(Imported(ToLower(parts[1]), p, AppPassword, None, None, None, Some(TrimSpace(parts[2])),
                          loginPassword, config));
  }

  method ParseImportedMailAccount(line: string, sep: string, env: Env) returns (r: Outcome)
    requires sep != ""
    ensures ParseResult(line, sep, env, r)
  {
    var parts := Split(line, sep);
    var i := 0;
    while i < |parts|
      invariant 0 <= i <= |parts| == |Split(line, sep)|
      invariant parts[..i] == TrimAll(Split(line, sep))[..i]
      invariant parts[i..] == Split(line, sep)[i..]
    {
      parts := parts[i := TrimSpace(parts[i])];
      i := i + 1;
    }
    assert parts == TrimAll(Split(line, sep));
    if |parts| < 2 {
      return Rejected(InvalidFormat);
    }
    match TokenProfile(parts[0]) {
      case None =>
        if '@' in parts[0] {
          return EmailFirst(parts, env);
        }
        return Legacy(parts, env);
      case Some(profile) =>
        var outcome, document := ParseTokenizedImportedMailAccount(parts, profile.0, profile.1, env);
        return outcome;
    }
  }

  // ---------- Secrets ----------

  /** A missing or blank secret is exported as an empty column, any other one decrypted. */
  lemma SecretIs(value: Option<string>, env: Env)
    ensures value == None ==> Secret(value, env) == Some("")
    ensures value.Some? && TrimSpace(value.value) == "" ==> Secret(value, env) == Some("")
    ensures value.Some? && TrimSpace(value.value) != "" ==> Secret(value, env) == env.decrypt(value.value)
  {
  }

  /** An export fails on a secret exactly when one that is there cannot be decrypted; each goes to its own field. */
  lemma SecretsAre(row: Row, env: Env)
    ensures Secrets(row, env).Some? <==>
              && Secret(row.clientSecret, env).Some? && Secret(row.refreshToken, env).Some?
              && Secret(row.password, env).Some? && Secret(row.loginPassword, env).Some?
    ensures Secrets(row, env).Some? ==>
              var plain := Secrets(row, env).value;
              && Some(plain.clientSecret) == Secret(row.clientSecret, env)
              && Some(plain.refreshToken) == Secret(row.refreshToken, env)
              && Some(plain.password) == Secret(row.password, env)
              && Some(plain.loginPassword) == Secret(row.loginPassword, env)
  {
  }
}
