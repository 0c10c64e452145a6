/** An imported account that was stored: its export reads back as the account that was imported. */
module AccountReimport {
  import opened AccountCodec
  import opened AccountRoundTrip
  import opened Accounts
  import Base64Url
  import opened ImportForms
  import opened ImportTokens
  import opened ProviderConfig
  import opened Text
  import opened Wrappers

  // ---------- Storing ----------

  type Encrypt = string -> string

  /** Decryption inverts encryption, and an envelope is never blank. */
  ghost predicate Opens(env: Env, encrypt: Encrypt) {
    forall s :: TrimSpace(encrypt(s)) != "" && env.decrypt(encrypt(s)) == Some(s)
  }

  function EncryptValue(value: Option<string>, encrypt: Encrypt): Option<string> {
    if value.None? || TrimSpace(value.value) == "" then None else Some(encrypt(TrimSpace(value.value)))
  }

  /** The stored OAuth client of a provider. */
  datatype OAuthSettings = OAuthSettings(clientId: Option<string>, tenant: string, scopes: string)

  /** An OAuth account of the stored client takes its tenant and scopes from there when it has none. */
  function Completed(config: Config, clientId: Option<string>, settings: Option<OAuthSettings>): Config {
    if clientId.None? || (config.oauthTenant != "" && config.oauthScopes != "") then config
    else if settings.None? || settings.value.clientId.None?
            || TrimSpace(settings.value.clientId.value) != TrimSpace(clientId.value) then config
    else
      config.(oauthTenant := if config.oauthTenant == "" then TrimSpace(settings.value.tenant) else config.oauthTenant,
              oauthScopes := if config.oauthScopes == "" then TrimSpace(settings.value.scopes) else config.oauthScopes)
  }

  predicate BlankOption(value: Option<string>) {
    value.None? || TrimSpace(value.value) == ""
  }

  /** The checks before an account is stored. */
  predicate ValidInput(a: Imported) {
    && ValidProfile(a.provider, a.authType)
    && if a.authType.AppPassword? then
         !BlankOption(a.password) && TrimSpace(a.config.imapHost) != "" && TrimSpace(a.config.smtpHost) != ""
       else
         !BlankOption(a.clientId) && !BlankOption(a.refreshToken)
  }

  /** What is stored of an account, its configuration completed. */
  function ToStore(a: Imported, settings: Option<OAuthSettings>): Imported {
    a.(config := Completed(a.config, a.clientId, settings))
  }

  function StoredRow(a: Imported, encrypt: Encrypt, env: Env): Row {
    Row(ToLower(TrimSpace(a.email)), a.provider, a.authType, a.clientId,
        EncryptValue(a.clientSecret, encrypt), EncryptValue(a.refreshToken, encrypt),
        EncryptValue(a.password, encrypt), EncryptValue(a.loginPassword, encrypt),
        env.marshal(a.config))
  }

  /** Which provider takes which kind of credentials, and what each kind must bring along. */
  lemma ChecksAre(a: Imported)
    ensures var google, microsoft := a.authType.GoogleOauth?, a.authType.MicrosoftOauth?;
            ValidInput(a) <==>
            && (microsoft <==> a.provider == Outlook) && (google ==> a.provider == Gmail)
            && (google || microsoft ==> !BlankOption(a.clientId) && !BlankOption(a.refreshToken))
            && (!google && !microsoft ==> !BlankOption(a.password)
                                          && TrimSpace(a.config.imapHost) != "" && TrimSpace(a.config.smtpHost) != "")
  {
  }

  /** A secret is stored exactly when it is there and not blank, and then opens to its trimmed text. */
  lemma SecretIsStored(value: Option<string>, encrypt: Encrypt, env: Env)
    requires Opens(env, encrypt)
    ensures EncryptValue(value, encrypt) == None <==> value == None || TrimSpace(value.value) == ""
    ensures EncryptValue(value, encrypt).Some? ==>
              env.decrypt(EncryptValue(value, encrypt).value) == Some(TrimSpace(value.value))
  {
  }

  // ---------- What an import yields ----------

  predicate OptionalFilled(value: Option<string>) {
    value.Some? ==> Filled(value.value)
  }

  /** The configurations of application-password accounts: the provider's, or one spelled out in full. */
  predicate ServiceGiven(p: Provider, c: Config) {
    && Filled(c.imapHost) && Filled(c.smtpHost)
    && (c == Defaults(p)
        || (&& PortsValid(c) && c.imapTls.Some? && c.smtpSecure.Some?
            && c.folders.Some? && PlainFolders(c.folders.value)))
  }

  predicate PlainFolders(folders: map<string, string>) {
    && "inbox" in folders && "junk" in folders && "sent" in folders
    && forall k :: k in folders ==> IsLower(k) && Filled(folders[k])
  }

  predicate ImportedWell(a: Imported, env: Env) {
    && CredentialsWell(a, env)
    && if a.authType.AppPassword? then ServiceGiven(a.provider, a.config) else Settled(a.provider, a.config)
  }

  predicate CredentialsWell(a: Imported, env: Env) {
    && ValidProfile(a.provider, a.authType)
    && Trimmed(a.email) && IsLower(a.email) && env.validEmail(a.email)
    && OptionalFilled(a.clientId) && OptionalFilled(a.clientSecret) && OptionalFilled(a.refreshToken)
    && OptionalFilled(a.password) && OptionalFilled(a.loginPassword)
    && if a.authType.AppPassword? then
         a.password.Some? && a.clientId == a.clientSecret == a.refreshToken == None
       else
         a.clientId.Some? && a.refreshToken.Some? && a.password == None
  }

  lemma {:induction false} LookUpHasNoOutlook(token: string, table: seq<Provider>)
    requires forall i :: 0 <= i < |table| ==> !table[i].Outlook?
    ensures LookUp(token, table) != Some(Outlook)
  {
    if table != [] {
      LookUpHasNoOutlook(token, table[1..]);
    }
  }

  lemma ProfileIsValid(value: string)
    ensures var r := TokenProfile(value); r.Some? ==> ValidProfile(r.value.0, r.value.1)
  {
    LookUpHasNoOutlook(ToUpper(TrimSpace(value)), TABLE);
  }

  lemma OptionalIsFilled(s: string)
    ensures OptionalFilled(Optional(s)) && (Trimmed(s) && s != "" ==> Filled(TrimSpace(s)))
  {
    TrimSpaceFixes(s);
  }

  lemma DefaultIsFilled(s: string, fallback: string)
    requires Filled(fallback)
    ensures Filled(OrDefault(s, fallback))
  {
    TrimSpaceFixes(s);
  }

  lemma ThreeFolders(inbox: string, junk: string, sent: string)
    requires Filled(inbox) && Filled(junk) && Filled(sent)
    ensures PlainFolders(map["inbox" := inbox, "junk" := junk, "sent" := sent])
  {
    assert IsLower("inbox") && IsLower("junk") && IsLower("sent");
  }

  lemma LongFormGiven(parts: seq<string>, p: Provider)
    requires |parts| >= 12 && Filled(parts[3]) && Filled(parts[6])
    ensures ServiceGiven(p, LongFormConfig(parts))
  {
    DefaultIsFilled(parts[9], "INBOX");
    DefaultIsFilled(parts[10], "Junk");
    DefaultIsFilled(parts[11], "Sent");
    ThreeFolders(OrDefault(parts[9], "INBOX"), OrDefault(parts[10], "Junk"), OrDefault(parts[11], "Sent"));
    PortIsValid(parts[4], 993);
    PortIsValid(parts[7], 465);
    var c := LongFormConfig(parts);
    assert PortsValid(c);
  }

  lemma PortIsValid(value: string, fallback: int)
    requires 1 <= fallback <= 65535
    ensures 1 <= ParsePort(value, fallback) <= 65535
  {
  }

  lemma DefaultHostsTrimmed(p: Provider)
    ensures Trimmed(Hosts(p).0) && Trimmed(Hosts(p).1)
  {
  }

  /** The last column an application-password line may carry. */
  function LoginColumn(parts: seq<string>): Option<string>
    requires |parts| >= 3
  {
    if |parts| > 12 then Optional(parts[12]) else if 3 < |parts| < 12 then Optional(parts[3]) else None
  }

  lemma LoginFilled(parts: seq<string>)
    requires |parts| >= 3
    ensures OptionalFilled(LoginColumn(parts))
  {
    if |parts| > 12 {
      OptionalIsFilled(parts[12]);
    } else if 3 < |parts| < 12 {
      OptionalIsFilled(parts[3]);
    }
  }

  lemma AppPasswordFields(parts: seq<string>, p: Provider, a: Imported)
    requires |parts| >= 3 && TokenizedAppPassword(parts, p) == Account(a)
    ensures a.email == ToLower(parts[1]) && parts[2] != "" && a.password == Some(TrimSpace(parts[2]))
    ensures a.clientId == a.clientSecret == a.refreshToken == None && a.loginPassword == LoginColumn(parts)
    ensures a.provider == p && a.authType == AppPassword
  {
  }

  lemma AppPasswordCredentials(parts: seq<string>, p: Provider, env: Env, a: Imported)
    requires |parts| >= 3 && AllTrimmed(parts) && env.validEmail(ToLower(parts[1])) && ValidProfile(p, AppPassword)
    requires TokenizedAppPassword(parts, p) == Account(a)
    ensures CredentialsWell(a, env) && a.provider == p && a.authType == AppPassword
  {
    AppPasswordFields(parts, p, a);
    LoginFilled(parts);
    assert Trimmed(parts[1]) && Trimmed(parts[2]);
    ToLowerFixes(parts[1]);
    OptionalIsFilled(parts[2]);
  }

  lemma AppPasswordService(parts: seq<string>, p: Provider, a: Imported)
    requires |parts| >= 3 && AllTrimmed(parts) && TokenizedAppPassword(parts, p) == Account(a)
    ensures ServiceGiven(p, a.config)
  {
    if |parts| >= 12 {
      LongFormGiven(parts, p);
    } else {
      DefaultHostsTrimmed(p);
    }
  }

  lemma AppPasswordWell(parts: seq<string>, p: Provider, env: Env, a: Imported)
    requires |parts| >= 3 && AllTrimmed(parts) && env.validEmail(ToLower(parts[1])) && ValidProfile(p, AppPassword)
    requires TokenizedAppPassword(parts, p) == Account(a)
    ensures ImportedWell(a, env)
  {
    AppPasswordCredentials(parts, p, env, a);
    AppPasswordService(parts, p, a);
  }

  lemma OAuthWell(parts: seq<string>, p: Provider, auth: AuthType, document: Result<Config, ImportError>, env: Env,
                  a: Imported)
    requires |parts| >= 3 && AllTrimmed(parts) && env.validEmail(ToLower(parts[1])) && ValidProfile(p, auth)
             && !auth.AppPassword?
    requires TokenizedOAuth(parts, p, auth, document) == Account(a)
    requires |parts| > 6 ==> DocumentResult(p, parts[6], env, document)
    ensures ImportedWell(a, env)
  {
    ToLowerFixes(parts[1]);
    OptionalIsFilled(parts[2]);
    OptionalIsFilled(parts[3]);
    OptionalIsFilled(parts[4]);
    DefaultsSettled(p);
    if |parts| > 5 {
      OptionalIsFilled(parts[5]);
    }
    if |parts| > 6 {
      DocumentSettled(p, parts[6], env, document);
    }
  }

  lemma DocumentSettled(p: Provider, column: string, env: Env, document: Result<Config, ImportError>)
    requires DocumentResult(p, column, env, document) && document.Ok?
    ensures Settled(p, document.value)
  {
    DefaultsSettled(p);
    var text := TrimSpace(column);
    var raw := Base64Url.DecodeString(text[|DOCUMENT_PREFIX|..]).value;
    var c :| MergeResult(Defaults(p), raw, env.unmarshal, Ok(c)) && document == Ok(c);
    MergeSettled(p, Defaults(p), raw, env.unmarshal, Ok(c));
  }

  lemma TrimAllIsTrimmed(parts: seq<string>)
    ensures AllTrimmed(TrimAll(parts))
  {
    forall i | 0 <= i < |parts|
      ensures Trimmed(TrimSpace(parts[i]))
    {
      TrimSpaceFixes(parts[i]);
    }
  }

  lemma TokenizedIsWell(parts: seq<string>, p: Provider, auth: AuthType, document: Result<Config, ImportError>,
                        env: Env, a: Imported)
    requires |parts| >= 2 && AllTrimmed(parts) && ValidProfile(p, auth)
    requires ReadsDocument(parts, auth, env) ==> DocumentResult(p, parts[6], env, document)
    requires Account(a) == Tokenized(parts, p, auth, document, env)
    ensures ImportedWell(a, env)
  {
    if auth.AppPassword? {
      AppPasswordWell(parts, p, env, a);
    } else {
      OAuthWell(parts, p, auth, document, env, a);
    }
  }

  predicate TrimmedOption(value: Option<string>) {
    value.Some? ==> Trimmed(value.value)
  }

  /** What the formats without a token yield. */
  predicate Shaped(a: Imported, email: string, env: Env) {
    && a.email == ToLower(email) && env.validEmail(a.email)
    && TrimmedOption(a.clientId) && TrimmedOption(a.refreshToken) && TrimmedOption(a.password)
    && OptionalFilled(a.clientSecret) && OptionalFilled(a.loginPassword)
    && (a.config == Defaults(a.provider) || a.config == Defaults(a.provider).(readMode := "IMAP_ONLY"))
    && if a.authType.AppPassword? then
         a.config == Defaults(a.provider) && a.clientId == a.clientSecret == a.refreshToken == None
       else
         a.password == None
  }

  lemma TrimmedParts(parts: seq<string>)
    ensures forall i :: 0 <= i < |parts| ==> OptionalFilled(Optional(parts[i])) && Trimmed(TrimSpace(parts[i]))
  {
    forall i | 0 <= i < |parts|
      ensures OptionalFilled(Optional(parts[i])) && Trimmed(TrimSpace(parts[i]))
    {
      TrimSpaceFixes(parts[i]);
    }
  }

  lemma EmailFirstIsShaped(parts: seq<string>, env: Env, a: Imported)
    requires |parts| >= 2 && EmailFirst(parts, env) == Account(a)
    ensures Shaped(a, parts[0], env)
  {
    TrimmedParts(parts);
  }

  lemma LegacyIsShaped(parts: seq<string>, env: Env, a: Imported)
    requires Legacy(parts, env) == Account(a)
    ensures Shaped(a, parts[0], env)
  {
    TrimmedParts(parts);
  }

  lemma NotBlankIsFilled(value: Option<string>)
    requires TrimmedOption(value) && !BlankOption(value)
    ensures OptionalFilled(value)
  {
    TrimSpaceFixes(value.value);
  }

  /** An account without a token is well-formed when it passes the checks before it is stored. */
  lemma ShapedIsWell(a: Imported, email: string, env: Env)
    requires Shaped(a, email, env) && Trimmed(email) && ValidInput(a)
    ensures ImportedWell(a, env)
  {
    ToLowerFixes(email);
    if a.authType.AppPassword? {
      NotBlankIsFilled(a.password);
      DefaultHostsTrimmed(a.provider);
      TrimSpaceFixes(a.config.imapHost);
      TrimSpaceFixes(a.config.smtpHost);
    } else {
      NotBlankIsFilled(a.clientId);
      NotBlankIsFilled(a.refreshToken);
      DefaultsSettled(a.provider);
    }
  }

  lemma OtherFormIsWell(parts: seq<string>, env: Env, a: Imported)
    requires |parts| >= 2 && AllTrimmed(parts) && OtherForm(parts, env) == Account(a) && ValidInput(a)
    ensures ImportedWell(a, env)
  {
    assert Trimmed(parts[0]);
    if '@' in parts[0] {
      EmailFirstIsShaped(parts, env, a);
    } else {
      LegacyIsShaped(parts, env, a);
    }
    ShapedIsWell(a, parts[0], env);
  }

  lemma LooksAreNotBlank(value: string)
    requires LooksLikeOAuthClientID(value) || LooksLikeRefreshToken(value)
    ensures TrimSpace(TrimSpace(value)) != ""
  {
    TrimSpaceFixes(value);
    TrimSpaceFixes(TrimSpace(value));
    assert ByteLength("") == 0 && ToLower("") == "";
  }

  lemma OptionalIsNotBlank(value: string)
    ensures Optional(value).None? || !BlankOption(Optional(value))
  {
    TrimSpaceFixes(value);
    TrimSpaceFixes(TrimSpace(value));
  }

  lemma PasswordStored(email: string, p: Provider, password: string, login: Option<string>)
    requires !p.Outlook? && !p.Custom?
    ensures ValidInput(AppPasswordAccount(email, p, password, login).account) <==> TrimSpace(password) != ""
  {
    TrimSpaceFixes(password);
    TrimSpaceFixes(TrimSpace(password));
    DefaultHostsTrimmed(p);
    TrimSpaceFixes(Hosts(p).0);
    TrimSpaceFixes(Hosts(p).1);
  }

  lemma ClientAndTokenStored(email: string, p: Provider, parts: seq<string>)
    requires |parts| == 3 && LooksLikeOAuthClientID(parts[1]) && LooksLikeRefreshToken(parts[2])
    ensures ValidInput(ClientAndToken(email, p, parts).account) <==> p.Outlook? || p.Gmail?
  {
    LooksAreNotBlank(parts[1]);
    LooksAreNotBlank(parts[2]);
  }

  lemma AddressColumnsStored(email: string, p: Provider, parts: seq<string>)
    requires |parts| >= 4 && AddressColumns(email, p, parts).Account?
    ensures ValidInput(AddressColumns(email, p, parts).account) <==> p.Outlook? || p.Gmail?
  {
    OptionalIsNotBlank(parts[2]);
    OptionalIsNotBlank(parts[3]);
  }

  /**
   Which of the lines that begin with an address are stored in the end: with a password, those that give one;
   with OAuth columns, those of Outlook (or of no known provider) and Gmail.
   */
  lemma EmailFirstStored(parts: seq<string>, env: Env, a: Imported)
    requires |parts| >= 2 && EmailFirst(parts, env) == Account(a)
    ensures if a.authType.AppPassword? then ValidInput(a) <==> TrimSpace(parts[1]) != ""
            else ValidInput(a) <==> a.provider.Outlook? || a.provider.Gmail?
  {
    var email := ToLower(parts[0]);
    var (inferred, passwords) := InferProvider(email);
    var p := if inferred.Some? then inferred.value else Outlook;
    if |parts| >= 4 {
      AddressColumnsStored(email, p, parts);
    } else if |parts| == 3 && (!passwords || LooksLikeOAuthClientID(parts[1])) {
      ClientAndTokenStored(email, p, parts);
    } else {
      PasswordStored(email, p, parts[1], if |parts| == 3 then Optional(parts[2]) else None);
    }
  }

  /** Every account that some line yields and that passes the checks before it is stored is well-formed. */
  lemma EveryStoredImportIsWell(line: string, sep: string, env: Env, a: Imported)
    requires sep != "" && ParseResult(line, sep, env, Account(a)) && ValidInput(a)
    ensures ImportedWell(a, env)
  {
    var parts := TrimAll(Split(line, sep));
    TrimAllIsTrimmed(Split(line, sep));
    ProfileIsValid(parts[0]);
    match TokenProfile(parts[0])
    case None => OtherFormIsWell(parts, env, a);
    case Some((p, auth)) =>
      var document: Result<Config, ImportError> :|
        (ReadsDocument(parts, auth, env) ==> DocumentResult(p, parts[6], env, document))
        && Account(a) == Tokenized(parts, p, auth, document, env);
      TokenizedIsWell(parts, p, auth, document, env, a);
  }

  /** A tokenized line that is accepted needs no check: it always passes them. */
  lemma TokenizedPassesChecks(line: string, sep: string, env: Env, a: Imported)
    requires sep != "" && ParseResult(line, sep, env, Account(a))
    requires TokenProfile(TrimAll(Split(line, sep))[0]).Some?
    ensures ImportedWell(a, env) && ValidInput(a)
  {
    var parts := TrimAll(Split(line, sep));
    TrimAllIsTrimmed(Split(line, sep));
    ProfileIsValid(parts[0]);
    var (p, auth) := TokenProfile(parts[0]).value;
    var document: Result<Config, ImportError> :|
      (ReadsDocument(parts, auth, env) ==> DocumentResult(p, parts[6], env, document))
      && Account(a) == Tokenized(parts, p, auth, document, env);
    TokenizedIsWell(parts, p, auth, document, env, a);
    WellPassesChecks(a, env);
  }

  lemma WellPassesChecks(a: Imported, env: Env)
    requires ImportedWell(a, env)
    ensures ValidInput(a)
  {
    if a.authType.AppPassword? {
      TrimSpaceFixes(a.password.value);
      TrimSpaceFixes(a.config.imapHost);
      TrimSpaceFixes(a.config.smtpHost);
    } else {
      TrimSpaceFixes(a.clientId.value);
      TrimSpaceFixes(a.refreshToken.value);
    }
  }

  /** Completing a configuration keeps it settled. */
  lemma CompletedIsWell(a: Imported, settings: Option<OAuthSettings>, env: Env)
    requires ImportedWell(a, env)
    ensures ImportedWell(ToStore(a, settings), env)
  {
    if settings.Some? {
      TrimSpaceFixes(settings.value.tenant);
      TrimSpaceFixes(settings.value.scopes);
    }
  }

  // ---------- What an export of it finds ----------

  function OrEmpty(value: Option<string>): string {
    if value.Some? then value.value else ""
  }

  function PlainOf(a: Imported): Plain {
    Plain(OrEmpty(a.clientSecret), OrEmpty(a.refreshToken), OrEmpty(a.password), OrEmpty(a.loginPassword))
  }

  lemma SecretReads(value: Option<string>, encrypt: Encrypt, env: Env)
    requires Opens(env, encrypt) && OptionalFilled(value)
    ensures Secret(EncryptValue(value, encrypt), env) == Some(OrEmpty(value))
  {
    if value.Some? {
      TrimSpaceFixes(value.value);
    }
  }

  lemma SecretsRead(a: Imported, encrypt: Encrypt, env: Env)
    requires Opens(env, encrypt) && ImportedWell(a, env)
    ensures Secrets(StoredRow(a, encrypt, env), env) == Some(PlainOf(a))
  {
    SecretReads(a.clientSecret, encrypt, env);
    SecretReads(a.refreshToken, encrypt, env);
    SecretReads(a.password, encrypt, env);
    SecretReads(a.loginPassword, encrypt, env);
  }

  /** A folder table with plain keys and values, laid over any other, answers for its own keys. */
  lemma PlainFoldersWin(base: map<string, string>, folders: map<string, string>, items: seq<Entry>, k: string)
    requires PlainFolders(folders) && Enumerates(items, folders) && k in folders
    ensures var r := FoldFolders(base, items); k in r && r[k] == folders[k]
  {
    FoldFoldersAt(base, items, k);
    forall i | 0 <= i < |items|
      ensures ToLower(items[i].0) == items[i].0 && TrimSpace(items[i].1) == items[i].1
    {
      ToLowerFixes(items[i].0);
      TrimSpaceFixes(items[i].1);
    }
    var i :| 0 <= i < |items| && items[i] == (k, folders[k]);
    assert ToLower(items[i].0) == k;
  }

  lemma FolderOf(c: Config, folders: map<string, string>, key: string, mailbox: string)
    requires c.folders == Some(folders) && key in folders && Filled(folders[key])
    requires ToLower(TrimSpace(mailbox)) == key && key != "spam"
    ensures MailboxFolder(c, mailbox) == folders[key]
  {
    TrimSpaceFixes(folders[key]);
  }

  lemma SameFolders(given: Config, merged: Config, base: map<string, string>, items: seq<Entry>)
    requires given.folders.Some? && PlainFolders(given.folders.value) && Enumerates(items, given.folders.value)
    requires merged.folders == Some(FoldFolders(base, items))
    ensures MailboxFolder(merged, "INBOX") == MailboxFolder(given, "INBOX")
    ensures MailboxFolder(merged, "Junk") == MailboxFolder(given, "Junk")
    ensures MailboxFolder(merged, "SENT") == MailboxFolder(given, "SENT")
  {
    var folders, r := given.folders.value, merged.folders.value;
    FolderKeys();
    PlainFoldersWin(base, folders, items, "inbox");
    PlainFoldersWin(base, folders, items, "junk");
    PlainFoldersWin(base, folders, items, "sent");
    FolderOf(given, folders, "inbox", "INBOX");
    FolderOf(given, folders, "junk", "Junk");
    FolderOf(given, folders, "sent", "SENT");
    FolderOf(merged, r, "inbox", "INBOX");
    FolderOf(merged, r, "junk", "Junk");
    FolderOf(merged, r, "sent", "SENT");
  }

  /** Loading the stored configuration of an application-password account connects it in the same way. */
  lemma StoredServiceReads(p: Provider, given: Config, env: Env, c: Config)
    requires ServiceGiven(p, given) && FaithfulDocument(given, env)
    requires MergeResult(Defaults(p), env.marshal(given), env.unmarshal, Ok(c))
    ensures SameService(c, given)
  {
    if given == Defaults(p) {
      DefaultsSettled(p);
      ReloadIsIdentity(p, given, env.marshal(given), env.unmarshal, Ok(c));
    } else {
      var items :| Enumerates(items, FolderTable(given.folders)) && c == Overridden(Defaults(p), given, items);
      SameFolders(given, c, DefaultFolders(p), items);
    }
  }

  lemma SameServiceChains(a: Config, b: Config, c: Config)
    requires SameService(a, b) && SameService(b, c)
    ensures SameService(a, c)
  {
  }

  predicate SameImported(r: Outcome, a: Imported) {
    && r.Account?
    && if a.authType.AppPassword? then
         SameService(r.account.config, a.config) && r.account == a.(config := r.account.config)
       else
         r.account == a
  }

  /**
   Import, complete, check, store, export with raw secrets, import again: the second import yields the
   account that was stored, for every line of every format, when the separator keeps the columns apart.
   */
  lemma ImportStoreExportImport(line: string, sep: string, env: Env, imported: Imported,
                                settings: Option<OAuthSettings>, encrypt: Encrypt,
                                c: Config, exported: string, sep': string, r: Outcome)
    requires sep != "" && ParseResult(line, sep, env, Account(imported)) && ValidInput(ToStore(imported, settings))
    requires Opens(env, encrypt) && FaithfulDocument(ToStore(imported, settings).config, env)
    requires var row := StoredRow(ToStore(imported, settings), encrypt, env);
             && sep' != "" && Exports(row, sep', true, env, c, exported)
             && Separable(Columns(row, Secrets(row, env).value, c, true, env), sep')
    requires ParseResult(exported, sep', env, r)
    ensures SameImported(r, ToStore(imported, settings))
  {
    var a := ToStore(imported, settings);
    var row := StoredRow(a, encrypt, env);
    EveryStoredImportIsWell(line, sep, env, imported);
    CompletedIsWell(imported, settings, env);
    SecretsRead(a, encrypt, env);
    TrimSpaceFixes(a.email);
    ToLowerFixes(a.email);
    if a.authType.AppPassword? {
      StoredServiceReads(a.provider, a.config, env, c);
    } else {
      ReloadIsIdentity(a.provider, a.config, env.marshal(a.config), env.unmarshal, Ok(c));
    }
    ExportThenImport(row, sep', true, env, c, exported, r);
    AccountIs(r, a, row, c, env);
  }

  lemma AccountIs(r: Outcome, a: Imported, row: Row, c: Config, env: Env)
    requires ImportedWell(a, env)
    requires row.email == a.email && row.provider == a.provider && row.authType == a.authType
             && row.clientId == a.clientId
    requires SameAccount(r, row, PlainOf(a), c, true)
    requires if a.authType.AppPassword? then SameService(c, a.config) else c == a.config
    ensures SameImported(r, a)
  {
    if a.authType.AppPassword? {
      SameServiceChains(r.account.config, c, a.config);
    }
  }

  /**
   Completion by fields: only an account with a client, of the stored client, is completed, and of tenant and scopes
   only what is missing, each from its own setting.
   */
  lemma CompletedFields(config: Config, clientId: Option<string>, settings: Option<OAuthSettings>)
    ensures var d := Completed(config, clientId, settings);
            && d == config.(oauthTenant := d.oauthTenant, oauthScopes := d.oauthScopes)
            && (clientId.None? || settings.None? || settings.value.clientId.None? ==> d == config)
            && (clientId.Some? && settings.Some? && settings.value.clientId.Some? ==>
                  var same := TrimSpace(settings.value.clientId.value) == TrimSpace(clientId.value);
                  && d.oauthTenant == (if same && config.oauthTenant == "" then TrimSpace(settings.value.tenant)
                                       else config.oauthTenant)
                  && d.oauthScopes == (if same && config.oauthScopes == "" then TrimSpace(settings.value.scopes)
                                       else config.oauthScopes))
  {
  }
}
