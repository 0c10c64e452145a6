/** Importing an exported account gives the account back. */
module AccountRoundTrip {
  import opened AccountCodec
  import opened Accounts
  import opened Base64Url
  import opened Decimal
  import opened ImportTokens
  import opened ProviderConfig
  import opened Text
  import opened Utf8
  import opened Wrappers

  predicate Filled(s: string) {
    s != "" && Trimmed(s)
  }

  /** An account that validation and the stored form admit, given its decrypted secrets and merged configuration. */
  predicate ValidAccount(row: Row, plain: Plain, c: Config, env: Env) {
    && ValidProfile(row.provider, row.authType)
    && Trimmed(row.email) && IsLower(row.email) && env.validEmail(row.email)
    && Trimmed(plain.loginPassword)
    && if row.authType.AppPassword? then
         Filled(plain.password) && Filled(c.imapHost) && Filled(c.smtpHost)
       else
         row.clientId.Some? && Filled(row.clientId.value) && Filled(plain.refreshToken) && Trimmed(plain.clientSecret)
  }

  /** The JSON codec is faithful on this configuration: UTF-8 text that decodes to what was encoded. */
  predicate FaithfulDocument(c: Config, env: Env) {
    var document := env.marshal(c);
    && Valid(document)
    && document != [] && document != NULL_DOCUMENT && document != EMPTY_OBJECT
    && env.unmarshal(document) == Some(c)
  }

  function Present(s: string): Option<string> {
    if s == "" then None else Some(s)
  }

  /** What importing the line must yield. */
  predicate SameAccount(r: Outcome, row: Row, plain: Plain, c: Config, rawSecrets: bool) {
    && r.Account?
    && r.account.email == row.email && r.account.provider == row.provider && r.account.authType == row.authType
    && r.account.loginPassword == (if rawSecrets then Present(plain.loginPassword) else None)
    && if row.authType.AppPassword? then
         r.account.password == Some(plain.password) && SameService(r.account.config, c)
         && r.account.clientId == r.account.clientSecret == r.account.refreshToken == None
       else
         && r.account.clientId == row.clientId
         && r.account.clientSecret == Present(plain.clientSecret)
         && r.account.refreshToken == Some(plain.refreshToken)
         && r.account.password == None
         && r.account.config == c
  }

  // ---------- Columns are trimmed ----------

  predicate AllTrimmed(parts: seq<string>) {
    forall i :: 0 <= i < |parts| ==> Trimmed(parts[i])
  }

  lemma TrimAllFixes(parts: seq<string>)
    requires AllTrimmed(parts)
    ensures TrimAll(parts) == parts
  {
    forall i | 0 <= i < |parts|
      ensures TrimSpace(parts[i]) == parts[i]
    {
      TrimSpaceFixes(parts[i]);
    }
  }

  lemma ItoaTrimmed(n: int)
    ensures Filled(Itoa(n)) && (n >= 0 ==> '-' !in Itoa(n))
  {
    if n >= 0 {
      assert AllDigits(Itoa(n));
    } else {
      var d := Digits(-n);
      assert IsDigit(d[|d| - 1]);
      assert Itoa(n)[|Itoa(n)| - 1] == d[|d| - 1];
    }
  }

  lemma FolderKeys()
    ensures ToLower(TrimSpace("INBOX")) == "inbox"
    ensures ToLower(TrimSpace("Junk")) == "junk"
    ensures ToLower(TrimSpace("SENT")) == "sent"
    ensures "inbox" != "junk" && "inbox" != "sent" && "junk" != "sent"
    ensures "inbox" != "spam" && "junk" != "spam" && "sent" != "spam"
  {
    TrimSpaceFixes("INBOX");
    TrimSpaceFixes("Junk");
    TrimSpaceFixes("SENT");
    assert ToLower("INBOX") == "inbox";
    assert ToLower("Junk") == "junk";
    assert ToLower("SENT") == "sent";
  }

  lemma FolderFilled(p: Provider, c: Config, mailbox: string)
    requires Settled(p, c)
    ensures Filled(MailboxFolder(c, mailbox))
  {
    var folder := MailboxFolder(c, mailbox);
    if folder != "Junk" && folder != "Sent" && folder != "INBOX" {
      TrimSpaceFixes(folder);
    }
  }

  lemma DocumentColumnTrimmed(c: Config, env: Env)
    ensures Trimmed(DocumentColumn(c, env))
    ensures DOCUMENT_PREFIX <= DocumentColumn(c, env)
    ensures DocumentColumn(c, env)[|DOCUMENT_PREFIX|..] == EncodeToString(env.marshal(c))
  {
    var body := EncodeToString(env.marshal(c));
    EncodeTrimmed(env.marshal(c));
    var s := DocumentColumn(c, env);
    assert s[0] == 'c';
    if body != "" {
      assert s[|s| - 1] == body[|body| - 1];
    } else {
      assert s[|s| - 1] == ':';
    }
  }

  lemma ServiceColumnsTrimmed(p: Provider, c: Config)
    requires Settled(p, c) && Trimmed(c.imapHost) && Trimmed(c.smtpHost)
    ensures AllTrimmed(ServiceColumns(c))
  {
    ItoaTrimmed(c.imapPort);
    ItoaTrimmed(c.smtpPort);
    FormatBoolText(On(c.imapTls));
    FormatBoolText(On(c.smtpSecure));
    FolderFilled(p, c, "INBOX");
    FolderFilled(p, c, "Junk");
    FolderFilled(p, c, "SENT");
    NineTrimmed(c.imapHost, Itoa(c.imapPort), FormatBool(On(c.imapTls)),
                c.smtpHost, Itoa(c.smtpPort), FormatBool(On(c.smtpSecure)),
                MailboxFolder(c, "INBOX"), MailboxFolder(c, "Junk"), MailboxFolder(c, "SENT"));
  }

  lemma NineTrimmed(a: string, b: string, c: string, d: string, e: string, f: string, g: string, h: string, i: string)
    requires Trimmed(a) && Trimmed(b) && Trimmed(c) && Trimmed(d) && Trimmed(e)
    requires Trimmed(f) && Trimmed(g) && Trimmed(h) && Trimmed(i)
    ensures AllTrimmed([a, b, c, d, e, f, g, h, i])
  {
  }

  lemma FormatBoolText(b: bool)
    ensures Filled(FormatBool(b)) && '-' !in FormatBool(b)
  {
  }

  lemma ColumnsTrimmed(row: Row, plain: Plain, c: Config, rawSecrets: bool, env: Env)
    requires ValidAccount(row, plain, c, env) && Settled(row.provider, c)
    ensures AllTrimmed(Columns(row, plain, c, rawSecrets, env))
  {
    var token := ImportToken(row.provider, row.authType);
    TokenIsTokenText(row.provider, row.authType);
    TokenTextFixed(token);
    if row.authType.AppPassword? {
      ServiceColumnsTrimmed(row.provider, c);
      AppPasswordTrimmed(row, plain, c, !SameService(c, Defaults(row.provider)), rawSecrets);
    } else {
      DocumentColumnTrimmed(c, env);
      var login := if rawSecrets then plain.loginPassword else "";
      ThreeTrimmed(token, row.email, row.clientId.value);
      ThreeTrimmed(plain.clientSecret, plain.refreshToken, login);
      var head, tail := [token, row.email, row.clientId.value], [plain.clientSecret, plain.refreshToken, login];
      assert Columns(row, plain, c, rawSecrets, env) == head + tail + [DocumentColumn(c, env)];
    }
  }

  lemma AppPasswordTrimmed(row: Row, plain: Plain, c: Config, long: bool, rawSecrets: bool)
    requires Trimmed(ImportToken(row.provider, row.authType)) && Trimmed(row.email) && Trimmed(plain.password)
    requires Trimmed(plain.loginPassword) && AllTrimmed(ServiceColumns(c))
    ensures AllTrimmed(AppPasswordColumns(row, plain, c, long, rawSecrets))
  {
    ThreeTrimmed(ImportToken(row.provider, row.authType), row.email, plain.password);
    assert AllTrimmed([plain.loginPassword]);
  }

  lemma ThreeTrimmed(a: string, b: string, c: string)
    requires Trimmed(a) && Trimmed(b) && Trimmed(c)
    ensures AllTrimmed([a, b, c])
  {
  }

  // ---------- Each form reads back ----------

  lemma OptionalPresent(s: string)
    requires Trimmed(s)
    ensures Optional(s) == Present(s)
  {
    TrimSpaceFixes(s);
  }

  lemma DocumentReads(p: Provider, c: Config, env: Env, r: Result<Config, ImportError>)
    requires Settled(p, c) && FaithfulDocument(c, env)
    requires DocumentResult(p, DocumentColumn(c, env), env, r)
    ensures r == Ok(c)
  {
    var column, document := DocumentColumn(c, env), env.marshal(c);
    DocumentColumnTrimmed(c, env);
    TrimSpaceFixes(column);
    DecodeEncode(document);
    if e :| MergeResult(Defaults(p), document, env.unmarshal, Err(e)) {
      ReloadIsIdentity(p, c, document, env.unmarshal, Err(e));
    }
    forall d | MergeResult(Defaults(p), document, env.unmarshal, Ok(d))
      ensures d == c
    {
      ReloadIsIdentity(p, c, document, env.unmarshal, Ok(d));
    }
  }

  lemma OAuthReads(row: Row, plain: Plain, c: Config, rawSecrets: bool, env: Env, document: Result<Config, ImportError>)
    requires ValidAccount(row, plain, c, env) && !row.authType.AppPassword?
    requires document == Ok(c)
    ensures SameAccount(Tokenized(Columns(row, plain, c, rawSecrets, env), row.provider, row.authType, document, env),
                        row, plain, c, rawSecrets)
  {
    ToLowerFixes(row.email);
    TrimSpaceFixes(row.clientId.value);
    TrimSpaceFixes(plain.refreshToken);
    OptionalPresent(plain.clientSecret);
    OptionalPresent(plain.loginPassword);
    OptionalPresent("");
  }

  lemma PortReads(port: int, fallback: int)
    requires 1 <= port <= 65535
    ensures ParsePort(Itoa(port), fallback) == port
  {
    ItoaTrimmed(port);
    TrimSpaceFixes(Itoa(port));
    ParseItoa(port);
  }

  lemma FlagReads(b: bool, fallback: bool)
    ensures ParseFlag(FormatBool(b), fallback) == b
  {
    TrimSpaceFixes("true");
    TrimSpaceFixes("false");
    assert ParseBool("true") == Some(true);
    assert "false"[0] == 'f' && |"false"| == 5;
    assert ParseBool("false") == Some(false);
  }

  lemma FoldersRead(inbox: string, junk: string, sent: string, c: Config)
    requires Filled(inbox) && Filled(junk) && Filled(sent)
    requires c.folders == Some(map["inbox" := OrDefault(inbox, "INBOX"), "junk" := OrDefault(junk, "Junk"),
                                   "sent" := OrDefault(sent, "Sent")])
    ensures MailboxFolder(c, "INBOX") == inbox
    ensures MailboxFolder(c, "Junk") == junk
    ensures MailboxFolder(c, "SENT") == sent
  {
    FolderKeys();
    TrimSpaceFixes(inbox);
    TrimSpaceFixes(junk);
    TrimSpaceFixes(sent);
  }

  lemma LongFormReads(p: Provider, c: Config, parts: seq<string>)
    requires Settled(p, c) && |parts| >= 12 && parts[3..12] == ServiceColumns(c)
    ensures SameService(LongFormConfig(parts), c)
  {
    ServiceColumnsAt(c, parts);
    PortReads(c.imapPort, 993);
    PortReads(c.smtpPort, 465);
    FlagReads(On(c.imapTls), true);
    FlagReads(On(c.smtpSecure), true);
    FolderFilled(p, c, "INBOX");
    FolderFilled(p, c, "Junk");
    FolderFilled(p, c, "SENT");
    FoldersRead(parts[9], parts[10], parts[11], LongFormConfig(parts));
  }

  lemma ServiceColumnsAt(c: Config, parts: seq<string>)
    requires |parts| >= 12 && parts[3..12] == ServiceColumns(c)
    ensures parts[3] == c.imapHost && parts[4] == Itoa(c.imapPort) && parts[5] == FormatBool(On(c.imapTls))
    ensures parts[6] == c.smtpHost && parts[7] == Itoa(c.smtpPort) && parts[8] == FormatBool(On(c.smtpSecure))
    ensures parts[9] == MailboxFolder(c, "INBOX") && parts[10] == MailboxFolder(c, "Junk")
            && parts[11] == MailboxFolder(c, "SENT")
  {
    assert forall i :: 3 <= i < 12 ==> parts[i] == parts[3..12][i - 3];
  }

  lemma AppPasswordReads(row: Row, plain: Plain, c: Config, rawSecrets: bool, env: Env,
                         document: Result<Config, ImportError>)
    requires ValidAccount(row, plain, c, env) && row.authType.AppPassword? && Settled(row.provider, c)
    ensures SameAccount(Tokenized(Columns(row, plain, c, rawSecrets, env), row.provider, row.authType, document, env),
                        row, plain, c, rawSecrets)
  {
    var parts := Columns(row, plain, c, rawSecrets, env);
    ToLowerFixes(row.email);
    TrimSpaceFixes(plain.password);
    OptionalPresent(plain.loginPassword);
    if SameService(c, Defaults(row.provider)) {
      ShortFormReads(row, plain, c, rawSecrets);
    } else {
      LongColumnsAre(row, plain, c, rawSecrets);
      LongFormReads(row.provider, c, parts);
    }
  }

  lemma LongColumnsAre(row: Row, plain: Plain, c: Config, rawSecrets: bool)
    ensures var parts := AppPasswordColumns(row, plain, c, true, rawSecrets);
            && |parts| == (if rawSecrets then 13 else 12)
            && parts[1] == row.email && parts[2] == plain.password && parts[3..12] == ServiceColumns(c)
            && parts[3] == c.imapHost && parts[6] == c.smtpHost
            && (rawSecrets ==> parts[12] == plain.loginPassword)
  {
  }

  lemma ShortFormReads(row: Row, plain: Plain, c: Config, rawSecrets: bool)
    ensures var parts := AppPasswordColumns(row, plain, c, false, rawSecrets);
            && |parts| == (if rawSecrets then 4 else 3)
            && parts[1] == row.email && parts[2] == plain.password
            && (rawSecrets ==> parts[3] == plain.loginPassword)
  {
  }

  // ---------- Export then import ----------

  /**
   Every import of every export of a valid account is that account, in the OAuth form, the short form
   and the long form, with and without raw secrets, provided the separator keeps the columns apart.
   */
  lemma ExportThenImport(row: Row, sep: string, rawSecrets: bool, env: Env, c: Config, line: string, r: Outcome)
    requires sep != ""
    requires Exports(row, sep, rawSecrets, env, c, line)
    requires ValidAccount(row, Secrets(row, env).value, c, env)
    requires !row.authType.AppPassword? ==> FaithfulDocument(c, env)
    requires Separable(Columns(row, Secrets(row, env).value, c, rawSecrets, env), sep)
    requires ParseResult(line, sep, env, r)
    ensures SameAccount(r, row, Secrets(row, env).value, c, rawSecrets)
  {
    var plain := Secrets(row, env).value;
    var parts := Columns(row, plain, c, rawSecrets, env);
    DefaultsSettled(row.provider);
    MergeSettled(row.provider, Defaults(row.provider), row.providerConfig, env.unmarshal, Ok(c));
    ColumnsTrimmed(row, plain, c, rawSecrets, env);
    TrimAllFixes(parts);
    SplitJoin(parts, sep);
    TokenRoundTrip(row.provider, row.authType);
    assert parts[0] == ImportToken(row.provider, row.authType);
    ParsedColumns(row, plain, c, rawSecrets, env, r);
  }

  lemma ParsedAs(row: Row, plain: Plain, c: Config, rawSecrets: bool, env: Env,
                 document: Result<Config, ImportError>)
    requires ValidAccount(row, plain, c, env) && Settled(row.provider, c)
    requires !row.authType.AppPassword? ==> FaithfulDocument(c, env)
    requires ReadsDocument(Columns(row, plain, c, rawSecrets, env), row.authType, env) ==>
               DocumentResult(row.provider, Columns(row, plain, c, rawSecrets, env)[6], env, document)
    ensures SameAccount(Tokenized(Columns(row, plain, c, rawSecrets, env), row.provider, row.authType, document, env),
                        row, plain, c, rawSecrets)
  {
    if row.authType.AppPassword? {
      AppPasswordReads(row, plain, c, rawSecrets, env, document);
    } else {
      ToLowerFixes(row.email);
      DocumentReads(row.provider, c, env, document);
      OAuthReads(row, plain, c, rawSecrets, env, document);
    }
  }

  lemma ParsedColumns(row: Row, plain: Plain, c: Config, rawSecrets: bool, env: Env, r: Outcome)
    requires ValidAccount(row, plain, c, env) && Settled(row.provider, c)
    requires !row.authType.AppPassword? ==> FaithfulDocument(c, env)
    requires exists document: Result<Config, ImportError> ::
               (ReadsDocument(Columns(row, plain, c, rawSecrets, env), row.authType, env) ==>
                  DocumentResult(row.provider, Columns(row, plain, c, rawSecrets, env)[6], env, document))
               && r == Tokenized(Columns(row, plain, c, rawSecrets, env), row.provider, row.authType, document, env)
    ensures SameAccount(r, row, plain, c, rawSecrets)
  {
    var parts := Columns(row, plain, c, rawSecrets, env);
    var document: Result<Config, ImportError> :|
      (ReadsDocument(parts, row.authType, env) ==> DocumentResult(row.provider, parts[6], env, document))
      && r == Tokenized(parts, row.provider, row.authType, document, env);
    ParsedAs(row, plain, c, rawSecrets, env, document);
  }

  // ---------- What the round trip keeps, field by field ----------

  /** The service settings of two configurations, one by one. */
  lemma SameServiceIs(c: Config, d: Config)
    ensures SameService(c, d) <==>
            && c.imapHost == d.imapHost && c.imapPort == d.imapPort
            && (c.imapTls == Some(false) <==> d.imapTls == Some(false))
            && c.smtpHost == d.smtpHost && c.smtpPort == d.smtpPort
            && (c.smtpSecure == Some(false) <==> d.smtpSecure == Some(false))
            && MailboxFolder(c, "INBOX") == MailboxFolder(d, "INBOX")
            && MailboxFolder(c, "Junk") == MailboxFolder(d, "Junk")
            && MailboxFolder(c, "SENT") == MailboxFolder(d, "SENT")
  {
  }

  /**
   An application-password account comes back with the hosts, ports, effective flags and folders of its merged
   configuration, whichever form it was written in.
   */
  lemma AppPasswordFieldsComeBack(row: Row, sep: string, rawSecrets: bool, env: Env, c: Config, line: string,
                                  r: Outcome)
    requires sep != "" && row.authType.AppPassword?
    requires Exports(row, sep, rawSecrets, env, c, line)
    requires ValidAccount(row, Secrets(row, env).value, c, env)
    requires Separable(Columns(row, Secrets(row, env).value, c, rawSecrets, env), sep)
    requires ParseResult(line, sep, env, r)
    ensures r.Account?
    ensures var d := r.account.config;
            && d.imapHost == c.imapHost && d.imapPort == c.imapPort
            && (d.imapTls == Some(false) <==> c.imapTls == Some(false))
            && d.smtpHost == c.smtpHost && d.smtpPort == c.smtpPort
            && (d.smtpSecure == Some(false) <==> c.smtpSecure == Some(false))
            && MailboxFolder(d, "INBOX") == MailboxFolder(c, "INBOX")
            && MailboxFolder(d, "Junk") == MailboxFolder(c, "Junk")
            && MailboxFolder(d, "SENT") == MailboxFolder(c, "SENT")
  {
    ExportThenImport(row, sep, rawSecrets, env, c, line, r);
    SameServiceIs(r.account.config, c);
  }

  /** The short form is written exactly when all nine settings are the provider's own. */
  lemma ShortFormExactly(row: Row, plain: Plain, c: Config, rawSecrets: bool, env: Env)
    requires row.authType.AppPassword?
    ensures var d := Defaults(row.provider);
            |Columns(row, plain, c, rawSecrets, env)| <= 4 <==>
            && c.imapHost == d.imapHost && c.imapPort == d.imapPort
            && (c.imapTls == Some(false) <==> d.imapTls == Some(false))
            && c.smtpHost == d.smtpHost && c.smtpPort == d.smtpPort
            && (c.smtpSecure == Some(false) <==> d.smtpSecure == Some(false))
            && MailboxFolder(c, "INBOX") == MailboxFolder(d, "INBOX")
            && MailboxFolder(c, "Junk") == MailboxFolder(d, "Junk")
            && MailboxFolder(c, "SENT") == MailboxFolder(d, "SENT")
  {
    SameServiceIs(c, Defaults(row.provider));
    LongColumnsAre(row, plain, c, rawSecrets);
    ShortFormReads(row, plain, c, rawSecrets);
  }
}
