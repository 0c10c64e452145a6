/** The line formats without a token, written down and read back. */
module AddressForms {
  import opened AccountCodec
  import opened AccountRoundTrip
  import opened Accounts
  import opened ImportForms
  import opened ImportTokens
  import opened ProviderConfig
  import opened Text
  import opened Wrappers

  // ---------- Which format a line has ----------

  lemma {:induction false} LookUpIsToken(token: string, table: seq<Provider>)
    requires forall i :: 0 <= i < |table| ==> '@' !in TableToken(table[i])
    ensures LookUp(token, table).Some? ==> '@' !in token
  {
    if table != [] {
      LookUpIsToken(token, table[1..]);
    }
  }

  lemma TokensHoldNoAt()
    ensures forall i :: 0 <= i < |TABLE| ==> '@' !in TableToken(TABLE[i])
  {
    forall i | 0 <= i < |TABLE|
      ensures '@' !in TableToken(TABLE[i])
    {
      TokenIsTokenText(TABLE[i], AppPassword);
      WrittenTokenIsTableToken(TABLE[i]);
    }
  }

  /** An address is never taken for a token. */
  lemma AddressIsNoToken(address: string)
    requires Trimmed(address) && '@' in address
    ensures TokenProfile(address) == None
  {
    TrimSpaceFixes(address);
    var i :| 0 <= i < |address| && address[i] == '@';
    assert ToUpper(address)[i] == '@';
    TokensHoldNoAt();
    LookUpIsToken(ToUpper(address), TABLE);
    assert '@' !in "OUTLOOK_OAUTH" && '@' !in "GMAIL_OAUTH";
  }

  /** A line of trimmed columns that the separator keeps apart is read as what its columns mean. */
  lemma AddressLineIs(parts: seq<string>, sep: string, env: Env, r: Outcome)
    requires |parts| >= 2 && AllTrimmed(parts) && sep != "" && Separable(parts, sep) && '@' in parts[0]
    ensures ParseResult(Join(parts, sep), sep, env, r) <==> r == EmailFirst(parts, env)
  {
    SplitJoin(parts, sep);
    TrimAllFixes(parts);
    assert Trimmed(parts[0]);
    AddressIsNoToken(parts[0]);
  }

  lemma TrimmedOnce(s: string)
    requires Trimmed(s)
    ensures TrimSpace(s) == s && Optional(s) == Present(s)
  {
    TrimSpaceFixes(s);
  }

  // ---------- Address first ----------

  lemma OAuthColumnsRead(parts: seq<string>, env: Env)
    requires |parts| >= 4 && AllTrimmed(parts) && env.validEmail(ToLower(parts[0])) && parts[2] != "" && parts[3] != ""
    ensures EmailFirst(parts, env).Account?
    ensures var a := EmailFirst(parts, env).account;
            && a.email == ToLower(parts[0]) && a.loginPassword == Present(parts[1]) && a.clientId == Some(parts[2])
            && a.refreshToken == Some(parts[3]) && a.password == None
            && a.clientSecret == (if |parts| >= 5 then Present(parts[4]) else None)
            && (a.authType == GoogleOauth <==> a.provider == Gmail) && a.authType != AppPassword
            && (a.provider == Outlook ==> a.config == Defaults(Outlook).(readMode := "IMAP_ONLY"))
            && (a.provider != Outlook ==> a.config == Defaults(a.provider))
  {
    assert Trimmed(parts[1]) && Trimmed(parts[2]) && Trimmed(parts[3]);
    TrimmedOnce(parts[1]);
    TrimmedOnce(parts[2]);
    TrimmedOnce(parts[3]);
    if |parts| >= 5 {
      assert Trimmed(parts[4]);
      TrimmedOnce(parts[4]);
    }
  }

  /** address, login password, client, refresh token, client secret: each column ends up in its own field. */
  lemma OAuthLineReads(parts: seq<string>, sep: string, env: Env, r: Outcome)
    requires |parts| >= 4 && AllTrimmed(parts) && '@' in parts[0] && env.validEmail(ToLower(parts[0]))
    requires parts[2] != "" && parts[3] != "" && sep != "" && Separable(parts, sep)
    requires ParseResult(Join(parts, sep), sep, env, r)
    ensures r.Account?
    ensures var a := r.account;
            && a.email == ToLower(parts[0]) && a.loginPassword == Present(parts[1]) && a.clientId == Some(parts[2])
            && a.refreshToken == Some(parts[3]) && a.password == None
            && a.clientSecret == (if |parts| >= 5 then Present(parts[4]) else None)
            && (a.authType == GoogleOauth <==> a.provider == Gmail) && a.authType != AppPassword
            && (a.provider == Outlook ==> a.config == Defaults(Outlook).(readMode := "IMAP_ONLY"))
            && (a.provider != Outlook ==> a.config == Defaults(a.provider))
  {
    AddressLineIs(parts, sep, env, r);
    OAuthColumnsRead(parts, env);
  }

  /** An address of a provider that takes application passwords, the password, and perhaps a login password. */
  lemma PasswordLineReads(email: string, password: string, login: Option<string>, sep: string, env: Env, r: Outcome)
    requires Trimmed(email) && '@' in email && env.validEmail(ToLower(email)) && InferProvider(ToLower(email)).1
    requires Filled(password) && (login.Some? ==> Trimmed(login.value) && !LooksLikeOAuthClientID(password))
    requires var parts := [email, password] + if login.Some? then [login.value] else [];
             sep != "" && Separable(parts, sep) && ParseResult(Join(parts, sep), sep, env, r)
    ensures var p := InferProvider(ToLower(email)).0.value;
            r == Account(Imported(ToLower(email), p, AppPassword, None, None, None, Some(password),
                                  if login.Some? then Present(login.value) else None, Defaults(p)))
  {
    var parts := [email, password] + if login.Some? then [login.value] else [];
    AddressLineIs(parts, sep, env, r);
    TrimmedOnce(password);
    if login.Some? {
      TrimmedOnce(login.value);
    }
  }

  /** An address, a client and a refresh token that look like such. */
  lemma ClientLineReads(email: string, clientId: string, refreshToken: string, sep: string, env: Env, r: Outcome)
    requires Trimmed(email) && '@' in email && env.validEmail(ToLower(email))
    requires Filled(clientId) && LooksLikeOAuthClientID(clientId)
    requires Filled(refreshToken) && LooksLikeRefreshToken(refreshToken)
    requires var parts := [email, clientId, refreshToken];
             sep != "" && Separable(parts, sep) && ParseResult(Join(parts, sep), sep, env, r)
    ensures r.Account?
    ensures var a := r.account;
            && a.email == ToLower(email) && a.clientId == Some(clientId) && a.refreshToken == Some(refreshToken)
            && a.loginPassword == a.clientSecret == a.password == None
            && (a.authType == GoogleOauth <==> a.provider == Gmail) && a.authType != AppPassword
            && a.config == Defaults(a.provider)
  {
    var parts := [email, clientId, refreshToken];
    AddressLineIs(parts, sep, env, r);
    TrimmedOnce(clientId);
    TrimmedOnce(refreshToken);
  }

  /** What a refresh token looks like, and two shapes of client ids. */
  lemma TokensLook(s: string)
    requires Trimmed(s)
    ensures LooksLikeRefreshToken(s) <==> "M." <= s || "1//" <= s || "ya29." <= s
  {
    TrimSpaceFixes(s);
  }

  lemma GoogleClientsLook(name: string, domain: string)
    requires domain == ".apps.googleusercontent.com" && IsLower(name + domain) && Trimmed(name + domain)
    ensures LooksLikeOAuthClientID(name + domain)
  {
    TrimSpaceFixes(name + domain);
    ToLowerFixes(name + domain);
    assert (name + domain)[|name + domain| - |domain|..] == domain;
  }

  lemma MicrosoftClientsLook(s: string)
    requires Trimmed(s) && |s| == 36 && (forall i :: 0 <= i < |s| ==> s[i] < '\U{0080}') && Count(s, '-') == 4
    ensures LooksLikeOAuthClientID(s)
  {
    TrimSpaceFixes(s);
    AsciiLength(s);
  }

  lemma {:induction false} AsciiLength(s: string)
    ensures (forall i :: 0 <= i < |s| ==> s[i] < '\U{0080}') ==> ByteLength(s) == |s|
  {
    if s != "" {
      AsciiLength(s[1..]);
    }
  }

  /** Exactly which lines that begin with an address are rejected, and why. */
  lemma RejectedAddressLines(parts: seq<string>, env: Env)
    requires |parts| >= 2 && AllTrimmed(parts)
    ensures var r, passwords := EmailFirst(parts, env), InferProvider(ToLower(parts[0])).1;
            && (r == Rejected(InvalidEmail) <==> !env.validEmail(ToLower(parts[0])))
            && (r == Rejected(OAuthFieldsRequired) <==>
                  env.validEmail(ToLower(parts[0])) && |parts| >= 4 && (parts[2] == "" || parts[3] == ""))
            && (r == Rejected(UnrecognizedEmailFirst) <==>
                  && env.validEmail(ToLower(parts[0]))
                  && (|| (|parts| == 2 && !passwords)
                      || (|parts| == 3 && if LooksLikeOAuthClientID(parts[1]) then !LooksLikeRefreshToken(parts[2])
                                          else !passwords)))
            && (r.Rejected? ==> r == Rejected(InvalidEmail) || r == Rejected(OAuthFieldsRequired)
                                || r == Rejected(UnrecognizedEmailFirst))
  {
    if |parts| >= 4 {
      assert Trimmed(parts[2]) && Trimmed(parts[3]);
      OptionalPresent(parts[2]);
      OptionalPresent(parts[3]);
    }
  }

  // ---------- Providers ----------

  /** The domain after the first at sign decides, in any case. */
  lemma DomainDecides(name: string, domain: string)
    requires '@' !in name
    ensures InferProvider(name + ['@'] + domain) == ProviderOfDomain(ToLower(TrimSpace(domain)))
  {
    BeforeIs(name, '@', domain);
    assert (name + ['@'] + domain)[|name|] == '@';
  }

  lemma DomainsOfOneName(domain: string)
    ensures ProviderOfDomain(domain).0 == Some(Gmail) <==> domain == "gmail.com"
    ensures ProviderOfDomain(domain).0 == Some(Qq) <==> domain == "qq.com"
    ensures ProviderOfDomain(domain).0 == Some(Netease163) <==> domain == "163.com"
    ensures ProviderOfDomain(domain).0 == Some(Netease126) <==> domain == "126.com"
    ensures ProviderOfDomain(domain).0 == Some(Yahoo) <==> domain == "yahoo.com"
    ensures ProviderOfDomain(domain).0 == Some(Zoho) <==> domain == "zoho.com"
  {
  }

  lemma MoreDomainsOfOneName(domain: string)
    ensures ProviderOfDomain(domain).0 == Some(Aliyun) <==> domain == "aliyun.com"
    ensures ProviderOfDomain(domain).0 == Some(Fastmail) <==> domain == "fastmail.com"
    ensures ProviderOfDomain(domain).0 == Some(Aol) <==> domain == "aol.com"
    ensures ProviderOfDomain(domain).0 == Some(Gmx) <==> domain == "gmx.com"
    ensures ProviderOfDomain(domain).0 == Some(Mailcom) <==> domain == "mail.com"
  {
  }

  /** Providers with several domains, and those that take no application password. */
  lemma DomainsOfSeveralNames(domain: string)
    ensures ProviderOfDomain(domain).0 == Some(Icloud) <==>
              domain == "icloud.com" || domain == "me.com" || domain == "mac.com"
    ensures ProviderOfDomain(domain).0 == Some(Yandex) <==>
              domain == "yandex.com" || domain == "yandex.ru" || domain == "ya.ru"
    ensures ProviderOfDomain(domain).0 == Some(Outlook) <==>
              domain == "outlook.com" || domain == "hotmail.com" || domain == "live.com" || domain == "msn.com"
    ensures ProviderOfDomain(domain).1 <==>
              ProviderOfDomain(domain).0 != None && ProviderOfDomain(domain).0 != Some(Outlook)
  {
  }

  // ---------- Older Outlook lines ----------

  /** A line that begins with neither token nor at sign has one of the older formats. */
  lemma LegacyLineIs(parts: seq<string>, sep: string, env: Env, r: Outcome)
    requires |parts| >= 2 && AllTrimmed(parts) && sep != "" && Separable(parts, sep)
    requires '@' !in parts[0] && TokenProfile(parts[0]) == None
    ensures ParseResult(Join(parts, sep), sep, env, r) <==> r == Legacy(parts, env)
  {
    SplitJoin(parts, sep);
    TrimAllFixes(parts);
  }

  /** Which columns of the older formats are client, secret, token and login password. */
  lemma LegacyColumns(email: string, b: string, c: string, d: string, e: string, env: Env)
    requires Filled(b) && Filled(c) && Filled(d) && Filled(e) && env.validEmail(ToLower(email))
    ensures Legacy([email, b, c], env) == OutlookAccount(email, b, None, c, None)
    ensures Legacy([email, b, c, d], env) == OutlookAccount(email, c, None, d, Some(b))
    ensures ToLower(d) == "oauth" ==> Legacy([email, b, c, d, e], env) == OutlookAccount(email, b, Some(c), e, None)
    ensures ToLower(d) != "oauth" ==> Legacy([email, b, c, d, e], env) == OutlookAccount(email, b, None, e, None)
  {
    TrimmedOnce(b);
    TrimmedOnce(c);
    TrimmedOnce(d);
    TrimmedOnce(e);
  }

  function OutlookAccount(email: string, clientId: string, clientSecret: Option<string>, refreshToken: string,
                          login: Option<string>): Outcome {
    Account(Imported(ToLower(email), Outlook, MicrosoftOauth, Some(clientId), clientSecret, Some(refreshToken),
                     None, login, Defaults(Outlook)))
  }
}
