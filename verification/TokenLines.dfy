/** What tokenized lines mean that nobody exported: short ones, ones with blanks, missing values and mistakes. */
module TokenLines {
  import opened AccountCodec
  import opened AccountRoundTrip
  import opened Accounts
  import opened Base64Url
  import opened Decimal
  import opened ImportTokens
  import opened ProviderConfig
  import opened Text
  import opened Wrappers

  // ---------- Ports and flags ----------

  /** A number with blanks around it is the port, if it is one. */
  lemma PortOfNumber(before: string, n: int, after: string, fallback: int)
    requires Blank(before) && Blank(after) && MIN_INT64 <= n <= MAX_INT64
    ensures ParsePort(before + Itoa(n) + after, fallback) == if 1 <= n <= 65535 then n else fallback
  {
    ItoaTrimmed(n);
    TrimPadded(before, Itoa(n), after);
    ParseItoa(n);
  }

  /** Anything that is no decimal number of 64 bits leaves the usual port. */
  lemma PortOfOther(value: string, fallback: int)
    requires ParseInt(TrimSpace(value)) == None
    ensures ParsePort(value, fallback) == fallback
  {
  }

  lemma NoNumber(value: string)
    requires Blank(value) || exists c :: c in TrimSpace(value) && !IsDigit(c) && c != '+' && c != '-'
    ensures ParseInt(TrimSpace(value)) == None
  {
    TrimBlank(value);
  }

  predicate TrueWord(w: string) {
    w == "1" || w == "t" || w == "T" || w == "TRUE" || w == "true" || w == "True"
  }

  predicate FalseWord(w: string) {
    w == "0" || w == "f" || w == "F" || w == "FALSE" || w == "false" || w == "False"
  }

  /** A flag is one of twelve words, with blanks around it; anything else, and nothing, leaves the usual value. */
  lemma FlagIs(value: string, fallback: bool)
    ensures var w := TrimSpace(value);
            ParseFlag(value, fallback) == if TrueWord(w) then true else if FalseWord(w) then false else fallback
  {
  }

  lemma FlagOfWord(before: string, w: string, after: string, fallback: bool)
    requires Blank(before) && Blank(after) && (TrueWord(w) || FalseWord(w))
    ensures ParseFlag(before + w + after, fallback) == TrueWord(w)
  {
    assert Trimmed(w);
    TrimPadded(before, w, after);
    FlagIs(before + w + after, fallback);
  }

  // ---------- The long form ----------

  /** The columns of the long form, each in its place, with the usual values for what is missing. */
  lemma LongFormIs(parts: seq<string>)
    requires |parts| >= 12
    ensures var c := LongFormConfig(parts);
            && c.readMode == "IMAP" && c.oauthTenant == c.oauthScopes == ""
            && c.imapHost == parts[3] && c.imapPort == ParsePort(parts[4], 993)
            && c.imapTls == Some(ParseFlag(parts[5], true))
            && c.smtpHost == parts[6] && c.smtpPort == ParsePort(parts[7], 465)
            && c.smtpSecure == Some(ParseFlag(parts[8], true))
            && MailboxFolder(c, "INBOX") == (if TrimSpace(parts[9]) == "" then "INBOX" else TrimSpace(parts[9]))
            && MailboxFolder(c, "Junk") == (if TrimSpace(parts[10]) == "" then "Junk" else TrimSpace(parts[10]))
            && MailboxFolder(c, "SENT") == (if TrimSpace(parts[11]) == "" then "Sent" else TrimSpace(parts[11]))
  {
    LongFormFolders(parts);
  }

  lemma LongFormFolders(parts: seq<string>)
    requires |parts| >= 12
    ensures var c := LongFormConfig(parts);
            && MailboxFolder(c, "INBOX") == (if TrimSpace(parts[9]) == "" then "INBOX" else TrimSpace(parts[9]))
            && MailboxFolder(c, "Junk") == (if TrimSpace(parts[10]) == "" then "Junk" else TrimSpace(parts[10]))
            && MailboxFolder(c, "SENT") == (if TrimSpace(parts[11]) == "" then "Sent" else TrimSpace(parts[11]))
  {
    var c := LongFormConfig(parts);
    FolderKeys();
    FoldersOf(parts);
    FolderRead(c, "INBOX", "inbox", "INBOX", parts[9]);
    FolderRead(c, "Junk", "junk", "Junk", parts[10]);
    FolderRead(c, "SENT", "sent", "Sent", parts[11]);
  }

  lemma FoldersOf(parts: seq<string>)
    requires |parts| >= 12
    ensures var folders := LongFormConfig(parts).folders;
            && folders.Some? && folders.value.Keys == {"inbox", "junk", "sent"}
            && folders.value["inbox"] == OrDefault(parts[9], "INBOX")
            && folders.value["junk"] == OrDefault(parts[10], "Junk")
            && folders.value["sent"] == OrDefault(parts[11], "Sent")
  {
    assert |"inbox"| == 5 && "junk"[0] == 'j' && "sent"[0] == 's';
  }

  lemma FolderRead(c: Config, mailbox: string, key: string, fallback: string, value: string)
    requires NamesFolder(mailbox, key, fallback) && Filled(fallback)
    requires c.folders.Some? && key in c.folders.value && c.folders.value[key] == OrDefault(value, fallback)
    ensures MailboxFolder(c, mailbox) == if TrimSpace(value) == "" then fallback else TrimSpace(value)
  {
    FolderIs(value, fallback);
    MailboxFolderIs(c, mailbox, key, fallback);
  }

  lemma FolderIs(value: string, fallback: string)
    requires Filled(fallback)
    ensures var folder := OrDefault(value, fallback);
            && folder == (if TrimSpace(value) == "" then fallback else TrimSpace(value)) && TrimSpace(folder) != ""
  {
    TrimSpaceFixes(value);
    TrimSpaceFixes(TrimSpace(value));
    TrimSpaceFixes(fallback);
  }

  // ---------- Accounts ----------

  /** An OAuth line of five columns, of six with the login password, and of more with a configuration. */
  lemma OAuthLineIs(parts: seq<string>, p: Provider, a: AuthType, document: Result<Config, ImportError>, env: Env)
    requires !a.AppPassword? && AllTrimmed(parts) && |parts| >= 5 && parts[2] != "" && parts[4] != ""
    requires env.validEmail(ToLower(parts[1])) && (|parts| > 6 ==> document.Ok?)
    ensures Tokenized(parts, p, a, document, env) ==
            Account(Imported(ToLower(parts[1]), p, a, Some(parts[2]), Present(parts[3]), Some(parts[4]), None,
                             if |parts| >= 6 then Present(parts[5]) else None,
                             if |parts| >= 7 then document.value else Defaults(p)))
  {
    assert Trimmed(parts[2]) && Trimmed(parts[3]) && Trimmed(parts[4]);
    TrimSpaceFixes(parts[2]);
    TrimSpaceFixes(parts[4]);
    OptionalPresent(parts[3]);
    if |parts| >= 6 {
      assert Trimmed(parts[5]);
      OptionalPresent(parts[5]);
    }
  }

  lemma DefaultHosts(p: Provider)
    ensures (Hosts(p).0 == "" <==> p == Custom) && (Hosts(p).1 == "" <==> p == Custom)
  {
  }

  /**
   An application-password line of three columns, or of up to eleven with the login password, takes the
   provider's service.
   */
  lemma ShortLineIs(parts: seq<string>, p: Provider, document: Result<Config, ImportError>, env: Env)
    requires AllTrimmed(parts) && 3 <= |parts| <= 11 && parts[2] != "" && env.validEmail(ToLower(parts[1]))
             && p != Custom
    ensures Tokenized(parts, p, AppPassword, document, env) ==
            Account(Imported(ToLower(parts[1]), p, AppPassword, None, None, None, Some(parts[2]),
                             if |parts| >= 4 then Present(parts[3]) else None, Defaults(p)))
  {
    assert Trimmed(parts[2]);
    TrimSpaceFixes(parts[2]);
    DefaultHosts(p);
    if |parts| > 3 {
      assert Trimmed(parts[3]);
      OptionalPresent(parts[3]);
    }
  }

  /** One of twelve columns, or of more with the login password, spells the service out. */
  lemma LongLineIs(parts: seq<string>, p: Provider, document: Result<Config, ImportError>, env: Env)
    requires AllTrimmed(parts) && |parts| >= 12 && parts[2] != "" && env.validEmail(ToLower(parts[1]))
    requires parts[3] != "" && parts[6] != ""
    ensures Tokenized(parts, p, AppPassword, document, env) ==
            Account(Imported(ToLower(parts[1]), p, AppPassword, None, None, None, Some(parts[2]),
                             if |parts| >= 13 then Present(parts[12]) else None, LongFormConfig(parts)))
  {
    assert Trimmed(parts[2]);
    TrimSpaceFixes(parts[2]);
    LongFormHosts(parts);
    if |parts| > 12 {
      assert Trimmed(parts[12]);
      OptionalPresent(parts[12]);
    }
  }

  lemma LongFormHosts(parts: seq<string>)
    requires |parts| >= 12
    ensures LongFormConfig(parts).imapHost == parts[3] && LongFormConfig(parts).smtpHost == parts[6]
  {
  }

  /** Exactly which OAuth lines are rejected, and why. */
  lemma RejectedOAuthLines(parts: seq<string>, p: Provider, a: AuthType, document: Result<Config, ImportError>,
                           env: Env)
    requires !a.AppPassword?
    ensures var r := Tokenized(parts, p, a, document, env);
            if |parts| < 3 || !env.validEmail(ToLower(parts[1])) then r == Rejected(InvalidEmail)
            else if |parts| < 5 || parts[2] == "" || parts[4] == "" then r == Rejected(OAuthFieldsRequired)
            else if |parts| >= 7 && document.Err? then r == Rejected(document.error)
            else r.Account?
  {
  }

  /** Exactly which application-password lines are rejected, and why. */
  lemma RejectedPasswordLines(parts: seq<string>, p: Provider, document: Result<Config, ImportError>, env: Env)
    ensures var r := Tokenized(parts, p, AppPassword, document, env);
            if |parts| < 3 || !env.validEmail(ToLower(parts[1])) then r == Rejected(InvalidEmail)
            else if parts[2] == "" then r == Rejected(PasswordRequired)
            else if |parts| < 12 && p == Custom then r == Rejected(HostsRequired)
            else if |parts| >= 12 && (parts[3] == "" || parts[6] == "") then r == Rejected(HostsRequired)
            else r.Account?
  {
    DefaultHosts(p);
    if |parts| >= 12 {
      LongFormHosts(parts);
    }
  }

  /** A configuration column is refused for a missing prefix, for what is no base64url, or as merging refuses it. */
  lemma DocumentsAre(p: Provider, column: string, env: Env, r: Result<Config, ImportError>)
    requires DocumentResult(p, column, env, r)
    ensures var text := TrimSpace(column);
            && (!("config:" <= text) ==> r == Err(OAuthConfigInvalid))
            && ("config:" <= text && DecodeString(text[7..]) == None ==> r == Err(OAuthConfigUndecodable))
            && ("config:" <= text && DecodeString(text[7..]).Some? ==>
                  var raw := DecodeString(text[7..]).value;
                  && (r.Ok? ==> MergeResult(Defaults(p), raw, env.unmarshal, Ok(r.value)))
                  && (r.Err? ==> r.error.OAuthConfigRejected?
                                 && MergeResult(Defaults(p), raw, env.unmarshal, Err(r.error.cause))))
  {
  }

  /** A line of one column is no account; tokens are read in any case and with blanks around them. */
  lemma LinesAre(line: string, sep: string, env: Env, r: Outcome)
    requires sep != "" && ParseResult(line, sep, env, r)
    ensures |Split(line, sep)| < 2 ==> r == Rejected(InvalidFormat)
    ensures Index(line, sep) == None <==> |Split(line, sep)| < 2
  {
  }

  lemma TokensInAnySpelling(before: string, token: string, after: string, spelled: string)
    requires Blank(before) && Blank(after) && Filled(spelled) && ToUpper(spelled) == token
    ensures TokenProfile(before + spelled + after) == TokenProfile(token)
  {
    TrimPadded(before, spelled, after);
    UpperTrimmed(spelled);
    TrimSpaceFixes(token);
    UpperTwice(spelled);
  }

  lemma UpperTwice(s: string)
    ensures ToUpper(ToUpper(s)) == ToUpper(s)
  {
  }

  lemma UpperTrimmed(s: string)
    requires Filled(s)
    ensures Filled(ToUpper(s))
  {
    assert ToUpper(s)[0] == UpperChar(s[0]) && ToUpper(s)[|s| - 1] == UpperChar(s[|s| - 1]);
  }
}
