/** The default separator, and whole export files: one account a line. */
module AccountFiles {
  import opened AccountCodec
  import opened AccountRoundTrip
  import opened Accounts
  import opened Base64Url
  import opened Decimal
  import opened ImportTokens
  import opened ProviderConfig
  import opened Text
  import opened Utf8
  import opened Wrappers

  // ---------- The default separator ----------

  const DEFAULT_SEPARATOR := "----"

  /** No separator inside and no hyphen at the end that could start one early. */
  predicate HyphenSafe(f: string) {
    Index(f, DEFAULT_SEPARATOR) == None && (f == "" || f[|f| - 1] != '-')
  }

  lemma FourHyphens(s: string, i: int)
    ensures OccursAt(s, DEFAULT_SEPARATOR, i) <==> 0 <= i <= |s| - 4 && s[i] == s[i + 1] == s[i + 2] == s[i + 3] == '-'
  {
    if 0 <= i <= |s| - 4 {
      assert s[i..i + 4] == [s[i], s[i + 1], s[i + 2], s[i + 3]];
      assert DEFAULT_SEPARATOR == ['-', '-', '-', '-'];
    }
  }

  /** For the default separator the abstract condition is one a caller can check on the field alone. */
  lemma DefaultSeparatorSafe(f: string)
    ensures SepSafe(f, DEFAULT_SEPARATOR) <==> HyphenSafe(f)
  {
    var s := f + DEFAULT_SEPARATOR;
    FourHyphens(s, |f|);
    if HyphenSafe(f) {
      forall j | 0 <= j < |f|
        ensures !OccursAt(s, DEFAULT_SEPARATOR, j)
      {
        FourHyphens(s, j);
        FourHyphens(f, j);
        assert s[|f| - 1] != '-';
      }
      IndexIs(s, DEFAULT_SEPARATOR, |f|);
    } else if Index(f, DEFAULT_SEPARATOR).Some? {
      var i := Index(f, DEFAULT_SEPARATOR).value;
      FourHyphens(f, i);
      FourHyphens(s, i);
    } else {
      FourHyphens(s, |f| - 1);
      assert s[|f| - 1] == '-';
    }
  }

  lemma NoHyphenSafe(f: string)
    requires '-' !in f
    ensures HyphenSafe(f)
  {
    var i := Index(f, DEFAULT_SEPARATOR);
    if i.Some? {
      FourHyphens(f, i.value);
    }
  }

  predicate AllSafe(parts: seq<string>) {
    forall i :: 0 <= i < |parts| ==> HyphenSafe(parts[i])
  }

  lemma {:induction false} DefaultSeparable(init: seq<string>, last: string)
    ensures Separable(init + [last], DEFAULT_SEPARATOR) <==> AllSafe(init) && Index(last, DEFAULT_SEPARATOR) == None
  {
    var parts := init + [last];
    if init != [] {
      DefaultSeparatorSafe(init[0]);
      DefaultSeparable(init[1..], last);
      assert parts[1..] == init[1..] + [last];
      assert AllSafe(init) <==> HyphenSafe(init[0]) && AllSafe(init[1..]) by {
        assert forall i :: 1 <= i < |init| ==> init[i] == init[1..][i - 1];
      }
    }
  }

  lemma AllSafeConcat(a: seq<string>, b: seq<string>)
    ensures AllSafe(a + b) <==> AllSafe(a) && AllSafe(b)
  {
    assert forall i :: 0 <= i < |a| ==> (a + b)[i] == a[i];
    assert forall i :: 0 <= i < |b| ==> (a + b)[|a| + i] == b[i];
  }

  lemma AllSafeThree(a: string, b: string, c: string)
    ensures AllSafe([a, b, c]) <==> HyphenSafe(a) && HyphenSafe(b) && HyphenSafe(c)
  {
    assert [a, b, c][0] == a && [a, b, c][1] == b && [a, b, c][2] == c;
  }

  /** The configuration column can never be cut, whatever the configuration. */
  lemma DocumentColumnUncut(c: Config, env: Env)
    requires Valid(env.marshal(c))
    ensures Index(DocumentColumn(c, env), DEFAULT_SEPARATOR) == None
  {
    var column, body := DocumentColumn(c, env), EncodeToString(env.marshal(c));
    Utf8HasNoHyphenRun(env.marshal(c));
    assert forall i :: 0 <= i < 7 ==> column[i] == DOCUMENT_PREFIX[i] != '-';
    forall i
      ensures !OccursAt(column, DEFAULT_SEPARATOR, i)
    {
      FourHyphens(column, i);
      FourHyphens(body, i - 7);
      assert forall j :: 7 <= j < |column| ==> column[j] == body[j - 7];
    }
  }

  predicate Uncut(f: string) {
    Index(f, DEFAULT_SEPARATOR) == None
  }

  predicate AppPasswordFieldsUncut(row: Row, plain: Plain, c: Config, long: bool, rawSecrets: bool) {
    var sent := MailboxFolder(c, "SENT");
    && HyphenSafe(row.email)
    && (if long || rawSecrets then HyphenSafe(plain.password) else Uncut(plain.password))
    && (long ==> HyphenSafe(c.imapHost) && HyphenSafe(c.smtpHost)
                 && HyphenSafe(MailboxFolder(c, "INBOX")) && HyphenSafe(MailboxFolder(c, "Junk"))
                 && if rawSecrets then HyphenSafe(sent) else Uncut(sent))
    && (rawSecrets ==> Uncut(plain.loginPassword))
  }

  predicate OAuthFieldsUncut(row: Row, plain: Plain, rawSecrets: bool) {
    && HyphenSafe(row.email) && HyphenSafe(Text0(row.clientId))
    && HyphenSafe(plain.clientSecret) && HyphenSafe(plain.refreshToken)
    && (rawSecrets ==> HyphenSafe(plain.loginPassword))
  }

  /** What the account's own fields must avoid; tokens, ports, flags and the configuration column need nothing. */
  predicate FieldsUncut(row: Row, plain: Plain, c: Config, rawSecrets: bool) {
    if row.authType.AppPassword? then
      AppPasswordFieldsUncut(row, plain, c, !SameService(c, Defaults(row.provider)), rawSecrets)
    else
      OAuthFieldsUncut(row, plain, rawSecrets)
  }

  lemma AllSafeTwo(a: string, b: string)
    ensures AllSafe([a, b]) <==> HyphenSafe(a) && HyphenSafe(b)
    ensures AllSafe([a]) <==> HyphenSafe(a)
  {
    assert [a, b][0] == a && [a, b][1] == b && [a][0] == a;
  }

  lemma TokenUncut(row: Row)
    ensures HyphenSafe(ImportToken(row.provider, row.authType))
  {
    TokenIsTokenText(row.provider, row.authType);
    TokenTextFixed(ImportToken(row.provider, row.authType));
    NoHyphenSafe(ImportToken(row.provider, row.authType));
  }

  lemma OAuthUncut(row: Row, plain: Plain, c: Config, rawSecrets: bool, env: Env)
    requires Valid(env.marshal(c))
    ensures Separable(OAuthColumns(row, plain, c, rawSecrets, env), DEFAULT_SEPARATOR)
            <==> OAuthFieldsUncut(row, plain, rawSecrets)
  {
    var token, id := ImportToken(row.provider, row.authType), Text0(row.clientId);
    var login := if rawSecrets then plain.loginPassword else "";
    var head, tail := [token, row.email, id], [plain.clientSecret, plain.refreshToken, login];
    TokenUncut(row);
    NoHyphenSafe("");
    AllSafeThree(token, row.email, id);
    AllSafeThree(plain.clientSecret, plain.refreshToken, login);
    AllSafeConcat(head, tail);
    DocumentColumnUncut(c, env);
    DefaultSeparable(head + tail, DocumentColumn(c, env));
    assert OAuthColumns(row, plain, c, rawSecrets, env) == head + tail + [DocumentColumn(c, env)];
  }

  /** The service columns but the last. */
  function ServiceInit(c: Config): seq<string> {
    [c.imapHost, Itoa(c.imapPort), FormatBool(On(c.imapTls))]
    + [c.smtpHost, Itoa(c.smtpPort), FormatBool(On(c.smtpSecure))]
    + [MailboxFolder(c, "INBOX"), MailboxFolder(c, "Junk")]
  }

  lemma ServiceInitUncut(c: Config)
    requires PortsValid(c)
    ensures AllSafe(ServiceInit(c)) <==>
            HyphenSafe(c.imapHost) && HyphenSafe(c.smtpHost)
            && HyphenSafe(MailboxFolder(c, "INBOX")) && HyphenSafe(MailboxFolder(c, "Junk"))
  {
    ItoaTrimmed(c.imapPort);
    ItoaTrimmed(c.smtpPort);
    FormatBoolText(On(c.imapTls));
    FormatBoolText(On(c.smtpSecure));
    NoHyphenSafe(Itoa(c.imapPort));
    NoHyphenSafe(Itoa(c.smtpPort));
    NoHyphenSafe(FormatBool(On(c.imapTls)));
    NoHyphenSafe(FormatBool(On(c.smtpSecure)));
    var reading := [c.imapHost, Itoa(c.imapPort), FormatBool(On(c.imapTls))];
    var sending := [c.smtpHost, Itoa(c.smtpPort), FormatBool(On(c.smtpSecure))];
    var inbox, junk := MailboxFolder(c, "INBOX"), MailboxFolder(c, "Junk");
    AllSafeThree(reading[0], reading[1], reading[2]);
    AllSafeThree(sending[0], sending[1], sending[2]);
    AllSafeConcat(reading, sending);
    AllSafeConcat(reading + sending, [inbox, junk]);
    AllSafeTwo(inbox, junk);
  }

  lemma ShortFormUncut(row: Row, plain: Plain, c: Config, rawSecrets: bool)
    ensures Separable(AppPasswordColumns(row, plain, c, false, rawSecrets), DEFAULT_SEPARATOR)
            <==> AppPasswordFieldsUncut(row, plain, c, false, rawSecrets)
  {
    var token := ImportToken(row.provider, row.authType);
    TokenUncut(row);
    if rawSecrets {
      AllSafeThree(token, row.email, plain.password);
      DefaultSeparable([token, row.email, plain.password], plain.loginPassword);
      assert [token, row.email, plain.password] + [plain.loginPassword]
             == AppPasswordColumns(row, plain, c, false, true);
    } else {
      AllSafeTwo(token, row.email);
      DefaultSeparable([token, row.email], plain.password);
      assert [token, row.email] + [plain.password] == AppPasswordColumns(row, plain, c, false, false);
    }
  }

  lemma LongFormUncut(row: Row, plain: Plain, c: Config, rawSecrets: bool)
    requires PortsValid(c)
    ensures Separable(AppPasswordColumns(row, plain, c, true, rawSecrets), DEFAULT_SEPARATOR)
            <==> AppPasswordFieldsUncut(row, plain, c, true, rawSecrets)
  {
    var token, sent := ImportToken(row.provider, row.authType), MailboxFolder(c, "SENT");
    var head := [token, row.email, plain.password];
    TokenUncut(row);
    AllSafeThree(token, row.email, plain.password);
    ServiceInitUncut(c);
    TailUncut(head + ServiceInit(c), sent, plain.loginPassword, rawSecrets);
    AllSafeConcat(head, ServiceInit(c));
    LongColumns(row, plain, c, rawSecrets);
  }

  lemma LongColumns(row: Row, plain: Plain, c: Config, rawSecrets: bool)
    ensures AppPasswordColumns(row, plain, c, true, rawSecrets)
            == [ImportToken(row.provider, row.authType), row.email, plain.password]
               + ServiceInit(c) + [MailboxFolder(c, "SENT")] + (if rawSecrets then [plain.loginPassword] else [])
  {
    assert ServiceColumns(c) == ServiceInit(c) + [MailboxFolder(c, "SENT")];
  }

  lemma TailUncut(init: seq<string>, sent: string, login: string, rawSecrets: bool)
    ensures Separable(init + [sent] + (if rawSecrets then [login] else []), DEFAULT_SEPARATOR)
            <==> AllSafe(init) && if rawSecrets then HyphenSafe(sent) && Uncut(login) else Uncut(sent)
  {
    AllSafeTwo(sent, sent);
    AllSafeConcat(init, [sent]);
    DefaultSeparable(init + [sent], login);
    DefaultSeparable(init, sent);
    assert init + [sent] + [] == init + [sent];
  }

  /** The columns of an export are separable exactly when the account's own fields avoid the separator. */
  lemma DefaultSeparatorCondition(row: Row, plain: Plain, c: Config, rawSecrets: bool, env: Env)
    requires PortsValid(c) && (row.authType.AppPassword? || Valid(env.marshal(c)))
    ensures Separable(Columns(row, plain, c, rawSecrets, env), DEFAULT_SEPARATOR)
            <==> FieldsUncut(row, plain, c, rawSecrets)
  {
    if row.authType.AppPassword? {
      ShortFormUncut(row, plain, c, rawSecrets);
      LongFormUncut(row, plain, c, rawSecrets);
    } else {
      OAuthUncut(row, plain, c, rawSecrets, env);
    }
  }

  /** With the default separator the round trip needs conditions on the account's own fields only. */
  lemma DefaultSeparatorRoundTrip(row: Row, rawSecrets: bool, env: Env, c: Config, line: string, r: Outcome)
    requires Exports(row, DEFAULT_SEPARATOR, rawSecrets, env, c, line)
    requires ValidAccount(row, Secrets(row, env).value, c, env)
    requires !row.authType.AppPassword? ==> FaithfulDocument(c, env)
    requires FieldsUncut(row, Secrets(row, env).value, c, rawSecrets)
    requires ParseResult(line, DEFAULT_SEPARATOR, env, r)
    ensures SameAccount(r, row, Secrets(row, env).value, c, rawSecrets)
  {
    DefaultsSettled(row.provider);
    MergeSettled(row.provider, Defaults(row.provider), row.providerConfig, env.unmarshal, Ok(c));
    DefaultSeparatorCondition(row, Secrets(row, env).value, c, rawSecrets, env);
    ExportThenImport(row, DEFAULT_SEPARATOR, rawSecrets, env, c, line, r);
  }

  // ---------- Whole files ----------

  const NEWLINE := "\n"

  function TrimCarriageReturn(s: string): string {
    if s != "" && s[|s| - 1] == '\r' then s[..|s| - 1] else s
  }

  /** The lines an import keeps: trimmed, blank ones dropped. */
  function KeptLines(raw: seq<string>): seq<string> {
    if raw == [] then []
    else
      var line := TrimSpace(TrimCarriageReturn(raw[|raw| - 1]));
      KeptLines(raw[..|raw| - 1]) + (if line == "" then [] else [line])
  }

  method ReadLines(content: string) returns (lines: seq<string>)
    ensures lines == KeptLines(Split(TrimSpace(content), NEWLINE))
  {
    var raw := Split(TrimSpace(content), NEWLINE);
    lines := [];
    for i := 0 to |raw|
      invariant lines == KeptLines(raw[..i])
    {
      assert raw[..i + 1][..i] == raw[..i];
      var line := TrimSpace(TrimCarriageReturn(raw[i]));
      if line == "" {
        continue;
      }
      lines := lines + [line];
    }
    assert raw[..|raw|] == raw;
  }

  predicate PlainLine(line: string) {
    Filled(line) && '\n' !in line
  }

  lemma {:induction false} KeptLinesFixes(lines: seq<string>)
    requires forall i :: 0 <= i < |lines| ==> PlainLine(lines[i])
    ensures KeptLines(lines) == lines
  {
    if lines != [] {
      KeptLinesFixes(lines[..|lines| - 1]);
      TrimSpaceFixes(lines[|lines| - 1]);
    }
  }

  lemma NewlineAt(s: string, i: int)
    ensures OccursAt(s, NEWLINE, i) <==> 0 <= i < |s| && s[i] == '\n'
  {
    if 0 <= i < |s| {
      assert s[i..i + 1] == [s[i]];
    }
  }

  lemma NewlineFree(line: string)
    requires '\n' !in line
    ensures Index(line, NEWLINE) == None && SepSafe(line, NEWLINE)
  {
    var s := line + NEWLINE;
    forall j | 0 <= j < |line|
      ensures !OccursAt(s, NEWLINE, j) && !OccursAt(line, NEWLINE, j)
    {
      NewlineAt(s, j);
      NewlineAt(line, j);
      assert s[j] == line[j];
    }
    NewlineAt(s, |line|);
    IndexIs(s, NEWLINE, |line|);
    var i := Index(line, NEWLINE);
    if i.Some? {
      NewlineAt(line, i.value);
    }
  }

  lemma {:induction false} LinesJoinSplit(lines: seq<string>)
    requires lines != [] && forall i :: 0 <= i < |lines| ==> PlainLine(lines[i])
    ensures Separable(lines, NEWLINE)
    ensures Filled(Join(lines, NEWLINE))
    ensures Join(lines, NEWLINE)[0] == lines[0][0]
  {
    NewlineFree(lines[0]);
    if |lines| > 1 {
      LinesJoinSplit(lines[1..]);
      var tail := Join(lines[1..], NEWLINE);
      var s := Join(lines, NEWLINE);
      assert s[|s| - 1] == tail[|tail| - 1];
    }
  }

  /** Reading a file returns exactly the lines that were written to it, in order. */
  lemma FileReadsBack(lines: seq<string>)
    requires lines != [] && forall i :: 0 <= i < |lines| ==> PlainLine(lines[i])
    ensures KeptLines(Split(TrimSpace(Join(lines, NEWLINE)), NEWLINE)) == lines
  {
    LinesJoinSplit(lines);
    TrimSpaceFixes(Join(lines, NEWLINE));
    SplitJoin(lines, NEWLINE);
    KeptLinesFixes(lines);
  }

  // ---------- Exported lines are plain ----------

  predicate NewlineFreeAll(parts: seq<string>) {
    forall i :: 0 <= i < |parts| ==> '\n' !in parts[i]
  }

  /** A join begins with its first column and ends in its last column or, when that is empty, in the separator. */
  lemma {:induction false} JoinEnds(parts: seq<string>, sep: string)
    requires |parts| >= 2 && parts[0] != "" && sep != "" && !IsSpace(sep[|sep| - 1]) && '\n' !in sep
    requires AllTrimmed(parts) && NewlineFreeAll(parts)
    ensures PlainLine(Join(parts, sep))
    decreases |parts|
  {
    var rest := Join(parts[1..], sep);
    var s := parts[0] + sep + rest;
    assert Join(parts, sep) == s;
    assert s[0] == parts[0][0];
    JoinTail(parts[1..], sep);
    if rest == "" {
      assert s[|s| - 1] == sep[|sep| - 1];
    } else {
      assert s[|s| - 1] == rest[|rest| - 1];
    }
  }

  lemma {:induction false} JoinTail(parts: seq<string>, sep: string)
    requires parts != [] && sep != "" && !IsSpace(sep[|sep| - 1]) && '\n' !in sep
    requires AllTrimmed(parts) && NewlineFreeAll(parts)
    ensures var s := Join(parts, sep); '\n' !in s && (s != "" ==> !IsSpace(s[|s| - 1]))
    decreases |parts|
  {
    if |parts| > 1 {
      JoinTail(parts[1..], sep);
      var rest := Join(parts[1..], sep);
      var s := parts[0] + sep + rest;
      assert Join(parts, sep) == s;
      if rest == "" {
        assert s[|s| - 1] == sep[|sep| - 1];
      } else {
        assert s[|s| - 1] == rest[|rest| - 1];
      }
    }
  }

  /** One account of an export file: everything the round trip of its line rests on. */
  datatype Exported = Exported(row: Row, config: Config, line: string)

  ghost predicate ExportedWell(e: Exported, sep: string, rawSecrets: bool, env: Env) {
    && Exports(e.row, sep, rawSecrets, env, e.config, e.line)
    && ValidAccount(e.row, Secrets(e.row, env).value, e.config, env)
    && (!e.row.authType.AppPassword? ==> FaithfulDocument(e.config, env))
    && Separable(Columns(e.row, Secrets(e.row, env).value, e.config, rawSecrets, env), sep)
    && NewlineFreeAll(Columns(e.row, Secrets(e.row, env).value, e.config, rawSecrets, env))
  }

  lemma ExportedLineIsPlain(e: Exported, sep: string, rawSecrets: bool, env: Env)
    requires sep != "" && !IsSpace(sep[|sep| - 1]) && '\n' !in sep
    requires ExportedWell(e, sep, rawSecrets, env)
    ensures PlainLine(e.line)
  {
    var plain := Secrets(e.row, env).value;
    DefaultsSettled(e.row.provider);
    MergeSettled(e.row.provider, Defaults(e.row.provider), e.row.providerConfig, env.unmarshal, Ok(e.config));
    ColumnsTrimmed(e.row, plain, e.config, rawSecrets, env);
    TokenIsTokenText(e.row.provider, e.row.authType);
    JoinEnds(Columns(e.row, plain, e.config, rawSecrets, env), sep);
  }

  predicate IsAccountOf(r: Outcome, e: Exported, rawSecrets: bool, env: Env) {
    Secrets(e.row, env).Some? && SameAccount(r, e.row, Secrets(e.row, env).value, e.config, rawSecrets)
  }

  /** Importing an exported file yields one account for each row, in order, and each is the row's account. */
  lemma ExportedFileReadsBack(es: seq<Exported>, sep: string, rawSecrets: bool, env: Env, lines: seq<string>)
    requires es != [] && sep != "" && !IsSpace(sep[|sep| - 1]) && '\n' !in sep
    requires forall i :: 0 <= i < |es| ==> ExportedWell(es[i], sep, rawSecrets, env)
    requires |lines| == |es| && forall i :: 0 <= i < |es| ==> lines[i] == es[i].line
    ensures KeptLines(Split(TrimSpace(Join(lines, NEWLINE)), NEWLINE)) == lines
    ensures forall i, r :: 0 <= i < |es| && ParseResult(lines[i], sep, env, r) ==>
              IsAccountOf(r, es[i], rawSecrets, env)
  {
    forall i | 0 <= i < |es|
      ensures PlainLine(lines[i])
    {
      ExportedLineIsPlain(es[i], sep, rawSecrets, env);
    }
    FileReadsBack(lines);
    forall i, r | 0 <= i < |es| && ParseResult(lines[i], sep, env, r)
      ensures IsAccountOf(r, es[i], rawSecrets, env)
    {
      ExportThenImport(es[i].row, sep, rawSecrets, env, es[i].config, lines[i], r);
    }
  }
}
