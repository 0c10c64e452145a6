/** Mail providers, their default configuration, and merging a JSON override into a configuration. */
module ProviderConfig {
  import opened Text
  import opened Utf8
  import opened Wrappers

  datatype Provider =
    | Outlook | Gmail | Qq | Netease163 | Netease126 | Icloud | Yahoo | Zoho | Aliyun
    | AmazonWorkmail | Fastmail | Aol | Gmx | Mailcom | Yandex | Custom

  /** Absent strings are "", an absent port is 0, an absent flag or folder table is None. */
  datatype Config = Config(
    readMode: string,
    imapHost: string,
    imapPort: int,
    imapTls: Option<bool>,
    smtpHost: string,
    smtpPort: int,
    smtpSecure: Option<bool>,
    folders: Option<map<string, string>>,
    oauthTenant: string,
    oauthScopes: string)

  // ---------- Provider defaults ----------

  function Hosts(p: Provider): (string, string) {
    match p
    case Gmail => ("imap.gmail.com", "smtp.gmail.com")
    case Qq => ("imap.qq.com", "smtp.qq.com")
    case Netease163 => ("imap.163.com", "smtp.163.com")
    case Netease126 => ("imap.126.com", "smtp.126.com")
    case Icloud => ("imap.mail.me.com", "smtp.mail.me.com")
    case Yahoo => ("imap.mail.yahoo.com", "smtp.mail.yahoo.com")
    case Zoho => ("imap.zoho.com", "smtp.zoho.com")
    case Aliyun => ("imap.mxhichina.com", "smtp.mxhichina.com")
    case AmazonWorkmail => ("imap.mail.us-east-1.awsapps.com", "smtp.mail.us-east-1.awsapps.com")
    case Fastmail => ("imap.fastmail.com", "smtp.fastmail.com")
    case Aol => ("imap.aol.com", "smtp.aol.com")
    case Gmx => ("imap.gmx.com", "mail.gmx.com")
    case Mailcom => ("imap.mail.com", "smtp.mail.com")
    case Yandex => ("imap.yandex.com", "smtp.yandex.com")
    case Outlook => ("outlook.office365.com", "smtp.office365.com")
    case Custom => ("", "")
  }

  function JunkFolder(p: Provider): (r: string)
    ensures r != "" && Trimmed(r)
  {
    if p.Gmail? then "[Gmail]/Spam" else if p.Mailcom? then "Junk email" else "Junk"
  }

  function SentFolder(p: Provider): (r: string)
    ensures r != "" && Trimmed(r)
  {
    if p.Gmail? then "[Gmail]/Sent Mail"
    else if p.Qq? then "Sent Messages"
    else if p.Mailcom? then "Sent Items"
    else "Sent"
  }

  function DefaultFolders(p: Provider): map<string, string> {
    map["inbox" := "INBOX", "junk" := JunkFolder(p), "sent" := SentFolder(p)]
  }

  predicate SubmitsInClear(p: Provider) {
    p.Icloud? || p.Mailcom? || p.Outlook?
  }

  function Defaults(p: Provider): Config {
    Config(
      if p.Gmail? then "GMAIL_API" else if p.Outlook? then "GRAPH_ONLY" else "IMAP",
      Hosts(p).0, 993, Some(true),
      Hosts(p).1, if SubmitsInClear(p) then 587 else 465, Some(!SubmitsInClear(p)),
      Some(DefaultFolders(p)), "", "")
  }

  /** The folder a mailbox name selects. */
  function MailboxFolder(c: Config, mailbox: string): string {
    var name := ToLower(TrimSpace(mailbox));
    var key := if name == "spam" then "junk" else name;
    if c.folders.Some? && key in c.folders.value && TrimSpace(c.folders.value[key]) != "" then c.folders.value[key]
    else if key == "junk" then "Junk"
    else if key == "sent" then "Sent"
    else "INBOX"
  }

  // ---------- Folder tables: one pass over a Go map, in any order ----------

  type Entry = (string, string)

  /** `items` lists every entry of `table` once. */
  ghost predicate Enumerates(items: seq<Entry>, table: map<string, string>) {
    && (forall i :: 0 <= i < |items| ==> items[i].0 in table && table[items[i].0] == items[i].1)
    && (forall i, j :: 0 <= i < j < |items| ==> items[i].0 != items[j].0)
    && (forall k :: k in table ==> (k, table[k]) in items)
  }

  /** The folder table after the loop has visited the entries in this order. */
  function FoldFolders(base: map<string, string>, items: seq<Entry>): map<string, string> {
    if items == [] then base
    else
      var last := items[|items| - 1];
      FoldFolders(base, items[..|items| - 1])[ToLower(last.0) := TrimSpace(last.1)]
  }

  /** Two spellings of one folder name that ask for different folders. */
  predicate Conflict(over: map<string, string>, k: string, l: string) {
    k in over && l in over && ToLower(k) == ToLower(l) && TrimSpace(over[k]) != TrimSpace(over[l])
  }

  predicate Mentions(items: seq<Entry>, q: string) {
    exists i :: 0 <= i < |items| && ToLower(items[i].0) == q
  }

  lemma {:induction false} FoldFoldersAt(base: map<string, string>, items: seq<Entry>, q: string)
    ensures var r := FoldFolders(base, items);
            if Mentions(items, q) then
              q in r && exists i :: 0 <= i < |items| && ToLower(items[i].0) == q && r[q] == TrimSpace(items[i].1)
            else
              (q in r <==> q in base) && (q in r ==> r[q] == base[q])
  {
    if items != [] {
      var init, last := items[..|items| - 1], |items| - 1;
      FoldFoldersAt(base, init, q);
      assert forall i :: 0 <= i < |init| ==> init[i] == items[i];
      if ToLower(items[last].0) == q {
        assert FoldFolders(base, items)[q] == TrimSpace(items[last].1);
      } else if i :| 0 <= i < |items| && ToLower(items[i].0) == q {
        assert ToLower(init[i].0) == q;
      }
    }
  }

  lemma EnumeratesOneMore(items: seq<Entry>, table: map<string, string>, last: string)
    requires last in table && Enumerates(items, table - {last})
    ensures Enumerates(items + [(last, table[last])], table)
  {
    var more := items + [(last, table[last])];
    forall k | k in table
      ensures (k, table[k]) in more
    {
      if k != last {
        assert (k, (table - {last})[k]) in items;
      }
    }
  }

  lemma {:induction false} EnumerationEndingIn(table: map<string, string>, last: string) returns (items: seq<Entry>)
    requires last in table
    ensures Enumerates(items, table) && items != [] && items[|items| - 1] == (last, table[last])
    decreases |table|
  {
    var rest := table - {last};
    if rest == map[] {
      assert forall k :: k in table ==> k == last;
      items := [(last, table[last])];
    } else {
      var next :| next in rest;
      assert |rest.Keys| < |table.Keys| by {
        assert rest.Keys == table.Keys - {last};
      }
      var init := EnumerationEndingIn(rest, next);
      items := init + [(last, table[last])];
      EnumeratesOneMore(init, table, last);
    }
  }

  ghost predicate OrderIrrelevant(base: map<string, string>, over: map<string, string>) {
    forall o, o' :: Enumerates(o, over) && Enumerates(o', over) ==> FoldFolders(base, o) == FoldFolders(base, o')
  }

  lemma SameFold(base: map<string, string>, over: map<string, string>, o: seq<Entry>, o': seq<Entry>)
    requires Enumerates(o, over) && Enumerates(o', over)
    requires forall k, l :: !Conflict(over, k, l)
    ensures FoldFolders(base, o) == FoldFolders(base, o')
  {
    var r, r' := FoldFolders(base, o), FoldFolders(base, o');
    forall q
      ensures (q in r <==> q in r') && (q in r ==> r[q] == r'[q])
    {
      FoldFoldersAt(base, o, q);
      FoldFoldersAt(base, o', q);
      if Mentions(o', q) {
        SameMentions(over, o', o, q);
      }
      if Mentions(o, q) {
        SameMentions(over, o, o', q);
        var j :| 0 <= j < |o| && ToLower(o[j].0) == q && r[q] == TrimSpace(o[j].1);
        var j' :| 0 <= j' < |o'| && ToLower(o'[j'].0) == q && r'[q] == TrimSpace(o'[j'].1);
        assert !Conflict(over, o[j].0, o'[j'].0);
      }
    }
  }

  lemma SameMentions(over: map<string, string>, o: seq<Entry>, o': seq<Entry>, q: string)
    requires Enumerates(o, over) && Enumerates(o', over) && Mentions(o, q)
    ensures Mentions(o', q)
  {
    var i :| 0 <= i < |o| && ToLower(o[i].0) == q;
    assert o[i] in o';
  }

  /** The merged folder table depends on Go's random map order exactly when two spellings conflict. */
  lemma MergeOrderMatters(base: map<string, string>, over: map<string, string>)
    ensures OrderIrrelevant(base, over) <==> forall k, l :: !Conflict(over, k, l)
  {
    if k, l :| Conflict(over, k, l) {
      var o := EnumerationEndingIn(over, k);
      var o' := EnumerationEndingIn(over, l);
      var q := ToLower(k);
      assert FoldFolders(base, o)[q] == TrimSpace(over[k]);
      assert FoldFolders(base, o')[q] == TrimSpace(over[l]);
      assert !OrderIrrelevant(base, over);
    } else {
      forall o, o' | Enumerates(o, over) && Enumerates(o', over)
        ensures FoldFolders(base, o) == FoldFolders(base, o')
      {
        SameFold(base, over, o, o');
      }
    }
  }

  // ---------- Merging ----------

  const NULL_DOCUMENT: Bytes := [0x6E, 0x75, 0x6C, 0x6C]
  const EMPTY_OBJECT: Bytes := [0x7B, 0x7D]

  /** json.Unmarshal into a configuration; None is a decoding error. */
  type Unmarshal = Bytes -> Option<Config>

  predicate PortsValid(c: Config) {
    1 <= c.imapPort <= 65535 && 1 <= c.smtpPort <= 65535
  }

  function FolderTable(folders: Option<map<string, string>>): map<string, string> {
    match folders
    case Some(table) => table
    case None => map[]
  }

  function Choose(over: string, base: string): string {
    if over != "" then over else base
  }

  function ChooseTrimmed(over: string, base: string): string {
    if over != "" then TrimSpace(over) else base
  }

  /** Every field of the override that is present replaces the field of the configuration. */
  function Overridden(c: Config, over: Config, items: seq<Entry>): Config {
    Config(
      Choose(over.readMode, c.readMode),
      Choose(over.imapHost, c.imapHost),
      if over.imapPort > 0 then over.imapPort else c.imapPort,
      if over.imapTls.Some? then over.imapTls else c.imapTls,
      Choose(over.smtpHost, c.smtpHost),
      if over.smtpPort > 0 then over.smtpPort else c.smtpPort,
      if over.smtpSecure.Some? then over.smtpSecure else c.smtpSecure,
      if over.folders.None? then c.folders else Some(FoldFolders(FolderTable(c.folders), items)),
      ChooseTrimmed(over.oauthTenant, c.oauthTenant),
      ChooseTrimmed(over.oauthScopes, c.oauthScopes))
  }

  /** The results merging may have, one for each order in which the folder keys can be visited. */
  ghost predicate MergeResult(c: Config, raw: Bytes, unmarshal: Unmarshal, r: Result<Config, string>) {
    if raw == [] || raw == NULL_DOCUMENT || raw == EMPTY_OBJECT then r == Ok(c)
    else if unmarshal(raw).None? then r == Err("providerConfig must be a JSON object")
    else
      var over := unmarshal(raw).value;
      exists items :: Enumerates(items, FolderTable(over.folders))
        && r == (if PortsValid(Overridden(c, over, items)) then Ok(Overridden(c, over, items))
                 else Err("providerConfig contains an invalid port"))
  }

  /** `items` lists the entries of `table` whose keys are not left. */
  ghost predicate Visited(items: seq<Entry>, table: map<string, string>, left: set<string>) {
    && left <= table.Keys
    && (forall i :: 0 <= i < |items| ==> items[i].0 in table && items[i].0 !in left && table[items[i].0] == items[i].1)
    && (forall i, j :: 0 <= i < j < |items| ==> items[i].0 != items[j].0)
    && (forall k :: k in table && k !in left ==> (k, table[k]) in items)
  }

  lemma VisitedOneMore(items: seq<Entry>, table: map<string, string>, left: set<string>, key: string)
    requires Visited(items, table, left) && key in left
    ensures Visited(items + [(key, table[key])], table, left - {key})
  {
    var more := items + [(key, table[key])];
    forall k | k in table && k !in left - {key}
      ensures (k, table[k]) in more
    {
      if k != key {
        assert (k, table[k]) in items;
      }
    }
  }

  /** The loop over the override's folders, which visits its entries in an arbitrary order. */
  method MergeFolders(base: map<string, string>, over: map<string, string>)
    returns (folders: map<string, string>, ghost items: seq<Entry>)
    ensures Enumerates(items, over)
    ensures folders == FoldFolders(base, items)
  {
    folders, items := base, [];
    var left := over.Keys;
    while left != {}
      invariant Visited(items, over, left)
      invariant folders == FoldFolders(base, items)
      decreases |left|
    {
      var key :| key in left;
      folders := folders[ToLower(key) := TrimSpace(over[key])];
      ghost var before := items;
      items := items + [(key, over[key])];
      VisitedOneMore(before, over, left, key);
      left := left - {key};
      assert items[..|items| - 1] == before;
    }
  }

  method OverrideFields(start: Config, over: Config) returns (config: Config, ghost items: seq<Entry>)
    ensures Enumerates(items, FolderTable(over.folders))
    ensures config == Overridden(start, over, items)
  {
    var readMode, imapHost, imapPort, imapTls := start.readMode, start.imapHost, start.imapPort, start.imapTls;
    var smtpHost, smtpPort, smtpSecure := start.smtpHost, start.smtpPort, start.smtpSecure;
    var folders, tenant, scopes := start.folders, start.oauthTenant, start.oauthScopes;
    items := [];
    readMode := Choose(over.readMode, readMode);
    imapHost := Choose(over.imapHost, imapHost);
    if over.imapPort > 0 { imapPort := over.imapPort; }
    if over.imapTls.Some? { imapTls := over.imapTls; }
    smtpHost := Choose(over.smtpHost, smtpHost);
    if over.smtpPort > 0 { smtpPort := over.smtpPort; }
    if over.smtpSecure.Some? { smtpSecure := over.smtpSecure; }
    if over.folders.Some? {
      var merged;
      merged, items := MergeFolders(FolderTable(folders), over.folders.value);
      folders := Some(merged);
    }
    tenant := ChooseTrimmed(over.oauthTenant, tenant);
    scopes := ChooseTrimmed(over.oauthScopes, scopes);
    config := Config(readMode, imapHost, imapPort, imapTls, smtpHost, smtpPort, smtpSecure, folders, tenant, scopes);
  }

  method MergeProviderConfigInto(start: Config, raw: Bytes, unmarshal: Unmarshal) returns (r: Result<Config, string>)
    ensures MergeResult(start, raw, unmarshal, r)
  {
    if raw == [] || raw == NULL_DOCUMENT || raw == EMPTY_OBJECT {
      return Ok(start);
    }
    var decoded := unmarshal(raw);
    if decoded.None? {
      return Err("providerConfig must be a JSON object");
    }
    var config, items := OverrideFields(start, decoded.value);
    if !PortsValid(config) {
      return Err("providerConfig contains an invalid port");
    }
    return Ok(config);
  }

  // ---------- Stability ----------

  predicate FolderTableSettled(p: Provider, folders: map<string, string>) {
    && DefaultFolders(p).Keys <= folders.Keys
    && forall k :: k in folders ==> IsLower(k) && Trimmed(folders[k])
  }

  /** What every configuration built up from the provider's defaults satisfies. */
  predicate Settled(p: Provider, c: Config) {
    && c.readMode != ""
    && (Hosts(p).0 != "" ==> c.imapHost != "")
    && (Hosts(p).1 != "" ==> c.smtpHost != "")
    && PortsValid(c)
    && c.imapTls.Some? && c.smtpSecure.Some?
    && c.folders.Some? && FolderTableSettled(p, c.folders.value)
    && Trimmed(c.oauthTenant) && Trimmed(c.oauthScopes)
  }

  lemma DefaultFoldersSettled(p: Provider)
    ensures FolderTableSettled(p, DefaultFolders(p))
    ensures {"inbox", "junk", "sent"} == DefaultFolders(p).Keys
    ensures forall k :: k in DefaultFolders(p) ==> DefaultFolders(p)[k] != ""
  {
    assert IsLower("inbox") && IsLower("junk") && IsLower("sent");
  }

  lemma {:induction false} FoldFoldersSettled(p: Provider, base: map<string, string>, items: seq<Entry>)
    requires FolderTableSettled(p, base)
    ensures FolderTableSettled(p, FoldFolders(base, items))
  {
    if items != [] {
      var last := items[|items| - 1];
      FoldFoldersSettled(p, base, items[..|items| - 1]);
      ToLowerFixes(last.0);
      TrimSpaceFixes(last.1);
    }
  }

  lemma DefaultsSettled(p: Provider)
    ensures Settled(p, Defaults(p))
  {
    DefaultFoldersSettled(p);
  }

  /** Every merge that succeeds keeps a configuration settled; in particular its ports stay in 1..65535. */
  lemma MergeSettled(p: Provider, c: Config, raw: Bytes, unmarshal: Unmarshal, r: Result<Config, string>)
    requires Settled(p, c) && MergeResult(c, raw, unmarshal, r) && r.Ok?
    ensures Settled(p, r.value)
  {
    if !(raw == [] || raw == NULL_DOCUMENT || raw == EMPTY_OBJECT) {
      var over := unmarshal(raw).value;
      var items :| Enumerates(items, FolderTable(over.folders)) && r.value == Overridden(c, over, items);
      if over.folders.Some? {
        FoldFoldersSettled(p, c.folders.value, items);
      }
      TrimSpaceFixes(over.oauthTenant);
      TrimSpaceFixes(over.oauthScopes);
    }
  }

  /** A settled folder table laid over the defaults gives itself back, in whatever order. */
  lemma RefoldSettled(p: Provider, folders: map<string, string>, items: seq<Entry>)
    requires FolderTableSettled(p, folders) && Enumerates(items, folders)
    ensures FoldFolders(DefaultFolders(p), items) == folders
  {
    var r := FoldFolders(DefaultFolders(p), items);
    forall q
      ensures (q in r <==> q in folders) && (q in r ==> r[q] == folders[q])
    {
      FoldFoldersAt(DefaultFolders(p), items, q);
      forall i | 0 <= i < |items|
        ensures ToLower(items[i].0) == items[i].0 && TrimSpace(items[i].1) == items[i].1
      {
        ToLowerFixes(items[i].0);
        TrimSpaceFixes(items[i].1);
      }
      if q in folders {
        var i :| 0 <= i < |items| && items[i] == (q, folders[q]);
        assert ToLower(items[i].0) == q;
      }
    }
  }

  /**
   Reloading a stored configuration is the identity: once the marshalled document decodes to the
   configuration it was written from, merging it into the defaults has that configuration as its
   only result.
   */
  lemma ReloadIsIdentity(p: Provider, c: Config, raw: Bytes, unmarshal: Unmarshal, r: Result<Config, string>)
    requires Settled(p, c)
    requires raw != [] && raw != NULL_DOCUMENT && raw != EMPTY_OBJECT && unmarshal(raw) == Some(c)
    ensures MergeResult(Defaults(p), raw, unmarshal, r) <==> r == Ok(c)
  {
    forall items | Enumerates(items, FolderTable(c.folders))
      ensures Overridden(Defaults(p), c, items) == c
    {
      RefoldSettled(p, c.folders.value, items);
      TrimSpaceFixes(c.oauthTenant);
      TrimSpaceFixes(c.oauthScopes);
    }
    DefaultFoldersSettled(p);
    var first := EnumerationEndingIn(FolderTable(c.folders), "inbox");
    if r == Ok(c) {
      assert Overridden(Defaults(p), c, first) == c;
    }
  }

  /** A run of updates: it starts from the provider's defaults and every step is a merge that succeeded. */
  ghost predicate UpdateRun(p: Provider, configs: seq<Config>, updates: seq<Bytes>, unmarshal: Unmarshal) {
    && |configs| == |updates| + 1
    && configs[0] == Defaults(p)
    && forall i :: 0 <= i < |updates| ==> MergeResult(configs[i], updates[i], unmarshal, Ok(configs[i + 1]))
  }

  lemma {:induction false} UpdateRunSettled(p: Provider, configs: seq<Config>, updates: seq<Bytes>,
                                            unmarshal: Unmarshal, i: nat)
    requires UpdateRun(p, configs, updates, unmarshal) && i < |configs|
    ensures Settled(p, configs[i])
  {
    if i == 0 {
      DefaultsSettled(p);
    } else {
      UpdateRunSettled(p, configs, updates, unmarshal, i - 1);
      MergeSettled(p, configs[i - 1], updates[i - 1], unmarshal, Ok(configs[i]));
    }
  }

  /** At every point of every run of updates, storing the configuration and loading it back changes nothing. */
  lemma StoredConfigIsStable(p: Provider, configs: seq<Config>, updates: seq<Bytes>, unmarshal: Unmarshal, i: nat,
                             stored: Bytes, r: Result<Config, string>)
    requires UpdateRun(p, configs, updates, unmarshal) && i < |configs|
    requires stored != [] && stored != NULL_DOCUMENT && stored != EMPTY_OBJECT && unmarshal(stored) == Some(configs[i])
    ensures MergeResult(Defaults(p), stored, unmarshal, r) <==> r == Ok(configs[i])
    ensures PortsValid(configs[i])
  {
    UpdateRunSettled(p, configs, updates, unmarshal, i);
    ReloadIsIdentity(p, configs[i], stored, unmarshal, r);
  }

  // ---------- Field by field ----------

  /**
   Every successful merge of a document that decodes: an absent field keeps the base's value, a present one
   replaces it.
   */
  lemma MergedFields(c: Config, raw: Bytes, unmarshal: Unmarshal, r: Config)
    requires MergeResult(c, raw, unmarshal, Ok(r))
    requires raw != [] && raw != NULL_DOCUMENT && raw != EMPTY_OBJECT
    ensures unmarshal(raw).Some?
    ensures var over := unmarshal(raw).value;
            && r.readMode == (if over.readMode == "" then c.readMode else over.readMode)
            && r.imapHost == (if over.imapHost == "" then c.imapHost else over.imapHost)
            && r.imapPort == (if over.imapPort <= 0 then c.imapPort else over.imapPort)
            && r.imapTls == (if over.imapTls == None then c.imapTls else over.imapTls)
            && r.smtpHost == (if over.smtpHost == "" then c.smtpHost else over.smtpHost)
            && r.smtpPort == (if over.smtpPort <= 0 then c.smtpPort else over.smtpPort)
            && r.smtpSecure == (if over.smtpSecure == None then c.smtpSecure else over.smtpSecure)
            && r.oauthTenant == (if over.oauthTenant == "" then c.oauthTenant else TrimSpace(over.oauthTenant))
            && r.oauthScopes == (if over.oauthScopes == "" then c.oauthScopes else TrimSpace(over.oauthScopes))
            && (over.folders == None ==> r.folders == c.folders)
            && 1 <= r.imapPort <= 65535 && 1 <= r.smtpPort <= 65535
  {
  }

  /** No entry of the override spells this folder key, in any case. */
  predicate Unmentioned(over: map<string, string>, key: string) {
    forall k :: k in over ==> ToLower(k) != key
  }

  /**
   A folder that no entry mentions keeps its base entry; one that is mentioned takes a mentioning entry's
   value, trimmed.
   */
  lemma MergedFolders(c: Config, raw: Bytes, unmarshal: Unmarshal, r: Config, key: string)
    requires MergeResult(c, raw, unmarshal, Ok(r))
    requires raw != [] && raw != NULL_DOCUMENT && raw != EMPTY_OBJECT
    requires unmarshal(raw).Some? && unmarshal(raw).value.folders.Some?
    ensures r.folders.Some?
    ensures var over, base, folders := unmarshal(raw).value.folders.value, FolderTable(c.folders), r.folders.value;
            if Unmentioned(over, key)
            then (key in folders <==> key in base) && (key in base ==> folders[key] == base[key])
            else key in folders && exists k :: k in over && ToLower(k) == key && folders[key] == TrimSpace(over[k])
  {
    var over := unmarshal(raw).value;
    var table := over.folders.value;
    var items: seq<Entry> :| Enumerates(items, table) && r == Overridden(c, over, items);
    FoldFoldersAt(FolderTable(c.folders), items, key);
    if k :| k in table && ToLower(k) == key {
      assert (k, table[k]) in items;
      var i :| 0 <= i < |items| && items[i] == (k, table[k]);
      assert Mentions(items, key);
      var j :| 0 <= j < |items| && ToLower(items[j].0) == key && r.folders.value[key] == TrimSpace(items[j].1);
      assert items[j].0 in table;
    } else {
      assert !Mentions(items, key);
    }
  }

  lemma UnmergedIs(c: Config, raw: Bytes, unmarshal: Unmarshal, r: Result<Config, string>)
    requires raw == [] || raw == NULL_DOCUMENT || raw == EMPTY_OBJECT || unmarshal(raw).None?
    ensures MergeResult(c, raw, unmarshal, r)
            <==> r == if raw == [] || raw == NULL_DOCUMENT || raw == EMPTY_OBJECT then Ok(c)
                      else Err("providerConfig must be a JSON object")
  {
  }

  /** A port out of range is an error, whichever side it comes from. */
  lemma BadPortIsRefused(c: Config, raw: Bytes, unmarshal: Unmarshal, r: Result<Config, string>)
    requires MergeResult(c, raw, unmarshal, r)
    requires raw != [] && raw != NULL_DOCUMENT && raw != EMPTY_OBJECT && unmarshal(raw).Some?
    ensures var over := unmarshal(raw).value;
            var imapPort := if over.imapPort > 0 then over.imapPort else c.imapPort;
            var smtpPort := if over.smtpPort > 0 then over.smtpPort else c.smtpPort;
            r.Ok? <==> 1 <= imapPort <= 65535 && 1 <= smtpPort <= 65535
  {
  }

  /** The key under which a mailbox name looks its folder up, and the folder it has when none is given. */
  predicate NamesFolder(mailbox: string, key: string, fallback: string) {
    var name := ToLower(TrimSpace(mailbox));
    || (key == "inbox" && name == "inbox" && fallback == "INBOX")
    || (key == "sent" && name == "sent" && fallback == "Sent")
    || (key == "junk" && (name == "junk" || name == "spam") && fallback == "Junk")
  }

  /** The folder in use is the one stored under the mailbox's key; a missing or blank one is the usual name. */
  lemma MailboxFolderIs(c: Config, mailbox: string, key: string, fallback: string)
    requires NamesFolder(mailbox, key, fallback)
    ensures var stored := c.folders.Some? && key in c.folders.value && TrimSpace(c.folders.value[key]) != "";
            MailboxFolder(c, mailbox) == if stored then c.folders.value[key] else fallback
  {
    assert "inbox" != "spam" && "sent" != "spam" && "inbox" != "junk" && "inbox" != "sent" && "junk" != "sent";
  }

  /** What an override gives for a mailbox is the folder in use afterwards. */
  lemma OverrideNamesFolder(c: Config, raw: Bytes, unmarshal: Unmarshal, r: Config,
                            mailbox: string, key: string, fallback: string, spelled: string)
    requires MergeResult(c, raw, unmarshal, Ok(r)) && NamesFolder(mailbox, key, fallback)
    requires raw != [] && raw != NULL_DOCUMENT && raw != EMPTY_OBJECT && unmarshal(raw).Some?
    requires unmarshal(raw).value.folders.Some?
    requires var over := unmarshal(raw).value.folders.value;
             && spelled in over && ToLower(spelled) == key && TrimSpace(over[spelled]) != ""
             && forall k :: k in over && ToLower(k) == key ==> k == spelled
    ensures MailboxFolder(r, mailbox) == TrimSpace(unmarshal(raw).value.folders.value[spelled])
  {
    var over := unmarshal(raw).value.folders.value;
    MergedFolders(c, raw, unmarshal, r, key);
    MailboxFolderIs(r, mailbox, key, fallback);
    TrimSpaceFixes(over[spelled]);
    TrimSpaceFixes(TrimSpace(over[spelled]));
  }
}
