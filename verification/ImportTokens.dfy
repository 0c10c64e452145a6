/** The first column of an exported account: one token for each provider profile. */
module ImportTokens {
  import opened ProviderConfig
  import opened Text
  import opened Wrappers

  datatype AuthType = MicrosoftOauth | GoogleOauth | AppPassword

  function ProviderName(p: Provider): string {
    match p
    case Outlook => "OUTLOOK"
    case Gmail => "GMAIL"
    case Qq => "QQ"
    case Netease163 => "NETEASE_163"
    case Netease126 => "NETEASE_126"
    case Icloud => "ICLOUD"
    case Yahoo => "YAHOO"
    case Zoho => "ZOHO"
    case Aliyun => "ALIYUN"
    case AmazonWorkmail => "AMAZON_WORKMAIL"
    case Fastmail => "FASTMAIL"
    case Aol => "AOL"
    case Gmx => "GMX"
    case Mailcom => "MAILCOM"
    case Yandex => "YANDEX"
    case Custom => "CUSTOM_IMAP_SMTP"
  }

  /** The combinations that account validation admits. */
  predicate ValidProfile(p: Provider, a: AuthType) {
    match p
    case Outlook => a.MicrosoftOauth?
    case Gmail => a.GoogleOauth? || a.AppPassword?
    case _ => a.AppPassword?
  }

  function ImportToken(p: Provider, a: AuthType): string {
    if p.Outlook? && a.MicrosoftOauth? then "OUTLOOK_OAUTH"
    else if p.Gmail? && a.GoogleOauth? then "GMAIL_OAUTH"
    else if p.Gmail? then "GMAIL_APP_PASSWORD"
    else if p.Custom? then "CUSTOM_IMAP_SMTP"
    else ProviderName(p) + "_IMAP_SMTP"
  }

  /** The reader's own table of application-password tokens. */
  function TableToken(p: Provider): string {
    match p
    case Outlook => ""
    case Gmail => "GMAIL_APP_PASSWORD"
    case Qq => "QQ_IMAP_SMTP"
    case Netease163 => "NETEASE_163_IMAP_SMTP"
    case Netease126 => "NETEASE_126_IMAP_SMTP"
    case Icloud => "ICLOUD_IMAP_SMTP"
    case Yahoo => "YAHOO_IMAP_SMTP"
    case Zoho => "ZOHO_IMAP_SMTP"
    case Aliyun => "ALIYUN_IMAP_SMTP"
    case AmazonWorkmail => "AMAZON_WORKMAIL_IMAP_SMTP"
    case Fastmail => "FASTMAIL_IMAP_SMTP"
    case Aol => "AOL_IMAP_SMTP"
    case Gmx => "GMX_IMAP_SMTP"
    case Mailcom => "MAILCOM_IMAP_SMTP"
    case Yandex => "YANDEX_IMAP_SMTP"
    case Custom => "CUSTOM_IMAP_SMTP"
  }

  const TABLE: seq<Provider> :=
    [Gmail, Qq, Netease163, Netease126, Icloud, Yahoo, Zoho, Aliyun,
     AmazonWorkmail, Fastmail, Aol, Gmx, Mailcom, Yandex, Custom]

  function LookUp(token: string, table: seq<Provider>): Option<Provider> {
    if table == [] then None
    else if TableToken(table[0]) == token then Some(table[0])
    else LookUp(token, table[1..])
  }

  function ProfileOf(token: string): Option<(Provider, AuthType)> {
    if token == "OUTLOOK_OAUTH" then Some((Outlook, MicrosoftOauth))
    else if token == "GMAIL_OAUTH" then Some((Gmail, GoogleOauth))
    else match LookUp(token, TABLE)
         case Some(p) => Some((p, AppPassword))
         case None => None
  }

  /** Tokens are trimmed and upper-cased before they are looked up. */
  function TokenProfile(value: string): Option<(Provider, AuthType)> {
    ProfileOf(ToUpper(TrimSpace(value)))
  }

  /** Upper-case letters, digits and underscores only: nothing that trimming, case mapping or hyphens can touch. */
  predicate TokenText(s: string) {
    s != "" && forall i :: 0 <= i < |s| ==> 'A' <= s[i] <= 'Z' || '0' <= s[i] <= '9' || s[i] == '_'
  }

  lemma TokenTextFixed(s: string)
    requires TokenText(s)
    ensures ToUpper(TrimSpace(s)) == s && Trimmed(s) && '-' !in s
  {
    assert !IsSpace(s[0]) && !IsSpace(s[|s| - 1]);
    TrimSpaceFixes(s);
  }

  lemma NameIsTokenText(p: Provider)
    ensures TokenText(ProviderName(p))
  {
  }

  lemma JoinedTokenText(a: string, b: string)
    requires TokenText(a) && TokenText(b)
    ensures TokenText(a + b)
  {
  }

  lemma TokenIsTokenText(p: Provider, a: AuthType)
    ensures TokenText(ImportToken(p, a))
  {
    NameIsTokenText(p);
    JoinedTokenText(ProviderName(p), "_IMAP_SMTP");
  }

  /** Length, first and tenth character tell the table's tokens apart. */
  function Fingerprint(p: Provider): (nat, char, char)
    requires !p.Outlook?
    ensures var t := TableToken(p); |t| > 9 && Fingerprint(p) == (|t|, t[0], t[9])
  {
    match p
    case Gmail => (18, 'G', '_')
    case Qq => (12, 'Q', 'M')
    case Netease163 => (21, 'N', '6')
    case Netease126 => (21, 'N', '2')
    case Icloud => (16, 'I', 'A')
    case Yahoo => (15, 'Y', 'P')
    case Zoho => (14, 'Z', '_')
    case Aliyun => (16, 'A', 'A')
    case AmazonWorkmail => (25, 'A', 'R')
    case Fastmail => (18, 'F', 'I')
    case Aol => (13, 'A', 'S')
    case Gmx => (13, 'G', 'S')
    case Mailcom => (17, 'M', 'M')
    case Yandex => (16, 'Y', 'A')
    case Custom => (16, 'C', 'A')
  }

  lemma TableTokensDiffer(p: Provider, q: Provider)
    requires !p.Outlook? && !q.Outlook? && TableToken(p) == TableToken(q)
    ensures p == q
  {
    assert Fingerprint(p) == Fingerprint(q);
  }

  lemma {:induction false} LookUpFinds(p: Provider, table: seq<Provider>)
    requires !p.Outlook? && p in table && Outlook !in table
    ensures LookUp(TableToken(p), table) == Some(p)
  {
    var q := table[0];
    if TableToken(q) == TableToken(p) {
      TableTokensDiffer(p, q);
    } else {
      LookUpFinds(p, table[1..]);
    }
  }

  lemma WrittenTokenIsTableToken(p: Provider)
    requires !p.Outlook?
    ensures ImportToken(p, AppPassword) == TableToken(p)
  {
    match p
    case Outlook =>
    case Gmail =>
    case Custom =>
    case Qq => assert "QQ" + "_IMAP_SMTP" == "QQ_IMAP_SMTP";
    case Netease163 => assert "NETEASE_163" + "_IMAP_SMTP" == "NETEASE_163_IMAP_SMTP";
    case Netease126 => assert "NETEASE_126" + "_IMAP_SMTP" == "NETEASE_126_IMAP_SMTP";
    case Icloud => assert "ICLOUD" + "_IMAP_SMTP" == "ICLOUD_IMAP_SMTP";
    case Yahoo => assert "YAHOO" + "_IMAP_SMTP" == "YAHOO_IMAP_SMTP";
    case Zoho => assert "ZOHO" + "_IMAP_SMTP" == "ZOHO_IMAP_SMTP";
    case Aliyun => assert "ALIYUN" + "_IMAP_SMTP" == "ALIYUN_IMAP_SMTP";
    case AmazonWorkmail => assert "AMAZON_WORKMAIL" + "_IMAP_SMTP" == "AMAZON_WORKMAIL_IMAP_SMTP";
    case Fastmail => assert "FASTMAIL" + "_IMAP_SMTP" == "FASTMAIL_IMAP_SMTP";
    case Aol => assert "AOL" + "_IMAP_SMTP" == "AOL_IMAP_SMTP";
    case Gmx => assert "GMX" + "_IMAP_SMTP" == "GMX_IMAP_SMTP";
    case Mailcom => assert "MAILCOM" + "_IMAP_SMTP" == "MAILCOM_IMAP_SMTP";
    case Yandex => assert "YANDEX" + "_IMAP_SMTP" == "YANDEX_IMAP_SMTP";
  }

  lemma TableHasNoOAuthToken(p: Provider)
    requires !p.Outlook?
    ensures TableToken(p) != "OUTLOOK_OAUTH" && TableToken(p) != "GMAIL_OAUTH"
  {
    var mark := Fingerprint(p);
    assert "OUTLOOK_OAUTH"[0] == 'O' && |"GMAIL_OAUTH"| == 11;
  }

  lemma AppPasswordRoundTrip(p: Provider)
    requires !p.Outlook?
    ensures TokenProfile(ImportToken(p, AppPassword)) == Some((p, AppPassword))
  {
    var token := TableToken(p);
    WrittenTokenIsTableToken(p);
    TokenIsTokenText(p, AppPassword);
    TokenTextFixed(token);
    TableHasNoOAuthToken(p);
    assert p in TABLE;
    LookUpFinds(p, TABLE);
  }

  /** Every admitted profile is recognised from its own token. */
  lemma TokenRoundTrip(p: Provider, a: AuthType)
    requires ValidProfile(p, a)
    ensures TokenProfile(ImportToken(p, a)) == Some((p, a))
  {
    if a.AppPassword? {
      AppPasswordRoundTrip(p);
    } else {
      TokenIsTokenText(p, a);
      TokenTextFixed(ImportToken(p, a));
      assert |"OUTLOOK_OAUTH"| != |"GMAIL_OAUTH"|;
    }
  }
}
