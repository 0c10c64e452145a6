/** Which backend lists an account's messages, and which one is asked for them by id. */
module ProviderRouting {
  import opened Decimal
  import opened Text
  import opened Wrappers

  const GRAPH := "GRAPH_API"
  const GMAIL_API := "GMAIL_API"
  const IMAP := "IMAP"

  const IMAP_SCOPE := "https://outlook.office.com/IMAP.AccessAsUser.All"

  /** `scopes` are the fields of the stored scope text. */
  datatype Account = Account(provider: string, authType: string, readMode: string, fetchStrategy: string,
                             scopes: seq<string>)

  datatype Error = Validation(message: string) | Backend(message: string)

  predicate EqualFold(a: string, b: string) {
    ToLower(a) == ToLower(b)
  }

  method HasOAuthScope(scopes: seq<string>, expected: string) returns (has: bool)
    ensures has <==> HasScope(scopes, expected)
  {
    for i := 0 to |scopes|
      invariant forall j :: 0 <= j < i ==> !EqualFold(scopes[j], expected)
    {
      if EqualFold(scopes[i], expected) {
        return true;
      }
    }
    return false;
  }

  predicate HasScope(scopes: seq<string>, expected: string) {
    exists i :: 0 <= i < |scopes| && EqualFold(scopes[i], expected)
  }

  function MicrosoftMode(a: Account): string {
    var mode := ToUpper(TrimSpace(a.readMode));
    if mode == "GRAPH_API" then "GRAPH_ONLY"
    else if mode == "IMAP" then "IMAP_ONLY"
    else if mode == "" || mode == "AUTO" then
      if HasScope(a.scopes, IMAP_SCOPE) then ToUpper(TrimSpace(a.fetchStrategy)) else "GRAPH_ONLY"
    else mode
  }

  function MailAccountFetchModes(a: Account): (r: Result<seq<string>, Error>)
    ensures r.Ok? ==> 1 <= |r.value| <= 2 && forall m :: m in r.value ==> m == IMAP || m == GRAPH || m == GMAIL_API
  {
    if a.authType == "APP_PASSWORD" then Ok([IMAP])
    else if a.authType == "GOOGLE_OAUTH" then
      if a.provider != "GMAIL" then Err(Validation("GOOGLE_OAUTH requires GMAIL provider"))
      else
        var mode := ToUpper(TrimSpace(a.readMode));
        Ok(if mode == "IMAP" then [IMAP] else if mode == "AUTO" then [GMAIL_API, IMAP] else [GMAIL_API])
    else if a.authType == "MICROSOFT_OAUTH" then
      if a.provider != "OUTLOOK" then Err(Validation("MICROSOFT_OAUTH requires OUTLOOK provider"))
      else
        var mode := MicrosoftMode(a);
        Ok(if mode == "GRAPH_ONLY" then [GRAPH] else if mode == "IMAP_ONLY" then [IMAP]
           else if mode == "IMAP_FIRST" then [IMAP, GRAPH] else [GRAPH, IMAP])
    else Err(Validation("unsupported mail authentication type"))
  }

  predicate LooksLikeIMAP(messageId: string) {
    var value := ToLower(TrimSpace(messageId));
    "uid:" <= value || "imap:" <= value
  }

  predicate AllIMAPMessageIDs(messageIds: seq<string>) {
    messageIds != [] && forall i :: 0 <= i < |messageIds| ==> LooksLikeIMAP(messageIds[i])
  }

  function MailAccountDeleteMode(a: Account, messageIds: seq<string>): Result<string, Error> {
    if a.authType == "APP_PASSWORD" then Ok(IMAP)
    else if AllIMAPMessageIDs(messageIds) then Ok(IMAP)
    else if a.authType == "GOOGLE_OAUTH" && a.provider == "GMAIL" then
      Ok(if EqualFold(a.readMode, "IMAP") then IMAP else GMAIL_API)
    else if a.authType == "MICROSOFT_OAUTH" && a.provider == "OUTLOOK" then
      match MailAccountFetchModes(a)
      case Err(e) => Err(e)
      case Ok(modes) => Ok(if |modes| == 1 && modes[0] == IMAP then IMAP else GRAPH)
    else Err(Validation("mail provider and authentication type are incompatible"))
  }

  // ---------- Listing ----------

  /** The first mode that succeeds answers; when none does, the last one's failure is reported. */
  method FetchAccountMailbox(a: Account, fetch: string -> Result<seq<string>, Error>)
    returns (r: Result<seq<string>, Error>, mode: string)
    ensures MailAccountFetchModes(a).Err? ==> r == Err(MailAccountFetchModes(a).error)
    ensures MailAccountFetchModes(a).Ok? ==>
              var modes := MailAccountFetchModes(a).value;
              && r == fetch(mode)
              && (r.Ok? ==> exists i :: 0 <= i < |modes| && modes[i] == mode
                                        && forall j :: 0 <= j < i ==> fetch(modes[j]).Err?)
              && (r.Err? ==> mode == modes[|modes| - 1] && forall m :: m in modes ==> fetch(m).Err?)
  {
    var modes := MailAccountFetchModes(a);
    mode := "";
    if modes.Err? {
      return Err(modes.error), mode;
    }
    mode := modes.value[0];
    r := fetch(mode);
    var i := 1;
    while r.Err? && i < |modes.value|
      invariant 1 <= i <= |modes.value|
      invariant mode == modes.value[i - 1] && r == fetch(mode)
      invariant forall j :: 0 <= j < i - 1 ==> fetch(modes.value[j]).Err?
    {
      mode := modes.value[i];
      r := fetch(mode);
      i := i + 1;
    }
  }

  const MAX_UID := 0xFFFF_FFFF

  function ProviderUID(uid: nat): string {
    "uid:" + Digits(uid)
  }

  method ReverseInPlace(messages: array<string>)
    modifies messages
    ensures forall k :: 0 <= k < messages.Length ==> messages[k] == old(messages[messages.Length - 1 - k])
  {
    var left, right := 0, messages.Length - 1;
    while left < right
      invariant 0 <= left && right == messages.Length - 1 - left && left <= right + 2
      invariant forall k :: 0 <= k < messages.Length && (k < left || right < k) ==>
                  messages[k] == old(messages[messages.Length - 1 - k])
      invariant forall k :: left <= k <= right ==> messages[k] == old(messages[k])
    {
      messages[left], messages[right] := messages[right], messages[left];
      left, right := left + 1, right - 1;
    }
  }

  function Limit(limit: int): (n: nat)
    ensures 1 <= n <= 100
  {
    if limit <= 0 || limit > 100 then 100 else limit
  }

  /** The last messages of an IMAP folder, whose UIDs are given in the order of their sequence numbers. */
  function Newest(uids: seq<nat>, limit: int): seq<nat> {
    if |uids| <= Limit(limit) then uids else uids[|uids| - Limit(limit)..]
  }

  predicate IsGreatest(uids: seq<nat>, greatest: nat) {
    (forall uid :: uid in uids ==> uid <= greatest) && (if uids == [] then greatest == 0 else greatest in uids)
  }

  /** Lists the newest first, and reports the greatest UID listed. */
  method FetchNewest(uids: seq<nat>, limit: int) returns (ids: seq<string>, lastUid: nat)
    ensures var newest := Newest(uids, limit);
            && |ids| == |newest|
            && (forall k :: 0 <= k < |ids| ==> ids[k] == ProviderUID(newest[|newest| - 1 - k]))
            && IsGreatest(newest, lastUid)
  {
    if |uids| == 0 {
      return [], 0;
    }
    var count := if limit <= 0 || limit > 100 then 100 else limit;
    var start := 1;
    if |uids| > count {
      start := |uids| - count + 1;
    }
    assert uids[start - 1..] == Newest(uids, limit);
    ids, lastUid := NewestFirst(uids[start - 1..]);
  }

  method NewestFirst(newest: seq<nat>) returns (ids: seq<string>, lastUid: nat)
    ensures |ids| == |newest|
    ensures forall k :: 0 <= k < |ids| ==> ids[k] == ProviderUID(newest[|newest| - 1 - k])
    ensures IsGreatest(newest, lastUid)
  {
    var result;
    result, lastUid := Collect(newest);
    ReverseInPlace(result);
    ids := result[..];
  }

  /** The ids in the order of the server's answers. */
  method Collect(uids: seq<nat>) returns (result: array<string>, lastUid: nat)
    ensures fresh(result) && result.Length == |uids|
    ensures forall k :: 0 <= k < |uids| ==> result[k] == ProviderUID(uids[k])
    ensures IsGreatest(uids, lastUid)
  {
    result, lastUid := new string[|uids|], 0;
    for at := 0 to |uids|
      invariant forall k :: 0 <= k < at ==> result[k] == ProviderUID(uids[k])
      invariant IsGreatest(uids[..at], lastUid)
    {
      assert uids[..at + 1] == uids[..at] + [uids[at]];
      if uids[at] > lastUid {
        lastUid := uids[at];
      }
      result[at] := ProviderUID(uids[at]);
    }
    assert uids[..|uids|] == uids;
  }

  // ---------- Back to the backend ----------

  function TrimPrefix(s: string, prefix: string): string {
    if prefix <= s then s[|prefix|..] else s
  }

  /** strconv.ParseUint(s, 10, 32) */
  function ParseUint32(s: string): Option<nat> {
    if s != "" && AllDigits(s) && Value(s) <= MAX_UID then Some(Value(s)) else None
  }

  function ParseProviderUID(value: string): Option<nat> {
    var digits := TrimPrefix(TrimPrefix(TrimSpace(value), "uid:"), "imap:");
    var parsed := ParseUint32(digits);
    if parsed == Some(0) then None else parsed
  }

  lemma ProviderUIDIsTrimmed(uid: nat)
    ensures TrimSpace(ProviderUID(uid)) == ProviderUID(uid) && LooksLikeIMAP(ProviderUID(uid))
  {
    var id := ProviderUID(uid);
    assert id[0] == 'u' && IsDigit(id[|id| - 1]);
    TrimSpaceFixes(id);
    assert ToLower(id)[..4] == "uid:";
  }

  /** Parsing inverts the id format on every UID an IMAP server may use, and on no other number. */
  lemma ParseProviderUIDInverts(uid: nat)
    ensures ParseProviderUID(ProviderUID(uid)) == if 1 <= uid <= MAX_UID then Some(uid) else None
  {
    ProviderUIDIsTrimmed(uid);
    ValueDigits(uid);
    assert TrimPrefix(ProviderUID(uid), "uid:") == Digits(uid);
    assert Digits(uid)[0] != 'i';
  }

  /** Exactly the texts that name a UID: digits, after at most one "uid:" and at most one "imap:", in that order. */
  lemma ParsedUIDs(value: string, uid: nat)
    ensures ParseProviderUID(value) == Some(uid)
            <==> 1 <= uid <= MAX_UID && exists digits :: NamesUID(TrimSpace(value), digits, uid)
  {
    var s := TrimSpace(value);
    var digits := TrimPrefix(TrimPrefix(s, "uid:"), "imap:");
    if ParseProviderUID(value) == Some(uid) {
      assert NamesUID(s, digits, uid);
    }
    forall d | NamesUID(s, d, uid)
      ensures d == digits
    {
      OnlyDigitsNamed(s, d, uid);
    }
  }

  lemma OnlyDigitsNamed(s: string, d: string, uid: nat)
    requires NamesUID(s, d, uid)
    ensures TrimPrefix(TrimPrefix(s, "uid:"), "imap:") == d
  {
    assert IsDigit(d[0]);
    if s == d {
      assert !("uid:" <= s) && !("imap:" <= s);
    } else if s == "uid:" + d {
      assert s[4..] == d && !("imap:" <= d);
    } else if s == "imap:" + d {
      assert s[0] == 'i' && s[5..] == d;
    } else {
      assert s[4..] == "imap:" + d && ("imap:" + d)[5..] == d;
    }
  }

  predicate NamesUID(s: string, digits: string, uid: nat) {
    && digits != "" && AllDigits(digits) && Value(digits) == uid
    && (s == digits || s == "uid:" + digits || s == "imap:" + digits || s == "uid:imap:" + digits)
  }

  lemma ImapFolds(readMode: string)
    requires EqualFold(readMode, "IMAP")
    ensures ToUpper(TrimSpace(readMode)) == "IMAP"
  {
    assert ToLower("IMAP") == "imap";
    assert |readMode| == 4;
    assert forall i :: 0 <= i < 4 ==> LowerChar(readMode[i]) == "imap"[i];
    assert !IsSpace(readMode[0]) && !IsSpace(readMode[3]);
    TrimSpaceFixes(readMode);
    assert ToUpper(readMode) == "IMAP";
  }

  /**
   Whatever mode listed a non-empty selection of messages is the mode they are deleted and read through:
   always when it was IMAP, and for an API exactly when not all of the ids look like IMAP ids.
   */
  lemma DeleteModeIsFetchMode(a: Account, mode: string, messageIds: seq<string>)
    requires MailAccountFetchModes(a).Ok? && mode in MailAccountFetchModes(a).value && messageIds != []
    requires mode == IMAP ==> AllIMAPMessageIDs(messageIds)
    ensures MailAccountDeleteMode(a, messageIds) == Ok(mode) <==> mode == IMAP || !AllIMAPMessageIDs(messageIds)
  {
    if EqualFold(a.readMode, "IMAP") {
      ImapFolds(a.readMode);
    }
  }

  /** So every non-empty selection of what IMAP listed goes back to IMAP, with the UIDs it was listed under. */
  lemma ListedByIMAP(a: Account, uids: seq<nat>)
    requires MailAccountFetchModes(a).Ok? && IMAP in MailAccountFetchModes(a).value && uids != []
    requires forall i :: 0 <= i < |uids| ==> 1 <= uids[i] <= MAX_UID
    ensures var ids := seq(|uids|, i requires 0 <= i < |uids| => ProviderUID(uids[i]));
            && MailAccountDeleteMode(a, ids) == Ok(IMAP)
            && forall i :: 0 <= i < |ids| ==> ParseProviderUID(ids[i]) == Some(uids[i])
  {
    var ids := seq(|uids|, i requires 0 <= i < |uids| => ProviderUID(uids[i]));
    forall i | 0 <= i < |ids|
      ensures LooksLikeIMAP(ids[i]) && ParseProviderUID(ids[i]) == Some(uids[i])
    {
      ProviderUIDIsTrimmed(uids[i]);
      ParseProviderUIDInverts(uids[i]);
    }
    DeleteModeIsFetchMode(a, IMAP, ids);
  }

  // ---------- The order of the modes ----------

  /** The scope is among the account's, in some spelling. */
  predicate MayUseIMAP(a: Account) {
    exists s :: s in a.scopes && ToLower(s) == ToLower("https://outlook.office.com/IMAP.AccessAsUser.All")
  }

  lemma ScopeIs(a: Account)
    ensures HasScope(a.scopes, IMAP_SCOPE) <==> MayUseIMAP(a)
  {
  }

  /** An account's modes in order of preference, by its own settings. */
  lemma FetchModesAre(a: Account)
    ensures var r, mode := MailAccountFetchModes(a), ToUpper(TrimSpace(a.readMode));
            && (a.authType == "APP_PASSWORD" ==> r == Ok(["IMAP"]))
            && (a.authType == "GOOGLE_OAUTH" && a.provider == "GMAIL" ==>
                  && (mode == "IMAP" ==> r == Ok(["IMAP"]))
                  && (mode == "AUTO" ==> r == Ok(["GMAIL_API", "IMAP"]))
                  && (mode != "IMAP" && mode != "AUTO" ==> r == Ok(["GMAIL_API"])))
            && (a.authType == "MICROSOFT_OAUTH" && a.provider == "OUTLOOK" ==>
                  var free := mode == "" || mode == "AUTO";
                  var strategy := if free then ToUpper(TrimSpace(a.fetchStrategy)) else mode;
                  var graphOnly := mode == "GRAPH_API" || (free && !MayUseIMAP(a)) || strategy == "GRAPH_ONLY";
                  && (graphOnly ==> r == Ok(["GRAPH_API"]))
                  && (!graphOnly && (mode == "IMAP" || strategy == "IMAP_ONLY") ==> r == Ok(["IMAP"]))
                  && (!graphOnly && mode != "IMAP" && strategy == "IMAP_FIRST" ==> r == Ok(["IMAP", "GRAPH_API"]))
                  && (!graphOnly && mode != "IMAP" && strategy != "IMAP_ONLY" && strategy != "IMAP_FIRST" ==>
                        r == Ok(["GRAPH_API", "IMAP"])))
            && (r.Err? <==> !(a.authType == "APP_PASSWORD" || (a.authType == "GOOGLE_OAUTH" && a.provider == "GMAIL")
                              || (a.authType == "MICROSOFT_OAUTH" && a.provider == "OUTLOOK")))
  {
    ScopeIs(a);
  }

  /** All ids begin with one of the prefixes IMAP gives them. */
  predicate FromIMAP(ids: seq<string>) {
    ids != [] && forall id :: id in ids ==> "uid:" <= ToLower(TrimSpace(id)) || "imap:" <= ToLower(TrimSpace(id))
  }

  /**
   Messages are deleted through IMAP exactly when their ids are all from IMAP or the account has no other mode, and
   through the account's API otherwise. A Gmail account has no other mode for deletion only if its read mode is spelled
   without blanks around it.
   */
  lemma DeleteModesAre(a: Account, ids: seq<string>)
    ensures var r, modes := MailAccountDeleteMode(a, ids), MailAccountFetchModes(a);
            && (r == Ok("IMAP") <==>
                  || FromIMAP(ids)
                  || (modes == Ok(["IMAP"]) && (a.authType == "GOOGLE_OAUTH" ==> Trimmed(a.readMode))))
            && (r == Ok("GMAIL_API") ==> a.authType == "GOOGLE_OAUTH" && a.provider == "GMAIL")
            && (r == Ok("GRAPH_API") ==> a.authType == "MICROSOFT_OAUTH" && a.provider == "OUTLOOK")
            && (r.Err? <==> modes.Err? && !FromIMAP(ids))
  {
    assert AllIMAPMessageIDs(ids) <==> FromIMAP(ids);
    TrimSpaceFixes(a.readMode);
    if EqualFold(a.readMode, "IMAP") {
      ImapFolds(a.readMode);
    }
    if Trimmed(a.readMode) && ToUpper(a.readMode) == "IMAP" {
      UpperImapFolds(a.readMode);
    }
  }

  lemma UpperImapFolds(s: string)
    requires ToUpper(s) == "IMAP"
    ensures EqualFold(s, "IMAP")
  {
    assert |s| == 4 && forall i :: 0 <= i < 4 ==> UpperChar(s[i]) == "IMAP"[i];
    assert forall i :: 0 <= i < 4 ==> LowerChar(s[i]) == LowerChar("IMAP"[i]);
  }

  /** At most a hundred messages are listed, or as many as asked for, and they are the last ones. */
  lemma NewestAre(uids: seq<nat>, limit: int)
    ensures var most, n := if 1 <= limit <= 100 then limit else 100, |Newest(uids, limit)|;
            && n == (if |uids| < most then |uids| else most)
            && Newest(uids, limit) == uids[|uids| - n..]
  {
  }

  /** Only a Microsoft account that may use IMAP is ever asked through it. */
  lemma MicrosoftImapNeedsScope(a: Account)
    requires a.authType == "MICROSOFT_OAUTH" && MailAccountFetchModes(a).Ok? && IMAP in MailAccountFetchModes(a).value
    ensures MayUseIMAP(a)
            || (ToUpper(TrimSpace(a.readMode)) != "" && ToUpper(TrimSpace(a.readMode)) != "AUTO")
  {
    ScopeIs(a);
  }
}
