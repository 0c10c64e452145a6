/** Listing a Gmail label page by page, and the readable bodies of a message. */
module Gmail {
  import opened Text
  import opened Wrappers

  // ---------- Tokens ----------

  /** A page token, one byte in each character: a reply is cut after 2 MiB, and decoding at most triples its bytes. */
  const MAX_TOKEN: nat := 3 * 2 * 1024 * 1024

  predicate IsToken(s: string) {
    |s| <= MAX_TOKEN && forall i :: 0 <= i < |s| ==> s[i] < '\U{0100}'
  }

  const BYTES: set<char> := set c: char | c < '\U{0100}'

  /** All byte strings of at most n bytes. */
  ghost function Texts(n: nat): set<string> {
    if n == 0 then {""} else {""} + set s, c | s in Texts(n - 1) && c in BYTES :: s + [c]
  }

  lemma {:induction false} EveryTextIsThere(s: string, n: nat)
    requires |s| <= n && forall i :: 0 <= i < |s| ==> s[i] < '\U{0100}'
    ensures s in Texts(n)
    decreases n
  {
    if s != "" {
      var init, last := s[..|s| - 1], s[|s| - 1];
      EveryTextIsThere(init, n - 1);
      assert last in BYTES && s == init + [last];
    }
  }

  // ---------- Pages ----------

  /** A request that fails, a body that does not decode, or a page. */
  datatype Response = Failed | Undecodable | Page(ids: seq<string>, nextPageToken: string)

  /** What the server answers in each round to the token it is sent; it may answer by any rule and remember anything. */
  type Gmail = (nat, string) -> Response

  ghost predicate SendsTokens(server: Gmail) {
    forall round, token :: server(round, token).Page? ==> IsToken(server(round, token).nextPageToken)
  }

  function Answer(server: Gmail, sent: seq<string>, k: nat): Response
    requires k < |sent|
  {
    server(k, sent[k])
  }

  predicate Usable(r: Response) {
    r.Page? && forall i :: 0 <= i < |r.ids| ==> TrimSpace(r.ids[i]) != ""
  }

  /** The page of round k is usable and names the token sent in the next round. */
  predicate LeadsOn(server: Gmail, sent: seq<string>, k: nat)
    requires k + 1 < |sent|
  {
    Usable(Answer(server, sent, k)) && Answer(server, sent, k).nextPageToken == sent[k + 1] != ""
  }

  predicate Distinct(tokens: seq<string>) {
    forall j, k :: 0 <= j < k < |tokens| ==> tokens[j] != tokens[k]
  }

  /** The tokens sent so far, the first of them empty: each page led to the next, none twice. */
  predicate GoesOn(server: Gmail, sent: seq<string>) {
    && sent != [] && sent[0] == ""
    && (forall k :: 0 <= k < |sent| - 1 ==> LeadsOn(server, sent, k))
    && Distinct(sent)
  }

  /** The ids of the pages that the tokens fetched, in order. */
  function Ids(server: Gmail, sent: seq<string>): seq<string> {
    if sent == [] then []
    else
      var last := Answer(server, sent, |sent| - 1);
      Ids(server, sent[..|sent| - 1]) + if last.Page? then last.ids else []
  }

  datatype Error = FetchFailed | ResponseInvalid

  /**
   The listing ends with the answer to the last token sent: the last page, an unusable page or a token sent
   before.
   */
  predicate EndsAfter(server: Gmail, sent: seq<string>, r: Result<seq<string>, Error>) {
    && GoesOn(server, sent)
    && var last := Answer(server, sent, |sent| - 1);
       if last.Failed? then r == Err(FetchFailed)
       else if !Usable(last) then r == Err(ResponseInvalid)
       else if last.nextPageToken == "" then r == Ok(Ids(server, sent))
       else r == Err(ResponseInvalid) && last.nextPageToken in sent
  }

  lemma GoesOnFurther(server: Gmail, sent: seq<string>, next: string)
    requires GoesOn(server, sent) && Usable(Answer(server, sent, |sent| - 1))
    requires next == Answer(server, sent, |sent| - 1).nextPageToken != "" && next !in sent
    ensures GoesOn(server, sent + [next])
  {
    var more := sent + [next];
    forall k | 0 <= k < |more| - 1
      ensures LeadsOn(server, more, k)
    {
      if k < |sent| - 1 {
        assert LeadsOn(server, sent, k);
      }
    }
  }

  /** The ids so far with those of one page; None when one of them is blank. */
  method Collect(ids: seq<string>, page: seq<string>) returns (all: Option<seq<string>>)
    ensures all == if forall i :: 0 <= i < |page| ==> TrimSpace(page[i]) != "" then Some(ids + page) else None
  {
    var collected := ids;
    for i := 0 to |page|
      invariant collected == ids + page[..i]
      invariant forall j :: 0 <= j < i ==> TrimSpace(page[j]) != ""
    {
      if TrimSpace(page[i]) == "" {
        return None;
      }
      collected := collected + [page[i]];
    }
    assert page[..|page|] == page;
    return Some(collected);
  }

  /**
   Terminates against every server, and answers with the ids of all pages in order exactly when each page
   is usable, each token is new, and one page has no next token. `sent` are the tokens it sent.
   */
  method ListMessageIDs(server: Gmail) returns (r: Result<seq<string>, Error>, sent: seq<string>)
    requires SendsTokens(server)
    ensures EndsAfter(server, sent, r)
  {
    var pageToken := "";
    var ids: seq<string> := [];
    var seen: set<string> := {};
    ghost var possible := Texts(MAX_TOKEN);
    sent := [pageToken];
    while true
      invariant GoesOn(server, sent) && pageToken == sent[|sent| - 1]
      invariant ids == Ids(server, sent[..|sent| - 1])
      invariant forall s :: s in sent <==> s == "" || s in seen
      invariant possible == Texts(MAX_TOKEN)
      decreases possible - seen
    {
      var response := server(|sent| - 1, pageToken);
      if response.Failed? {
        return Err(FetchFailed), sent;
      }
      if response.Undecodable? {
        return Err(ResponseInvalid), sent;
      }
      var collected := Collect(ids, response.ids);
      if collected.None? {
        return Err(ResponseInvalid), sent;
      }
      ids := collected.value;
      if response.nextPageToken == "" {
        return Ok(ids), sent;
      }
      if response.nextPageToken in seen {
        return Err(ResponseInvalid), sent;
      }
      GoesOnFurther(server, sent, response.nextPageToken);
      EveryTextIsThere(response.nextPageToken, MAX_TOKEN);
      seen := seen + {response.nextPageToken};
      pageToken := response.nextPageToken;
      ghost var before := sent;
      sent := sent + [pageToken];
      assert sent[..|sent| - 1] == before;
    }
  }

  /** Two listings of one server send the same tokens as long as both go on. */
  lemma {:induction false} SameTokens(server: Gmail, a: seq<string>, b: seq<string>, k: nat)
    requires GoesOn(server, a) && GoesOn(server, b) && k < |a| && k < |b|
    ensures a[k] == b[k]
  {
    if k > 0 {
      SameTokens(server, a, b, k - 1);
      assert LeadsOn(server, a, k - 1) && LeadsOn(server, b, k - 1);
    }
  }

  /** A listing that has ended sends no further token. */
  lemma EndIsFinal(server: Gmail, a: seq<string>, r: Result<seq<string>, Error>, b: seq<string>)
    requires EndsAfter(server, a, r) && a < b
    ensures !GoesOn(server, b)
  {
    var n := |a| - 1;
    assert a == b[..n + 1] && b[n] == a[n];
    var last := Answer(server, b, n);
    if Usable(last) && last.nextPageToken == b[n + 1] != "" {
      var j :| 0 <= j < |a| && a[j] == b[n + 1];
      assert b[j] == b[n + 1];
    } else {
      assert !LeadsOn(server, b, n);
    }
  }

  lemma NoLonger(server: Gmail, a: seq<string>, r: Result<seq<string>, Error>, b: seq<string>)
    requires EndsAfter(server, a, r) && GoesOn(server, b)
    ensures |b| <= |a|
  {
    forall k | 0 <= k < |a| && k < |b|
      ensures a[k] == b[k]
    {
      SameTokens(server, a, b, k);
    }
    if a < b {
      EndIsFinal(server, a, r, b);
    }
  }

  /** A listing has one outcome. */
  lemma OutcomeIsUnique(server: Gmail, a: seq<string>, r: Result<seq<string>, Error>, b: seq<string>,
                        r': Result<seq<string>, Error>)
    requires EndsAfter(server, a, r) && EndsAfter(server, b, r')
    ensures a == b && r == r'
  {
    NoLonger(server, a, r, b);
    NoLonger(server, b, r', a);
    forall k | 0 <= k < |a|
      ensures a[k] == b[k]
    {
      SameTokens(server, a, b, k);
    }
    assert a == b;
  }

  lemma {:induction false} IdsGrow(server: Gmail, sent: seq<string>, k: nat)
    requires k < |sent|
    ensures Ids(server, sent[..k]) <= Ids(server, sent[..k + 1]) <= Ids(server, sent)
  {
    assert sent[..k + 1][..k] == sent[..k];
    if k + 1 < |sent| {
      var init := sent[..|sent| - 1];
      IdsGrow(server, init, k);
      assert init[..k + 1] == sent[..k + 1] && init[..k] == sent[..k];
    } else {
      assert sent[..k + 1] == sent;
    }
  }

  /**
   A listing that succeeds holds the ids of every page it fetched, page after page, none of them blank; each page but
   the last named the next.
   */
  lemma ListingHolds(server: Gmail, sent: seq<string>, r: Result<seq<string>, Error>, k: nat)
    requires EndsAfter(server, sent, r) && r.Ok? && k < |sent|
    ensures server(k, sent[k]).Page?
    ensures var page, before := server(k, sent[k]), |Ids(server, sent[..k])|;
            && (forall id :: id in page.ids ==> TrimSpace(id) != "")
            && page.nextPageToken == (if k < |sent| - 1 then sent[k + 1] else "")
            && before + |page.ids| <= |r.value| && r.value[before..before + |page.ids|] == page.ids
            && (k == 0 ==> sent[k] == "" && before == 0)
            && (k == |sent| - 1 ==> |r.value| == before + |page.ids|)
  {
    IdsGrow(server, sent, k);
    assert sent[..k + 1][..k] == sent[..k] && sent[..|sent|] == sent;
    if k < |sent| - 1 {
      assert LeadsOn(server, sent, k);
    }
    assert Ids(server, sent[..k + 1]) == Ids(server, sent[..k]) + server(k, sent[k]).ids;
  }

  /** Otherwise the last request failed, its answer does not decode or holds a blank id, or it names a token again. */
  lemma ListingFails(server: Gmail, sent: seq<string>, r: Result<seq<string>, Error>)
    requires EndsAfter(server, sent, r)
    ensures sent != []
    ensures var last := server(|sent| - 1, sent[|sent| - 1]);
            && (r == Err(FetchFailed) <==> last.Failed?)
            && (r == Err(ResponseInvalid) <==>
                  || last.Undecodable?
                  || (last.Page? && (|| (exists id :: id in last.ids && TrimSpace(id) == "")
                                     || (last.nextPageToken != "" && last.nextPageToken in sent))))
  {
  }

  // ---------- Bodies ----------

  datatype Part = Part(mimeType: string, data: string, parts: seq<Part>)

  /** The part, then its children's parts, depth first. */
  function PreOrder(part: Part): seq<Part>
    decreases part, |part.parts| + 1
  {
    [part] + PreOrderOfFirst(part, |part.parts|)
  }

  /** The parts of the first n children. */
  function PreOrderOfFirst(part: Part, n: nat): seq<Part>
    requires n <= |part.parts|
    decreases part, n
  {
    if n == 0 then [] else PreOrderOfFirst(part, n - 1) + PreOrder(part.parts[n - 1])
  }

  /** The first body of the type that decodes to anything, empty when there is none. */
  function FirstBody(parts: seq<Part>, mimeType: string, decode: string -> string): string {
    if parts == [] then ""
    else
      var earlier, last := FirstBody(parts[..|parts| - 1], mimeType, decode), parts[|parts| - 1];
      if earlier == "" && ToLower(last.mimeType) == mimeType then decode(last.data) else earlier
  }

  function Chosen(before: string, parts: seq<Part>, mimeType: string, decode: string -> string): string {
    if before != "" then before else FirstBody(parts, mimeType, decode)
  }

  /** It is the first one indeed: every earlier part of the type decodes to nothing. */
  lemma {:induction false} FirstBodyIs(parts: seq<Part>, mimeType: string, decode: string -> string)
    ensures var body := FirstBody(parts, mimeType, decode);
            if body == "" then
              forall i :: 0 <= i < |parts| && ToLower(parts[i].mimeType) == mimeType ==> decode(parts[i].data) == ""
            else exists i :: 0 <= i < |parts| && IsFirst(parts, mimeType, decode, i) && decode(parts[i].data) == body
  {
    if parts != [] {
      var init := parts[..|parts| - 1];
      FirstBodyIs(init, mimeType, decode);
      var body := FirstBody(init, mimeType, decode);
      if i :| 0 <= i < |init| && IsFirst(init, mimeType, decode, i) && decode(init[i].data) == body {
        FirstOfMore(init, parts[|parts| - 1], mimeType, decode, i);
        assert parts == init + [parts[|parts| - 1]];
      } else if FirstBody(parts, mimeType, decode) != "" {
        assert IsFirst(parts, mimeType, decode, |parts| - 1);
      }
    }
  }

  lemma FirstOfMore(parts: seq<Part>, part: Part, mimeType: string, decode: string -> string, i: nat)
    requires i < |parts| && IsFirst(parts, mimeType, decode, i)
    ensures (parts + [part])[i] == parts[i] && IsFirst(parts + [part], mimeType, decode, i)
  {
  }

  predicate IsFirst(parts: seq<Part>, mimeType: string, decode: string -> string, i: nat)
    requires i < |parts|
  {
    && ToLower(parts[i].mimeType) == mimeType && decode(parts[i].data) != ""
    && forall j :: 0 <= j < i && ToLower(parts[j].mimeType) == mimeType ==> decode(parts[j].data) == ""
  }

  lemma {:induction false} FirstBodyConcat(a: seq<Part>, b: seq<Part>, mimeType: string, decode: string -> string)
    ensures FirstBody(a + b, mimeType, decode) == Chosen(FirstBody(a, mimeType, decode), b, mimeType, decode)
  {
    if b == [] {
      assert a + b == a;
    } else {
      FirstBodyConcat(a, b[..|b| - 1], mimeType, decode);
      assert (a + b)[..|a + b| - 1] == a + b[..|b| - 1];
    }
  }

  /** The two bodies a walk has found so far. */
  class BodyWalk {
    var text: string
    var html: string
    const decode: string -> string

    constructor (decode: string -> string)
      ensures text == "" && html == "" && this.decode == decode
    {
      text, html := "", "";
      this.decode := decode;
    }

    /** The part's own body. */
    method Inspect(part: Part)
      modifies this
      ensures text == Chosen(old(text), [part], "text/plain", decode)
      ensures html == Chosen(old(html), [part], "text/html", decode)
    {
      var mime := ToLower(part.mimeType);
      if mime == "text/plain" {
        if text == "" {
          text := decode(part.data);
        }
      } else if mime == "text/html" {
        if html == "" {
          html := decode(part.data);
        }
      }
      OneBody(part, "text/plain", decode);
      OneBody(part, "text/html", decode);
    }

    method Visit(part: Part)
      modifies this
      ensures text == Chosen(old(text), PreOrder(part), "text/plain", decode)
      ensures html == Chosen(old(html), PreOrder(part), "text/html", decode)
      decreases part
    {
      Inspect(part);
      assert [part] + PreOrderOfFirst(part, 0) == [part];
      for i := 0 to |part.parts|
        invariant text == Chosen(old(text), [part] + PreOrderOfFirst(part, i), "text/plain", decode)
        invariant html == Chosen(old(html), [part] + PreOrderOfFirst(part, i), "text/html", decode)
      {
        ghost var before := [part] + PreOrderOfFirst(part, i);
        Visit(part.parts[i]);
        ChosenConcat(old(text), before, PreOrder(part.parts[i]), "text/plain", decode);
        ChosenConcat(old(html), before, PreOrder(part.parts[i]), "text/html", decode);
        assert before + PreOrder(part.parts[i]) == [part] + PreOrderOfFirst(part, i + 1);
      }
    }
  }

  lemma OneBody(part: Part, mimeType: string, decode: string -> string)
    ensures FirstBody([part], mimeType, decode) == if ToLower(part.mimeType) == mimeType then decode(part.data) else ""
  {
    assert [part][..0] == [];
    assert FirstBody([], mimeType, decode) == "";
  }

  lemma ChosenConcat(before: string, a: seq<Part>, b: seq<Part>, mimeType: string, decode: string -> string)
    ensures Chosen(Chosen(before, a, mimeType, decode), b, mimeType, decode) == Chosen(before, a + b, mimeType, decode)
  {
    FirstBodyConcat(a, b, mimeType, decode);
  }

  method GmailPayloadBodies(part: Part, decode: string -> string) returns (text: string, html: string)
    ensures text == FirstBody(PreOrder(part), "text/plain", decode)
    ensures html == FirstBody(PreOrder(part), "text/html", decode)
  {
    var walk := new BodyWalk(decode);
    walk.Visit(part);
    text, html := walk.text, walk.html;
  }
}
