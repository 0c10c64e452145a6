/** What is remembered of each mailbox between two listings, and the flag that says something new has arrived. */
module SyncState {
  import opened Text
  import opened Wrappers

  datatype Json = Null | Bool(b: bool) | Number(n: int) | Str(s: string) | Object(fields: map<string, Json>)

  /** One mailbox; the values are whatever JSON was stored. */
  datatype MailboxState = MailboxState(
    latestMessageId: Json,
    latestMessageDate: Json,
    messageCount: Json,
    hasNew: Json,
    lastSyncedAt: Json,
    lastViewedAt: Json,
    uidValidity: Json,
    lastUid: Json)

  type Status = map<string, MailboxState>

  const INBOX := "INBOX"
  const SENT := "SENT"
  const JUNK := "Junk"

  function CanonicalMailboxName(value: string): (key: string)
    ensures key == INBOX || key == SENT || key == JUNK
  {
    var name := ToLower(TrimSpace(value));
    if name == "sent" then SENT else if name == "junk" || name == "spam" then JUNK else INBOX
  }

  function EmptyMailboxState(): MailboxState {
    MailboxState(Null, Null, Number(0), Bool(false), Null, Null, Null, Null)
  }

  function Field(fields: map<string, Json>, name: string, default: Json): Json {
    if name in fields then fields[name] else default
  }

  /** A stored mailbox read back: missing fields take their defaults, unknown ones are dropped. */
  function ReadMailbox(value: Json): MailboxState {
    var empty := EmptyMailboxState();
    match value
    case Object(f) =>
      MailboxState(Field(f, "latestMessageId", empty.latestMessageId),
                   Field(f, "latestMessageDate", empty.latestMessageDate),
                   Field(f, "messageCount", empty.messageCount), Field(f, "hasNew", empty.hasNew),
                   Field(f, "lastSyncedAt", empty.lastSyncedAt), Field(f, "lastViewedAt", empty.lastViewedAt),
                   Field(f, "uidValidity", empty.uidValidity), Field(f, "lastUid", empty.lastUid))
    case _ => empty
  }

  function NormalizeMailboxStatus(value: Json): (s: Status)
    ensures s.Keys == {INBOX, SENT, JUNK}
  {
    var fields := if value.Object? then value.fields else map[];
    map[INBOX := ReadMailbox(Field(fields, INBOX, Null)),
        SENT := ReadMailbox(Field(fields, SENT, Null)),
        JUNK := ReadMailbox(Field(fields, JUNK, Null))]
  }

  function WriteMailbox(m: MailboxState): Json {
    Object(map["latestMessageId" := m.latestMessageId, "latestMessageDate" := m.latestMessageDate,
               "messageCount" := m.messageCount, "hasNew" := m.hasNew,
               "lastSyncedAt" := m.lastSyncedAt, "lastViewedAt" := m.lastViewedAt,
               "uidValidity" := m.uidValidity, "lastUid" := m.lastUid])
  }

  function WriteStatus(s: Status): Json {
    Object(map key | key in s :: WriteMailbox(s[key]))
  }

  lemma MailboxReadsBack(m: MailboxState)
    ensures ReadMailbox(WriteMailbox(m)) == m
  {
    var names := ["latestMessageId", "latestMessageDate", "messageCount", "hasNew", "lastSyncedAt", "lastViewedAt",
                  "uidValidity", "lastUid"];
    assert |names[0]| == 15 && |names[1]| == 17 && |names[2]| == 12 && |names[3]| == 6;
    assert |names[4]| == 12 && |names[5]| == 12 && |names[6]| == 11 && |names[7]| == 7;
    assert names[2][0] == 'm' && names[4][4] == 'S' && names[5][4] == 'V';
  }

  /** What one call stores is what the next one reads. */
  lemma StatusReadsBack(s: Status)
    requires s.Keys == {INBOX, SENT, JUNK}
    ensures NormalizeMailboxStatus(WriteStatus(s)) == s
  {
    var read := NormalizeMailboxStatus(WriteStatus(s));
    forall key | key in s
      ensures read[key] == s[key]
    {
      MailboxReadsBack(s[key]);
      assert WriteStatus(s).fields[key] == WriteMailbox(s[key]);
    }
  }

  // ---------- Operations ----------

  datatype Message = Message(id: string, date: string)

  datatype Op =
    | Sync(mailbox: string, messages: seq<Message>, checkpoint: map<string, Json>, markAsSeen: bool, now: string)
    | Clear(mailbox: string, now: string)

  function AsString(value: Json): string {
    if value.Str? then value.s else ""
  }

  function Synced(previous: MailboxState, op: Op): MailboxState
    requires op.Sync?
  {
    var latestId := if op.messages == [] then Null else Str(op.messages[0].id);
    MailboxState(
      latestId,
      if op.messages == [] || op.messages[0].date == "" then Null else Str(op.messages[0].date),
      Number(|op.messages|),
      Bool(&& !op.markAsSeen && latestId != Null && previous.lastSyncedAt != Null
           && ((AsString(previous.latestMessageId) != ""
                && Str(AsString(previous.latestMessageId)) != latestId) || previous.hasNew == Bool(true))),
      Str(op.now),
      if op.markAsSeen then Str(op.now) else previous.lastViewedAt,
      Field(op.checkpoint, "uidValidity", previous.uidValidity),
      Field(op.checkpoint, "lastUid", previous.lastUid))
  }

  function Cleared(op: Op): MailboxState
    requires op.Clear?
  {
    EmptyMailboxState().(lastSyncedAt := Str(op.now), lastViewedAt := Str(op.now))
  }

  function Next(m: MailboxState, op: Op): MailboxState {
    if op.Sync? then Synced(m, op) else Cleared(op)
  }

  predicate Complete(s: Status) {
    s.Keys == {INBOX, SENT, JUNK}
  }

  /** The status with one operation applied to it. */
  function Applied(s: Status, op: Op): (r: Status)
    requires Complete(s)
    ensures Complete(r)
  {
    var key := CanonicalMailboxName(op.mailbox);
    s[key := Next(s[key], op)]
  }

  class AccountStates {
    var stored: map<int, Json>

    constructor ()
      ensures stored == map[]
    {
      stored := map[];
    }

    /**
     A SELECT and a later UPDATE of the whole status; `meanwhile` is the table as the UPDATE finds it.
     None when there was no such account.
     */
    method UpdateMailboxSyncState(id: int, op: Op, meanwhile: map<int, Json>) returns (status: Option<Status>)
      requires op.Sync?
      modifies this
      ensures id !in old(stored) ==> status == None && stored == old(stored)
      ensures id in old(stored) ==>
                && status == Some(Applied(NormalizeMailboxStatus(old(stored)[id]), op))
                && stored.Keys == meanwhile.Keys
                && (id in stored ==> NormalizeMailboxStatus(stored[id]) == status.value)
                && forall other :: other in stored && other != id ==> stored[other] == meanwhile[other]
    {
      if id !in stored {
        return None;
      }
      var state := NormalizeMailboxStatus(stored[id]);
      var key := CanonicalMailboxName(op.mailbox);
      var previous := state[key];
      var latestId, latestDate := Null, Null;
      if |op.messages| > 0 {
        latestId := Str(op.messages[0].id);
        if op.messages[0].date != "" {
          latestDate := Str(op.messages[0].date);
        }
      }
      var hasNew := false;
      if !op.markAsSeen && latestId != Null && previous.lastSyncedAt != Null {
        var previousId := AsString(previous.latestMessageId);
        if previousId != "" && Str(previousId) != latestId {
          hasNew := true;
        } else if previous.hasNew.Bool? {
          hasNew := previous.hasNew.b;
        }
      }
      var uidValidity, lastUid := previous.uidValidity, previous.lastUid;
      if "uidValidity" in op.checkpoint {
        uidValidity := op.checkpoint["uidValidity"];
      }
      if "lastUid" in op.checkpoint {
        lastUid := op.checkpoint["lastUid"];
      }
      var lastViewedAt := previous.lastViewedAt;
      if op.markAsSeen {
        lastViewedAt := Str(op.now);
      }
      var next := MailboxState(latestId, latestDate, Number(|op.messages|), Bool(hasNew), Str(op.now), lastViewedAt,
                               uidValidity, lastUid);
      assert next == Synced(previous, op);
      state := state[key := next];
      StatusReadsBack(state);
      Save(id, state, meanwhile);
      return Some(state);
    }

    /** The UPDATE; it changes no row when the account has gone. */
    method Save(id: int, status: Status, meanwhile: map<int, Json>)
      modifies this
      ensures stored == if id in meanwhile then meanwhile[id := WriteStatus(status)] else meanwhile
    {
      stored := meanwhile;
      if id in stored {
        stored := stored[id := WriteStatus(status)];
      }
    }

    method ClearMailboxSyncState(id: int, op: Op, meanwhile: map<int, Json>) returns (status: Option<Status>)
      requires op.Clear?
      modifies this
      ensures id !in old(stored) ==> status == None && stored == old(stored)
      ensures id in old(stored) ==>
                && status == Some(Applied(NormalizeMailboxStatus(old(stored)[id]), op))
                && stored.Keys == meanwhile.Keys
                && (id in stored ==> NormalizeMailboxStatus(stored[id]) == status.value)
                && forall other :: other in stored && other != id ==> stored[other] == meanwhile[other]
    {
      if id !in stored {
        return None;
      }
      var state := NormalizeMailboxStatus(stored[id]);
      state := state[CanonicalMailboxName(op.mailbox) := Cleared(op)];
      StatusReadsBack(state);
      Save(id, state, meanwhile);
      return Some(state);
    }
  }

  // ---------- Runs of whole operations ----------

  /** The status after a run of syncs and clears of any of the account's mailboxes. */
  function Play(start: Status, run: seq<Op>): (s: Status)
    requires Complete(start)
    ensures Complete(s)
  {
    if run == [] then start
    else
      Applied(Play(start, run[..|run| - 1]), run[|run| - 1])
  }

  /** The operations of a run on one mailbox. */
  function OpsOn(run: seq<Op>, key: string): seq<Op> {
    if run == [] then []
    else
      var init, op := run[..|run| - 1], run[|run| - 1];
      if CanonicalMailboxName(op.mailbox) == key then OpsOn(init, key) + [op] else OpsOn(init, key)
  }

  /** One mailbox after its operations. */
  function After(start: MailboxState, ops: seq<Op>): MailboxState {
    if ops == [] then start else Next(After(start, ops[..|ops| - 1]), ops[|ops| - 1])
  }

  /** Of operations one after the other, a mailbox depends on its own only. */
  lemma {:induction false} MailboxesAreIndependent(start: Status, run: seq<Op>, key: string)
    requires Complete(start) && key in start
    ensures Play(start, run)[key] == After(start[key], OpsOn(run, key))
  {
    if run != [] {
      var init, op := run[..|run| - 1], run[|run| - 1];
      MailboxesAreIndependent(start, init, key);
      if CanonicalMailboxName(op.mailbox) == key {
        var ops := OpsOn(run, key);
        assert ops[..|ops| - 1] == OpsOn(init, key);
      } else {
        assert OpsOn(run, key) == OpsOn(init, key);
      }
    }
  }

  /** The id of the newest message the operation saw, empty when it saw none. */
  function Newest(op: Op): string {
    if op.Sync? && op.messages != [] then op.messages[0].id else ""
  }

  /** The newest id known just before operation k. */
  function NewestBefore(start: MailboxState, ops: seq<Op>, k: nat): string
    requires k < |ops|
  {
    if k == 0 then AsString(start.latestMessageId) else Newest(ops[k - 1])
  }

  /** A clear, a sync that marks as seen, an empty listing, or the first sync of all. */
  predicate Resets(start: MailboxState, ops: seq<Op>, k: nat)
    requires k < |ops|
  {
    ops[k].Clear? || ops[k].markAsSeen || ops[k].messages == [] || (k == 0 && start.lastSyncedAt == Null)
  }

  /** A sync whose newest message is another than the one known before it. */
  predicate Arrives(start: MailboxState, ops: seq<Op>, k: nat)
    requires k < |ops|
  {
    !Resets(start, ops, k) && NewestBefore(start, ops, k) != "" && Newest(ops[k]) != NewestBefore(start, ops, k)
  }

  predicate NoResetFrom(start: MailboxState, ops: seq<Op>, k: nat) {
    forall i :: k <= i < |ops| ==> !Resets(start, ops, i)
  }

  /** Something arrived since the last reset, or was new already and nothing has been reset. */
  ghost predicate SomethingNew(start: MailboxState, ops: seq<Op>) {
    || (exists k :: 0 <= k < |ops| && Arrives(start, ops, k) && NoResetFrom(start, ops, k))
    || (start.hasNew == Bool(true) && NoResetFrom(start, ops, 0))
  }

  lemma {:induction false} AfterIs(start: MailboxState, ops: seq<Op>)
    ensures ops != [] ==>
              var m := After(start, ops);
              m.lastSyncedAt != Null && AsString(m.latestMessageId) == Newest(ops[|ops| - 1])
  {
    if ops != [] {
      AfterIs(start, ops[..|ops| - 1]);
    }
  }

  /** Shorter runs agree on what their operations do. */
  lemma PrefixAgrees(start: MailboxState, ops: seq<Op>, k: nat)
    requires ops != [] && k < |ops| - 1
    ensures Resets(start, ops, k) == Resets(start, ops[..|ops| - 1], k)
    ensures Arrives(start, ops, k) == Arrives(start, ops[..|ops| - 1], k)
  {
  }

  lemma NewCarriesOver(start: MailboxState, ops: seq<Op>)
    requires ops != [] && !Resets(start, ops, |ops| - 1) && !Arrives(start, ops, |ops| - 1)
    ensures SomethingNew(start, ops) <==> SomethingNew(start, ops[..|ops| - 1])
  {
    var init := ops[..|ops| - 1];
    forall k: nat | k <= |init|
      ensures NoResetFrom(start, ops, k) <==> NoResetFrom(start, init, k)
      ensures k < |init| ==> Arrives(start, ops, k) == Arrives(start, init, k)
    {
      forall i | k <= i < |init|
        ensures Resets(start, ops, i) == Resets(start, init, i)
      {
        PrefixAgrees(start, ops, i);
      }
      if k < |init| {
        PrefixAgrees(start, ops, k);
      }
    }
  }

  /**
   After any run of syncs and clears of a mailbox the flag is set exactly when, since the last reset,
   some sync's newest id was another than the non-empty one known before it.
   */
  lemma {:induction false} HasNewIs(start: MailboxState, ops: seq<Op>)
    ensures After(start, ops).hasNew == Bool(true) <==> SomethingNew(start, ops)
  {
    if ops != [] {
      var n := |ops| - 1;
      var init := ops[..n];
      HasNewIs(start, init);
      AfterIs(start, init);
      var previous := After(start, init);
      assert n > 0 ==> init[|init| - 1] == ops[n - 1];
      assert previous.lastSyncedAt == Null ==> n == 0;
      assert AsString(previous.latestMessageId) == NewestBefore(start, ops, n);
      if Resets(start, ops, n) {
        assert forall k: nat :: k <= n ==> !NoResetFrom(start, ops, k);
      } else if Arrives(start, ops, n) {
        assert NoResetFrom(start, ops, n);
      } else {
        NewCarriesOver(start, ops);
      }
    }
  }

  /** For an account whose mailboxes were never synced, over the whole run. */
  lemma HasNewOverRuns(run: seq<Op>, key: string)
    requires key == INBOX || key == SENT || key == JUNK
    ensures var empty := EmptyMailboxState();
            var ops := OpsOn(run, key);
            Play(NormalizeMailboxStatus(Null), run)[key].hasNew == Bool(true)
            <==> exists k :: 0 <= k < |ops| && Arrives(empty, ops, k) && NoResetFrom(empty, ops, k)
  {
    MailboxesAreIndependent(NormalizeMailboxStatus(Null), run, key);
    HasNewIs(EmptyMailboxState(), OpsOn(run, key));
  }

  // ---------- Overlapping operations ----------

  /** The two statements of the operation number `op`. */
  datatype Event = Read(op: nat) | Write(op: nat)

  /** Each operation reads and then writes, at most once each. */
  predicate Schedule(s: seq<Event>) {
    && (forall i, j :: 0 <= i < j < |s| ==> s[i] != s[j])
    && forall w :: 0 <= w < |s| && s[w].Write? ==> Read(s[w].op) in s[..w]
  }

  /** The place of an event that is there. */
  function Place(s: seq<Event>, e: Event): (i: nat)
    requires e in s
    ensures i < |s| && s[i] == e
  {
    if s[0] == e then 0 else 1 + Place(s[1..], e)
  }

  /** The status after the schedule: a write saves what it makes of the status its operation had read. */
  function Interleaved(start: Status, ops: nat -> Op, s: seq<Event>): (r: Status)
    requires Complete(start) && Schedule(s)
    ensures Complete(r)
    decreases |s|
  {
    if s == [] then start
    else
      var n := |s| - 1;
      match s[n]
      case Read(_) => Interleaved(start, ops, s[..n])
      case Write(op) => Applied(Interleaved(start, ops, s[..Place(s[..n], Read(op))]), ops(op))
  }

  /** The operations that have written, in that order. */
  function Written(ops: nat -> Op, s: seq<Event>): seq<Op> {
    if s == [] then []
    else if s[|s| - 1].Write? then Written(ops, s[..|s| - 1]) + [ops(s[|s| - 1].op)]
    else Written(ops, s[..|s| - 1])
  }

  /** No operation writes between another one's read and write. */
  predicate Uninterrupted(s: seq<Event>) {
    forall r, i, w :: 0 <= r < i < w < |s| && s[w].Write? && s[r] == Read(s[w].op) ==> !s[i].Write?
  }

  /** At every point of the schedule each mailbox is what its own operations made of it. */
  ghost predicate Independent(start: Status, ops: nat -> Op, s: seq<Event>)
    requires Complete(start) && Schedule(s)
  {
    forall n, key :: 0 <= n <= |s| && key in start ==> IndependentAt(start, ops, s[..n], key)
  }

  ghost predicate IndependentAt(start: Status, ops: nat -> Op, s: seq<Event>, key: string)
    requires Complete(start) && key in start
  {
    Schedule(s) ==> Interleaved(start, ops, s)[key] == After(start[key], OpsOn(Written(ops, s), key))
  }

  lemma ScheduleOfPrefix(s: seq<Event>, n: nat)
    requires Schedule(s) && n <= |s|
    ensures Schedule(s[..n]) && (Uninterrupted(s) ==> Uninterrupted(s[..n]))
  {
    forall w | 0 <= w < n && s[w].Write?
      ensures s[..n][..w] == s[..w]
    {
    }
  }

  lemma {:induction false} ReadsChangeNothing(start: Status, ops: nat -> Op, s: seq<Event>, n: nat)
    requires Complete(start) && Schedule(s) && n <= |s| && forall i :: n <= i < |s| ==> s[i].Read?
    ensures Schedule(s[..n]) && Interleaved(start, ops, s[..n]) == Interleaved(start, ops, s)
  {
    ScheduleOfPrefix(s, n);
    if n == |s| {
      assert s[..n] == s;
    } else {
      ScheduleOfPrefix(s, |s| - 1);
      ReadsChangeNothing(start, ops, s[..|s| - 1], n);
      assert s[..|s| - 1][..n] == s[..n];
    }
  }

  /** Nothing was written since the operation that writes last has read. */
  lemma OnlyReadsSince(s: seq<Event>, r: nat)
    requires Uninterrupted(s) && s != [] && s[|s| - 1].Write? && r < |s| - 1 && s[r] == Read(s[|s| - 1].op)
    ensures forall i :: r <= i < |s| - 1 ==> s[i].Read?
  {
  }

  lemma LastWrite(start: Status, ops: nat -> Op, s: seq<Event>)
    requires Complete(start) && Schedule(s) && Uninterrupted(s) && s != [] && s[|s| - 1].Write?
    ensures Schedule(s[..|s| - 1])
    ensures Interleaved(start, ops, s) == Applied(Interleaved(start, ops, s[..|s| - 1]), ops(s[|s| - 1].op))
  {
    var n := |s| - 1;
    var init := s[..n];
    var r := Place(init, Read(s[n].op));
    ScheduleOfPrefix(s, n);
    OnlyReadsSince(s, r);
    ReadsChangeNothing(start, ops, init, r);
    assert init[..r] == s[..r];
  }

  lemma PlayOneMore(start: Status, run: seq<Op>, op: Op)
    requires Complete(start)
    ensures Play(start, run + [op]) == Applied(Play(start, run), op)
  {
    assert (run + [op])[..|run|] == run;
  }

  /** Uninterrupted operations are as good as one after the other, in the order of their writes. */
  lemma {:induction false} UninterruptedIsSequential(start: Status, ops: nat -> Op, s: seq<Event>)
    requires Complete(start) && Schedule(s) && Uninterrupted(s)
    ensures Interleaved(start, ops, s) == Play(start, Written(ops, s))
  {
    if s != [] {
      var n := |s| - 1;
      ScheduleOfPrefix(s, n);
      UninterruptedIsSequential(start, ops, s[..n]);
      if s[n].Write? {
        LastWrite(start, ops, s);
        PlayOneMore(start, Written(ops, s[..n]), ops(s[n].op));
      }
    }
  }

  // ---------- A lost update ----------

  /** One operation clears SENT, every other one clears INBOX. */
  function ClearSent(sent: nat): nat -> Op {
    op => Clear(if op == sent then SENT else INBOX, "now")
  }

  lemma SentIsSent()
    ensures CanonicalMailboxName(SENT) == SENT && CanonicalMailboxName(INBOX) == INBOX
  {
    TrimSpaceFixes(SENT);
    TrimSpaceFixes(INBOX);
    assert ToLower(SENT) == "sent" && ToLower(INBOX) == "inbox";
  }

  lemma OthersLeaveSent(s: Status, sent: nat, op: nat)
    requires Complete(s) && op != sent
    ensures SENT in s && Applied(s, ClearSent(sent)(op))[SENT] == s[SENT]
  {
    SentIsSent();
  }

  function NeverSynced(): Status {
    NormalizeMailboxStatus(Null)
  }

  lemma {:induction false} SentUntouched(sent: nat, s: seq<Event>)
    requires Schedule(s) && Write(sent) !in s
    ensures Interleaved(NeverSynced(), ClearSent(sent), s)[SENT] == EmptyMailboxState()
    decreases |s|
  {
    if s != [] {
      var n := |s| - 1;
      ScheduleOfPrefix(s, n);
      if s[n].Read? {
        SentUntouched(sent, s[..n]);
      } else {
        var r := Place(s[..n], Read(s[n].op));
        ScheduleOfPrefix(s, r);
        SentUntouched(sent, s[..r]);
        OthersLeaveSent(Interleaved(NeverSynced(), ClearSent(sent), s[..r]), sent, s[n].op);
      }
    }
  }

  lemma OpsOnOneMore(run: seq<Op>, op: Op, key: string)
    ensures OpsOn(run + [op], key)
            == if CanonicalMailboxName(op.mailbox) == key then OpsOn(run, key) + [op] else OpsOn(run, key)
  {
    assert (run + [op])[..|run|] == run;
  }

  lemma {:induction false} SentCleared(sent: nat, s: seq<Event>)
    requires Write(sent) in s
    ensures After(EmptyMailboxState(), OpsOn(Written(ClearSent(sent), s), SENT)).lastSyncedAt == Str("now")
  {
    SentIsSent();
    var n := |s| - 1;
    var before := Written(ClearSent(sent), s[..n]);
    if s[n].Write? {
      OpsOnOneMore(before, ClearSent(sent)(s[n].op), SENT);
    }
    if s[n] == Write(sent) {
      AfterCleared(OpsOn(before, SENT), ClearSent(sent)(sent));
    } else {
      assert s == s[..n] + [s[n]];
      SentCleared(sent, s[..n]);
    }
  }

  lemma AfterCleared(run: seq<Op>, op: Op)
    requires op.Clear?
    ensures After(EmptyMailboxState(), run + [op]).lastSyncedAt == Str(op.now)
  {
  }

  lemma PlaceIs(s: seq<Event>, r: nat)
    requires Schedule(s) && r < |s| - 1 && s[|s| - 1].Write? && s[r] == Read(s[|s| - 1].op)
    ensures Place(s[..|s| - 1], s[r]) == r
  {
    var read := Place(s[..|s| - 1], s[r]);
    assert s[read] == s[r];
  }

  /** The last write puts back what its operation had read, from before the clear. */
  lemma ClearIsUndone(s: seq<Event>, r: nat, i: nat)
    requires Schedule(s) && r < i < |s| - 1 && s[|s| - 1].Write? && s[r] == Read(s[|s| - 1].op) && s[i].Write?
    ensures Interleaved(NeverSynced(), ClearSent(s[i].op), s)[SENT] == EmptyMailboxState()
  {
    var n, sent := |s| - 1, s[i].op;
    PlaceIs(s, r);
    ScheduleOfPrefix(s, r);
    assert Write(sent) !in s[..r] && s[n].op != sent;
    SentUntouched(sent, s[..r]);
    OthersLeaveSent(Interleaved(NeverSynced(), ClearSent(sent), s[..r]), sent, s[n].op);
  }

  lemma ClearIsLost(s: seq<Event>, r: nat, i: nat)
    requires Schedule(s) && r < i < |s| - 1 && s[|s| - 1].Write? && s[r] == Read(s[|s| - 1].op) && s[i].Write?
    ensures SENT in NeverSynced() && !IndependentAt(NeverSynced(), ClearSent(s[i].op), s, SENT)
  {
    ClearIsUndone(s, r, i);
    SentCleared(s[i].op, s);
  }

  lemma LostBy(s: seq<Event>, until: seq<Event>, r: nat, i: nat)
    requires Schedule(s) && until <= s && r < i < |until| - 1 && s[|until| - 1].Write? && s[i].Write?
    requires s[r] == Read(s[|until| - 1].op)
    ensures !Independent(NeverSynced(), ClearSent(s[i].op), s)
  {
    assert s[..|until|] == until;
    ScheduleOfPrefix(s, |until|);
    ClearIsLost(until, r, i);
    DependentAt(NeverSynced(), ClearSent(s[i].op), s, until, SENT);
  }

  lemma DependentAt(start: Status, ops: nat -> Op, s: seq<Event>, until: seq<Event>, key: string)
    requires Complete(start) && Schedule(s) && until <= s && key in start && !IndependentAt(start, ops, until, key)
    ensures !Independent(start, ops, s)
  {
    assert s[..|until|] == until;
  }

  /** A write between another operation's read and write is lost as soon as that one writes. */
  lemma LostUpdate(s: seq<Event>, r: nat, i: nat, w: nat)
    requires Schedule(s) && r < i < w < |s| && s[w].Write? && s[r] == Read(s[w].op) && s[i].Write?
    ensures !Independent(NeverSynced(), ClearSent(s[i].op), s)
  {
    LostBy(s, s[..w + 1], r, i);
  }

  ghost predicate AlwaysIndependent(s: seq<Event>)
    requires Schedule(s)
  {
    forall start: Status, ops :: Complete(start) ==> Independent(start, ops, s)
  }

  /**
   In overlapping syncs and clears of one account, mailboxes depend on their own operations only,
   whatever the operations are, exactly when no operation writes between another one's read and write.
   */
  lemma IndependentExactlyUninterrupted(s: seq<Event>)
    requires Schedule(s)
    ensures AlwaysIndependent(s) <==> Uninterrupted(s)
  {
    if Uninterrupted(s) {
      forall start: Status, ops, n, key | Complete(start) && 0 <= n <= |s| && key in start
        ensures IndependentAt(start, ops, s[..n], key)
      {
        ScheduleOfPrefix(s, n);
        UninterruptedIsSequential(start, ops, s[..n]);
        MailboxesAreIndependent(start, Written(ops, s[..n]), key);
      }
    } else {
      var r, i, w :| 0 <= r < i < w < |s| && s[w].Write? && s[r] == Read(s[w].op) && s[i].Write?;
      LostUpdate(s, r, i, w);
    }
  }

  /** So the flag of every mailbox is right after uninterrupted operations. */
  lemma HasNewOverSchedules(s: seq<Event>, ops: nat -> Op, key: string)
    requires Schedule(s) && Uninterrupted(s) && (key == INBOX || key == SENT || key == JUNK)
    ensures var own := OpsOn(Written(ops, s), key);
            Interleaved(NeverSynced(), ops, s)[key].hasNew == Bool(true)
            <==> exists k :: 0 <= k < |own| && Arrives(EmptyMailboxState(), own, k)
                             && NoResetFrom(EmptyMailboxState(), own, k)
  {
    UninterruptedIsSequential(NeverSynced(), ops, s);
    HasNewOverRuns(Written(ops, s), key);
  }

  // ---------- The other fields ----------

  /** A sync by fields. */
  lemma SyncedFields(m: MailboxState, op: Op)
    requires op.Sync?
    ensures var r := Next(m, op);
            && r.latestMessageId == (if op.messages == [] then Null else Str(op.messages[0].id))
            && r.latestMessageDate == (if op.messages == [] || op.messages[0].date == "" then Null
                                       else Str(op.messages[0].date))
            && r.messageCount == Number(|op.messages|)
            && r.lastSyncedAt == Str(op.now)
            && r.lastViewedAt == (if op.markAsSeen then Str(op.now) else m.lastViewedAt)
            && r.uidValidity == (if "uidValidity" in op.checkpoint then op.checkpoint["uidValidity"] else m.uidValidity)
            && r.lastUid == (if "lastUid" in op.checkpoint then op.checkpoint["lastUid"] else m.lastUid)
            && r.hasNew.Bool?
  {
  }

  /** A clear forgets everything but that it has just been synced and viewed. */
  lemma ClearedFields(m: MailboxState, op: Op)
    requires op.Clear?
    ensures var r := Next(m, op);
            && r.latestMessageId == r.latestMessageDate == r.uidValidity == r.lastUid == Null
            && r.messageCount == Number(0) && r.hasNew == Bool(false)
            && r.lastSyncedAt == Str(op.now) && r.lastViewedAt == Str(op.now)
  {
  }

  predicate Views(op: Op) {
    op.Clear? || op.markAsSeen
  }

  /** The last viewing of a run of operations is remembered, and that of before the run when there was none. */
  lemma {:induction false} LastViewed(start: MailboxState, ops: seq<Op>, k: nat)
    requires k <= |ops| && forall i :: k <= i < |ops| ==> !Views(ops[i])
    requires k > 0 ==> Views(ops[k - 1])
    ensures After(start, ops).lastViewedAt == if k == 0 then start.lastViewedAt else Str(ops[k - 1].now)
    decreases |ops|
  {
    if |ops| > k {
      LastViewed(start, ops[..|ops| - 1], k);
    }
  }

  /** A checkpoint is remembered until the next one, or a clear. */
  lemma {:induction false} LastCheckpoint(start: MailboxState, ops: seq<Op>, k: nat)
    requires k < |ops| && ops[k].Sync? && "uidValidity" in ops[k].checkpoint && "lastUid" in ops[k].checkpoint
    requires forall i :: k < i < |ops| ==>
               ops[i].Sync? && "uidValidity" !in ops[i].checkpoint && "lastUid" !in ops[i].checkpoint
    ensures After(start, ops).uidValidity == ops[k].checkpoint["uidValidity"]
    ensures After(start, ops).lastUid == ops[k].checkpoint["lastUid"]
    decreases |ops|
  {
    if |ops| > k + 1 {
      LastCheckpoint(start, ops[..|ops| - 1], k);
    }
  }

  /** The three mailboxes and the names that mean them. */
  lemma MailboxNames(name: string)
    ensures CanonicalMailboxName(name) == "SENT" <==> ToLower(TrimSpace(name)) == "sent"
    ensures CanonicalMailboxName(name) == "Junk" <==>
              ToLower(TrimSpace(name)) == "junk" || ToLower(TrimSpace(name)) == "spam"
    ensures CanonicalMailboxName(name) == "INBOX" || CanonicalMailboxName(name) == "SENT"
            || CanonicalMailboxName(name) == "Junk"
  {
    assert "sent" != "junk" && "sent" != "spam";
  }
}
