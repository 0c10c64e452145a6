/**
 One-shot OAuth state values: an authorization stores a pending record, a callback takes it, marks the
 state as processing, may bind a mailbox, and stores the result; polls read the result first and the
 pending record second. Every read and write is a step of its own, and requests may stop anywhere.
 */
module OAuthState {
  import opened Redis
  import opened Text
  import opened Wrappers

  const STATE_TTL := 10 * 60 * SECOND
  const RESULT_TTL := 15 * 60 * SECOND

  datatype Record = Record(adminId: int, provider: string, groupId: Option<int>, emailId: Option<int>)

  datatype Phase = Processing | Completed

  datatype Snapshot = Snapshot(adminId: int, provider: string, phase: Phase, code: string)

  /** The JSON codecs of the two payloads. */
  datatype Json = Json(
    writeRecord: Record -> string,
    readRecord: string -> Option<Record>,
    writeSnapshot: Snapshot -> string,
    readSnapshot: string -> Option<Snapshot>)
  {
    ghost predicate Faithful() {
      && (forall r :: readRecord(writeRecord(r)) == Some(r))
      && forall s :: readSnapshot(writeSnapshot(s)) == Some(s)
    }
  }

  function PendingKey(state: string): string {
    "admin:oauth:state:" + state
  }

  function StatusKey(state: string): string {
    "admin:oauth:status:" + state
  }

  lemma KeysApart(a: string, b: string)
    ensures PendingKey(a) != StatusKey(b)
    ensures PendingKey(a) == PendingKey(b) || StatusKey(a) == StatusKey(b) ==> a == b
  {
    assert PendingKey(a)[16] == 'e' && StatusKey(b)[16] == 'u';
    assert PendingKey(a)[18..] == a && PendingKey(b)[18..] == b;
    assert StatusKey(a)[19..] == a && StatusKey(b)[19..] == b;
  }

  // ---------- Steps ----------

  datatype Callback =
    | Rejected
    | Taken(state: string, record: Record)
    | Marked(state: string, record: Record)
    | Bound(state: string, record: Record)
    | Finished(state: string, record: Record, code: string)

  datatype Poll = Poll(state: string, provider: string, adminId: int)

  datatype Seen =
    | SeenPending
    | SeenProcessing
    | SeenCompleted(code: string)
    | SeenExpired
    | SeenForbidden
    | SeenInvalid

  datatype Answer = Answer(poll: Poll, seen: Seen)

  datatype Binding = Binding(state: string, callback: nat, record: Record)

  /** The table, the requests under way, and the history: values issued and taken, mailboxes bound, polls answered. */
  datatype State = State(
    table: Table,
    callbacks: map<nat, Callback>,
    polls: map<nat, Poll>,
    issued: map<string, Record>,
    issuedAt: map<string, nat>,
    taken: map<string, nat>,
    bindings: seq<Binding>,
    answers: seq<Answer>)

  datatype Event =
    | Issue(state: string, record: Record)
    | Take(callback: nat, state: string, provider: string)
    | Mark(callback: nat)
    | Bind(callback: nat)
    | Finish(callback: nat, code: string)
    | ReadStatus(poll: nat, request: Poll)
    | ReadPending(poll: nat)

  datatype Timed = Timed(at: nat, event: Event)

  function TextAt(t: Table, at: nat, key: string): Option<string> {
    match Lookup(t, at, key)
    case Some(Text(text)) => Some(text)
    case _ => None
  }

  function SnapshotSeen(json: Json, request: Poll, text: string): Option<Seen> {
    match json.readSnapshot(text)
    case None => Some(SeenInvalid)
    case Some(s) =>
      if s.provider != request.provider then None
      else if s.adminId != request.adminId then Some(SeenForbidden)
      else Some(if s.phase.Processing? then SeenProcessing else SeenCompleted(s.code))
  }

  /** What the first read of a poll answers; None when it goes on to the pending record. */
  function StatusSeen(json: Json, t: Table, at: nat, request: Poll): Option<Seen> {
    match TextAt(t, at, StatusKey(request.state))
    case None => None
    case Some(text) => SnapshotSeen(json, request, text)
  }

  function PendingSeen(json: Json, t: Table, at: nat, request: Poll): Seen {
    match TextAt(t, at, PendingKey(request.state))
    case None => SeenExpired
    case Some(text) =>
      match json.readRecord(text)
      case None => SeenInvalid
      case Some(r) =>
        if r.provider != request.provider then SeenExpired
        else if r.adminId != request.adminId then SeenForbidden
        else SeenPending
  }

  function WithStatus(json: Json, t: Table, at: nat, c: Callback, phase: Phase, code: string): Table
    requires !c.Rejected?
  {
    Stored(t, at, StatusKey(c.state), json.writeSnapshot(Snapshot(c.record.adminId, c.record.provider, phase, code)),
           Seconds(RESULT_TTL))
  }

  /**
   A callback that finds the record of its provider goes on; any other ends, and has taken the record all the
   same.
   */
  function TakenBy(json: Json, t: Table, at: nat, state: string, provider: string): Callback {
    match TextAt(t, at, PendingKey(state))
    case None => Rejected
    case Some(text) =>
      match json.readRecord(text)
      case None => Rejected
      case Some(r) => if r.provider != provider then Rejected else Taken(state, r)
  }

  /** A step that is not enabled changes nothing; state values are issued once. */
  function Step(json: Json, s: State, e: Timed): State {
    match e.event
    case Issue(state, record) =>
      if state in s.issued then s
      else s.(table := Stored(s.table, e.at, PendingKey(state), json.writeRecord(record), Seconds(STATE_TTL)),
              issued := s.issued[state := record], issuedAt := s.issuedAt[state := e.at])
    case Take(c, state, provider) =>
      if c in s.callbacks then s
      else
        s.(table := Deleted(s.table, PendingKey(state)),
           callbacks := s.callbacks[c := TakenBy(json, s.table, e.at, state, provider)],
           taken := if TakenBy(json, s.table, e.at, state, provider).Taken? then s.taken[state := c] else s.taken)
    case Mark(c) =>
      if c in s.callbacks && s.callbacks[c].Taken? then
        var cb := s.callbacks[c];
        s.(table := WithStatus(json, s.table, e.at, cb, Processing, ""),
           callbacks := s.callbacks[c := Marked(cb.state, cb.record)])
      else s
    case Bind(c) =>
      if c in s.callbacks && s.callbacks[c].Marked? then
        var cb := s.callbacks[c];
        s.(callbacks := s.callbacks[c := Bound(cb.state, cb.record)],
           bindings := s.bindings + [Binding(cb.state, c, cb.record)])
      else s
    case Finish(c, code) =>
      if c in s.callbacks && (s.callbacks[c].Marked? || s.callbacks[c].Bound?) then
        var cb := s.callbacks[c];
        s.(table := WithStatus(json, s.table, e.at, cb, Completed, code),
           callbacks := s.callbacks[c := Finished(cb.state, cb.record, code)])
      else s
    case ReadStatus(p, request) =>
      if p in s.polls then s
      else
        var seen := StatusSeen(json, s.table, e.at, request);
        s.(polls := s.polls[p := request],
           answers := if seen.Some? then s.answers + [Answer(request, seen.value)] else s.answers)
    case ReadPending(p) =>
      if p in s.polls then
        s.(answers := s.answers + [Answer(s.polls[p], PendingSeen(json, s.table, e.at, s.polls[p]))])
      else s
  }

  function Play(json: Json, run: seq<Timed>): State {
    if run == [] then State(map[], map[], map[], map[], map[], map[], [], [])
    else Step(json, Play(json, run[..|run| - 1]), run[|run| - 1])
  }

  // ---------- The handlers, uninterrupted ----------

  /** How an authorization ends once it is marked: refused with a code, or a mailbox bound and a code. */
  datatype Outcome = Refused(code: string) | BoundWith(code: string)

  /** Why a callback ends before it has marked anything: a record that cannot be read is the backend's fault. */
  function TakeError(json: Json, t: Table, at: nat, state: string, provider: string): (error: Option<string>)
    ensures error.Some? <==> TakenBy(json, t, at, state, provider).Rejected?
  {
    match TextAt(t, at, PendingKey(state))
    case None => Some("OAUTH_STATE_INVALID")
    case Some(text) =>
      match json.readRecord(text)
      case None => Some("OAUTH_STATE_BACKEND_INVALID")
      case Some(r) => if r.provider != provider then Some("OAUTH_STATE_INVALID") else None
  }

  method CompleteOAuthAuthorization(server: Server, json: Json, text: string, provider: string, outcome: Outcome,
                                    t: (nat, nat, nat))
    returns (code: string, bound: bool)
    requires server.clock <= t.0 <= t.1 <= t.2
    modifies server
    ensures var state := TrimSpace(text);
            var s := State(old(server.table), map[], map[], map[], map[], map[], [], []);
            if state == "" then server.table == s.table && code == "OAUTH_CALLBACK_MISSING_STATE" && !bound
            else
              var s1 := Step(json, s, Timed(t.0, Take(0, state, provider)));
              var s2 := Step(json, s1, Timed(t.1, Mark(0)));
              var s3 := if outcome.BoundWith? then Step(json, s2, Timed(t.1, Bind(0))) else s2;
              var s4 := Step(json, s3, Timed(t.2, Finish(0, outcome.code)));
              && server.table == s4.table
              && bound == (s4.bindings != [])
              && var error := TakeError(json, s.table, t.0, state, provider);
                 code == if error.Some? then error.value else outcome.code
  {
    bound := false;
    var state := TrimSpace(text);
    if state == "" {
      return "OAUTH_CALLBACK_MISSING_STATE", false;
    }
    var value := server.Take(PendingKey(state), t.0);
    if value.None? || !value.value.Text? {
      return "OAUTH_STATE_INVALID", false;
    }
    var record := json.readRecord(value.value.text);
    if record.None? {
      return "OAUTH_STATE_BACKEND_INVALID", false;
    }
    if record.value.provider != provider {
      return "OAUTH_STATE_INVALID", false;
    }
    var r := record.value;
    server.Set(StatusKey(state), json.writeSnapshot(Snapshot(r.adminId, provider, Processing, "")), RESULT_TTL, t.1);
    bound := outcome.BoundWith?;
    server.Set(StatusKey(state), json.writeSnapshot(Snapshot(r.adminId, provider, Completed, outcome.code)),
               RESULT_TTL, t.2);
    return outcome.code, bound;
  }

  method OAuthAuthorizationStatus(server: Server, json: Json, request: Poll, t: (nat, nat)) returns (seen: Seen)
    requires server.clock <= t.0 <= t.1
    modifies server`clock
    ensures var first := StatusSeen(json, server.table, t.0, request);
            seen == if first.Some? then first.value else PendingSeen(json, server.table, t.1, request)
  {
    var completed := server.Get(StatusKey(request.state), t.0);
    if completed.Some? && completed.value.Text? {
      var snapshot := json.readSnapshot(completed.value.text);
      if snapshot.None? {
        return SeenInvalid;
      }
      if snapshot.value.provider == request.provider {
        if snapshot.value.adminId != request.adminId {
          return SeenForbidden;
        }
        return if snapshot.value.phase.Processing? then SeenProcessing else SeenCompleted(snapshot.value.code);
      }
    }
    var pending := server.Get(PendingKey(request.state), t.1);
    if pending.None? || !pending.value.Text? {
      return SeenExpired;
    }
    var record := json.readRecord(pending.value.text);
    if record.None? {
      return SeenInvalid;
    }
    if record.value.provider != request.provider {
      return SeenExpired;
    }
    return if record.value.adminId != request.adminId then SeenForbidden else SeenPending;
  }

  // ---------- What every interleaving keeps ----------

  /** How far the callback that took a state value has come. */
  function Progress(s: State, state: string): nat {
    if state in s.taken && s.taken[state] in s.callbacks then
      match s.callbacks[s.taken[state]]
      case Rejected => 0
      case Taken(_, _) => 1
      case Marked(_, _) => 2
      case Bound(_, _) => 3
      case Finished(_, _, _) => 4
    else 0
  }

  /** A pending record is the one issued, and nobody has taken it. */
  ghost predicate PendingSound(json: Json, s: State, state: string) {
    PendingKey(state) in s.table ==>
      && state in s.issued && state in s.issuedAt && state !in s.taken
      && s.table[PendingKey(state)] == Entry(Text(json.writeRecord(s.issued[state])), s.issuedAt[state] + 600)
  }

  /** A stored status is what the callback that took the state value wrote last. */
  ghost predicate StatusSound(json: Json, s: State, state: string) {
    StatusKey(state) in s.table ==>
      && Progress(s, state) >= 2 && state in s.issued
      && s.table[StatusKey(state)].value == Text(json.writeSnapshot(SnapshotOf(s, state)))
  }

  /**
   What is known of a state value that a callback has marked: its record's owner, and the code once it is
   finished.
   */
  function SnapshotOf(s: State, state: string): Snapshot
    requires Progress(s, state) >= 2 && state in s.issued
  {
    var r, cb := s.issued[state], s.callbacks[s.taken[state]];
    match cb
    case Finished(_, _, code) => Snapshot(r.adminId, r.provider, Completed, code)
    case _ => Snapshot(r.adminId, r.provider, Processing, "")
  }

  /** A callback under way is the one that took its state value, and holds the record issued. */
  ghost predicate CallbackSound(s: State, c: nat) {
    c in s.callbacks && !s.callbacks[c].Rejected? ==>
      && s.callbacks[c].state in s.taken && s.taken[s.callbacks[c].state] == c
      && s.callbacks[c].state in s.issued && s.callbacks[c].record == s.issued[s.callbacks[c].state]
  }

  ghost predicate TakenSound(s: State, state: string) {
    state in s.taken ==>
      && s.taken[state] in s.callbacks && !s.callbacks[s.taken[state]].Rejected?
      && s.callbacks[s.taken[state]].state == state
  }

  ghost predicate TableSound(json: Json, s: State) {
    && (forall state :: PendingSound(json, s, state))
    && (forall state :: StatusSound(json, s, state))
    && (forall c :: CallbackSound(s, c))
    && forall state :: TakenSound(s, state)
  }

  /** A step of a callback that is under way. */
  predicate Moves(e: Event) {
    e.Mark? || e.Bind? || e.Finish?
  }

  lemma MovesKeepPending(json: Json, s: State, e: Timed, state: string)
    requires TableSound(json, s) && Moves(e.event)
    ensures PendingSound(json, Step(json, s, e), state)
  {
    assert PendingSound(json, s, state);
    var c := e.event.callback;
    if c in s.callbacks && !s.callbacks[c].Rejected? {
      KeysApart(state, s.callbacks[c].state);
    }
  }

  lemma StepKeepsPending(json: Json, s: State, e: Timed, state: string)
    requires TableSound(json, s)
    ensures PendingSound(json, Step(json, s, e), state)
  {
    assert PendingSound(json, s, state);
    if Moves(e.event) {
      MovesKeepPending(json, s, e, state);
    } else if e.event.Take? {
      KeysApart(state, e.event.state);
    } else if e.event.Issue? {
      var other := e.event.state;
      KeysApart(state, other);
      assert TakenSound(s, other);
      if other in s.taken {
        assert CallbackSound(s, s.taken[other]);
      }
    }
  }

  lemma TakeKeepsCallbacks(json: Json, s: State, e: Timed, c: nat)
    requires json.Faithful() && TableSound(json, s) && e.event.Take?
    ensures CallbackSound(Step(json, s, e), c)
  {
    assert CallbackSound(s, c);
    assert PendingSound(json, s, e.event.state);
    if c in s.callbacks && !s.callbacks[c].Rejected? {
      assert TakenSound(s, s.callbacks[c].state);
    }
  }

  lemma StepKeepsCallbacks(json: Json, s: State, e: Timed, c: nat)
    requires json.Faithful() && TableSound(json, s)
    ensures CallbackSound(Step(json, s, e), c)
  {
    assert CallbackSound(s, c);
    match e.event
    case Take(_, _, _) => TakeKeepsCallbacks(json, s, e, c);
    case Mark(d) =>
    case Bind(d) =>
    case Finish(d, _) =>
    case _ =>
  }

  lemma TakeKeepsTaken(json: Json, s: State, e: Timed, state: string)
    requires TableSound(json, s) && e.event.Take?
    ensures TakenSound(Step(json, s, e), state)
  {
    assert TakenSound(s, state);
    assert PendingSound(json, s, e.event.state);
  }

  lemma StepKeepsTaken(json: Json, s: State, e: Timed, state: string)
    requires TableSound(json, s)
    ensures TakenSound(Step(json, s, e), state)
  {
    assert TakenSound(s, state);
    if e.event.Take? {
      TakeKeepsTaken(json, s, e, state);
    }
  }

  /** The record issued with a state value and the callback that took it are never replaced. */
  lemma RecordsStay(json: Json, s: State, e: Timed, state: string)
    requires json.Faithful() && TableSound(json, s)
    ensures state in s.taken ==> state in Step(json, s, e).taken && Step(json, s, e).taken[state] == s.taken[state]
    ensures state in s.issued ==> state in Step(json, s, e).issued && Step(json, s, e).issued[state] == s.issued[state]
  {
    assert TakenSound(s, state) && PendingSound(json, s, state);
  }

  /** Progress never goes back, and of the callbacks only the one that took the state value makes any. */
  lemma ProgressGrows(json: Json, s: State, e: Timed, state: string)
    requires json.Faithful() && TableSound(json, s)
    ensures Progress(Step(json, s, e), state) >= Progress(s, state)
    ensures state in s.taken ==> state in Step(json, s, e).taken && Step(json, s, e).taken[state] == s.taken[state]
    ensures state in s.issued ==> state in Step(json, s, e).issued && Step(json, s, e).issued[state] == s.issued[state]
  {
    RecordsStay(json, s, e, state);
    assert TakenSound(s, state) && PendingSound(json, s, state);
    match e.event
    case Take(c, _, _) =>
    case Mark(c) =>
    case Bind(c) =>
    case Finish(c, _) =>
    case _ =>
  }

  lemma MovesKeepStatus(json: Json, s: State, e: Timed, state: string)
    requires json.Faithful() && TableSound(json, s) && Moves(e.event)
    ensures StatusSound(json, Step(json, s, e), state)
  {
    assert StatusSound(json, s, state) && TakenSound(s, state) && CallbackSound(s, e.event.callback);
    if Step(json, s, e) != s {
      KeysApart(state, s.callbacks[e.event.callback].state);
    }
  }

  lemma StepKeepsStatus(json: Json, s: State, e: Timed, state: string)
    requires json.Faithful() && TableSound(json, s)
    ensures StatusSound(json, Step(json, s, e), state)
  {
    assert StatusSound(json, s, state);
    if Moves(e.event) {
      MovesKeepStatus(json, s, e, state);
    } else if e.event.Issue? {
      KeysApart(e.event.state, state);
    } else if e.event.Take? {
      KeysApart(e.event.state, state);
      assert PendingSound(json, s, e.event.state) && TakenSound(s, state);
    }
  }

  lemma StepKeepsTable(json: Json, s: State, e: Timed)
    requires json.Faithful() && TableSound(json, s)
    ensures TableSound(json, Step(json, s, e))
  {
    var s' := Step(json, s, e);
    forall state
      ensures PendingSound(json, s', state) && StatusSound(json, s', state) && TakenSound(s', state)
    {
      StepKeepsPending(json, s, e, state);
      StepKeepsStatus(json, s, e, state);
      StepKeepsTaken(json, s, e, state);
    }
    forall c
      ensures CallbackSound(s', c)
    {
      StepKeepsCallbacks(json, s, e, c);
    }
  }

  // ---------- Bindings ----------

  /** A binding was made by the callback that took its state value, for the record issued with it. */
  ghost predicate BindingSound(s: State, b: Binding) {
    && b.state in s.taken && s.taken[b.state] == b.callback && Progress(s, b.state) >= 3
    && b.state in s.issued && s.issued[b.state] == b.record
  }

  ghost predicate BindingsSound(s: State) {
    && (forall i :: 0 <= i < |s.bindings| ==> BindingSound(s, s.bindings[i]))
    && forall i, j :: 0 <= i < j < |s.bindings| ==> s.bindings[i].state != s.bindings[j].state
  }

  lemma EarlierBindingsStay(json: Json, s: State, e: Timed)
    requires json.Faithful() && TableSound(json, s) && BindingsSound(s)
    ensures forall i :: 0 <= i < |s.bindings| ==> BindingSound(Step(json, s, e), s.bindings[i])
  {
    forall i | 0 <= i < |s.bindings|
      ensures BindingSound(Step(json, s, e), s.bindings[i])
    {
      ProgressGrows(json, s, e, s.bindings[i].state);
    }
  }

  /** The callback that binds had not got that far before. */
  lemma BindIsNew(s: State, c: nat, i: nat)
    requires BindingsSound(s) && CallbackSound(s, c) && c in s.callbacks && s.callbacks[c].Marked? && i < |s.bindings|
    ensures s.bindings[i].state != s.callbacks[c].state
  {
    assert BindingSound(s, s.bindings[i]);
  }

  lemma StepKeepsBindings(json: Json, s: State, e: Timed)
    requires json.Faithful() && TableSound(json, s) && BindingsSound(s)
    ensures BindingsSound(Step(json, s, e))
  {
    EarlierBindingsStay(json, s, e);
    if e.event.Bind? {
      var c := e.event.callback;
      assert CallbackSound(s, c);
      if c in s.callbacks && s.callbacks[c].Marked? {
        forall i | 0 <= i < |s.bindings|
          ensures s.bindings[i].state != s.callbacks[c].state
        {
          BindIsNew(s, c, i);
        }
      }
    } else {
      assert Step(json, s, e).bindings == s.bindings;
    }
  }

  // ---------- Polls ----------

  function Rank(seen: Seen): nat {
    match seen
    case SeenProcessing => 1
    case SeenCompleted(_) => 2
    case _ => 0
  }

  predicate Tells(seen: Seen) {
    seen.SeenPending? || seen.SeenProcessing? || seen.SeenCompleted?
  }

  /** The poll is by the owner of the state value and for its provider. */
  ghost predicate Entitled(s: State, poll: Poll) {
    && poll.state in s.issued
    && s.issued[poll.state].adminId == poll.adminId && s.issued[poll.state].provider == poll.provider
  }

  /** The code with which the callback that took the state value finished. */
  ghost predicate FinishedWith(s: State, state: string, code: string) {
    && state in s.taken && s.taken[state] in s.callbacks
    && s.callbacks[s.taken[state]].Finished? && s.callbacks[s.taken[state]].code == code
  }

  /** What was seen of a state value is no more than has happened to it, and was told to its owner. */
  ghost predicate Happened(s: State, a: Answer) {
    && (a.seen.SeenProcessing? ==> Progress(s, a.poll.state) >= 2)
    && (a.seen.SeenCompleted? ==> FinishedWith(s, a.poll.state, a.seen.code))
    && (Tells(a.seen) ==> Entitled(s, a.poll))
  }

  /** And no less: pending is seen only while nobody has taken it, processing only before it is completed. */
  ghost predicate Current(s: State, a: Answer) {
    && (a.seen.SeenPending? ==> Progress(s, a.poll.state) == 0)
    && (a.seen.SeenProcessing? ==> 2 <= Progress(s, a.poll.state) <= 3)
    && (a.seen.SeenCompleted? ==> FinishedWith(s, a.poll.state, a.seen.code))
    && (Tells(a.seen) ==> Entitled(s, a.poll))
    && a.seen != SeenInvalid
  }

  ghost predicate AnswersSound(s: State) {
    && (forall i :: 0 <= i < |s.answers| ==> Happened(s, s.answers[i]) && s.answers[i].seen != SeenInvalid)
    && forall i, j :: 0 <= i < j < |s.answers| && s.answers[i].poll.state == s.answers[j].poll.state
                      && Tells(s.answers[i].seen) && Tells(s.answers[j].seen) ==>
         Rank(s.answers[i].seen) <= Rank(s.answers[j].seen)
  }

  lemma ReadsAreCurrent(json: Json, s: State, at: nat, request: Poll)
    requires json.Faithful() && TableSound(json, s)
    ensures StatusSeen(json, s.table, at, request).Some?
            ==> Current(s, Answer(request, StatusSeen(json, s.table, at, request).value))
    ensures Current(s, Answer(request, PendingSeen(json, s.table, at, request)))
  {
    assert StatusSound(json, s, request.state) && PendingSound(json, s, request.state);
  }

  lemma AnswerAdded(s: State, a: Answer, s': State)
    requires AnswersSound(s) && Current(s, a)
    requires s'.callbacks == s.callbacks && s'.taken == s.taken && s'.issued == s.issued
             && s'.answers == s.answers + [a]
    ensures AnswersSound(s')
  {
    assert forall state :: Progress(s', state) == Progress(s, state);
    forall i | 0 <= i < |s'.answers|
      ensures Happened(s', s'.answers[i]) && s'.answers[i].seen != SeenInvalid
    {
      if i < |s.answers| {
        assert Happened(s, s.answers[i]);
      }
    }
  }

  lemma FinishedCallbackStays(json: Json, s: State, e: Timed, c: nat)
    requires c in s.callbacks && s.callbacks[c].Finished?
    ensures var after := Step(json, s, e).callbacks; c in after && after[c] == s.callbacks[c]
  {
    match e.event
    case Take(d, _, _) => assert c in s.callbacks;
    case Mark(d) => assert !s.callbacks[c].Taken?;
    case Bind(d) => assert !s.callbacks[c].Marked?;
    case Finish(d, _) => assert !s.callbacks[c].Marked? && !s.callbacks[c].Bound?;
    case _ =>
  }

  lemma FinishedStays(json: Json, s: State, e: Timed, state: string, code: string)
    requires json.Faithful() && TableSound(json, s) && FinishedWith(s, state, code)
    ensures FinishedWith(Step(json, s, e), state, code)
  {
    RecordsStay(json, s, e, state);
    FinishedCallbackStays(json, s, e, s.taken[state]);
  }

  lemma HappenedStays(json: Json, s: State, e: Timed, a: Answer)
    requires json.Faithful() && TableSound(json, s) && Happened(s, a)
    ensures Happened(Step(json, s, e), a)
  {
    ProgressGrows(json, s, e, a.poll.state);
    if a.seen.SeenCompleted? {
      FinishedStays(json, s, e, a.poll.state, a.seen.code);
    }
  }

  lemma NoAnswerAdded(json: Json, s: State, e: Timed)
    requires json.Faithful() && TableSound(json, s) && AnswersSound(s) && Step(json, s, e).answers == s.answers
    ensures AnswersSound(Step(json, s, e))
  {
    var s' := Step(json, s, e);
    forall i | 0 <= i < |s.answers|
      ensures Happened(s', s.answers[i])
    {
      HappenedStays(json, s, e, s.answers[i]);
    }
  }

  lemma StatusReadKeepsAnswers(json: Json, s: State, e: Timed)
    requires json.Faithful() && TableSound(json, s) && AnswersSound(s) && e.event.ReadStatus?
    ensures AnswersSound(Step(json, s, e))
  {
    var seen := StatusSeen(json, s.table, e.at, e.event.request);
    if e.event.poll in s.polls || seen.None? {
      NoAnswerAdded(json, s, e);
    } else {
      ReadsAreCurrent(json, s, e.at, e.event.request);
      AnswerAdded(s, Answer(e.event.request, seen.value), Step(json, s, e));
    }
  }

  lemma PendingReadKeepsAnswers(json: Json, s: State, e: Timed)
    requires json.Faithful() && TableSound(json, s) && AnswersSound(s) && e.event.ReadPending?
    ensures AnswersSound(Step(json, s, e))
  {
    if e.event.poll in s.polls {
      var request := s.polls[e.event.poll];
      ReadsAreCurrent(json, s, e.at, request);
      AnswerAdded(s, Answer(request, PendingSeen(json, s.table, e.at, request)), Step(json, s, e));
    }
  }

  lemma StepKeepsAnswers(json: Json, s: State, e: Timed)
    requires json.Faithful() && TableSound(json, s) && AnswersSound(s)
    ensures AnswersSound(Step(json, s, e))
  {
    if e.event.ReadStatus? {
      StatusReadKeepsAnswers(json, s, e);
    } else if e.event.ReadPending? {
      PendingReadKeepsAnswers(json, s, e);
    } else {
      NoAnswerAdded(json, s, e);
    }
  }

  lemma {:induction false} EveryRun(json: Json, run: seq<Timed>)
    requires json.Faithful()
    ensures var s := Play(json, run); TableSound(json, s) && BindingsSound(s) && AnswersSound(s)
  {
    if run != [] {
      var init := run[..|run| - 1];
      EveryRun(json, init);
      StepKeepsTable(json, Play(json, init), run[|run| - 1]);
      StepKeepsBindings(json, Play(json, init), run[|run| - 1]);
      StepKeepsAnswers(json, Play(json, init), run[|run| - 1]);
    }
  }

  /**
   Over any interleaving of callbacks, polls and expiries a state value drives at most one binding, for its
   own record.
   */
  lemma BoundAtMostOnce(json: Json, run: seq<Timed>, i: nat, j: nat)
    requires json.Faithful()
    requires var s := Play(json, run);
             i < |s.bindings| && j < |s.bindings| && s.bindings[i].state == s.bindings[j].state
    ensures i == j
    ensures var b := Play(json, run).bindings[i];
            b.state in Play(json, run).issued && b.record == Play(json, run).issued[b.state]
  {
    EveryRun(json, run);
    assert BindingSound(Play(json, run), Play(json, run).bindings[i]);
  }

  lemma AnswersInOrder(s: State, i: nat, j: nat)
    requires AnswersSound(s) && i < j < |s.answers| && s.answers[i].poll.state == s.answers[j].poll.state
    requires Tells(s.answers[i].seen) && Tells(s.answers[j].seen)
    ensures s.answers[j].seen.SeenPending? ==> s.answers[i].seen.SeenPending?
    ensures s.answers[i].seen.SeenCompleted? ==> s.answers[j].seen == s.answers[i].seen
  {
    assert Happened(s, s.answers[i]);
    assert Happened(s, s.answers[j]);
  }

  /**
   Polls of one state value, in the order of their last reads, never go back: no pending after
   processing or completed, no processing after completed. "Expired" may come in between.
   */
  lemma PollsNeverGoBack(json: Json, run: seq<Timed>, i: nat, j: nat)
    requires json.Faithful()
    requires var a := Play(json, run).answers;
             i < j < |a| && a[i].poll.state == a[j].poll.state && Tells(a[i].seen) && Tells(a[j].seen)
    ensures var a := Play(json, run).answers;
            && (a[j].seen.SeenPending? ==> a[i].seen.SeenPending?)
            && (a[i].seen.SeenCompleted? ==> a[j].seen == a[i].seen)
  {
    EveryRun(json, run);
    AnswersInOrder(Play(json, run), i, j);
  }

  // ---------- Who is told what ----------

  /** In every run whoever is told pending, processing or completed owns the state value and asked for its provider. */
  lemma OnlyTheOwnerIsTold(json: Json, run: seq<Timed>, i: nat)
    requires json.Faithful()
    requires i < |Play(json, run).answers|
    requires var seen := Play(json, run).answers[i].seen;
             seen.SeenPending? || seen.SeenProcessing? || seen.SeenCompleted?
    ensures var s := Play(json, run);
            var poll := s.answers[i].poll;
            && poll.state in s.issued
            && poll.adminId == s.issued[poll.state].adminId && poll.provider == s.issued[poll.state].provider
  {
    EveryRun(json, run);
    assert Happened(Play(json, run), Play(json, run).answers[i]);
  }

  /** What a poll answers when nothing happens between its two reads. */
  function Answered(json: Json, t: Table, at: nat, poll: Poll): Seen {
    var first := StatusSeen(json, t, at, poll);
    if first.Some? then first.value else PendingSeen(json, t, at, poll)
  }

  /**
   In every reachable state, for the state value's provider: anyone but its owner is forbidden while a status or a
   record lives; the owner is told the status, or else pending; and when neither lives, expired.
   */
  lemma PollsAreAnswered(json: Json, run: seq<Timed>, at: nat, poll: Poll)
    requires json.Faithful() && poll.state in Play(json, run).issued
    requires poll.provider == Play(json, run).issued[poll.state].provider
    ensures var s := Play(json, run);
            var status, pending := Live(s.table, at, StatusKey(poll.state)), Live(s.table, at, PendingKey(poll.state));
            var seen, owner := Answered(json, s.table, at, poll), poll.adminId == s.issued[poll.state].adminId;
            && (!status && !pending ==> seen == SeenExpired)
            && ((status || pending) && !owner ==> seen == SeenForbidden)
            && (status && owner ==> if Progress(s, poll.state) < 4 then seen == SeenProcessing
                                    else seen.SeenCompleted? && FinishedWith(s, poll.state, seen.code))
            && (!status && pending && owner ==> seen == SeenPending)
  {
    EveryRun(json, run);
    assert StatusSound(json, Play(json, run), poll.state) && PendingSound(json, Play(json, run), poll.state);
  }

  /** A poll for another provider than the state value's is always answered expired, whoever asks. */
  lemma OtherProvidersSeeNothing(json: Json, run: seq<Timed>, at: nat, poll: Poll)
    requires json.Faithful()
    requires var s := Play(json, run); poll.state in s.issued ==> poll.provider != s.issued[poll.state].provider
    ensures Answered(json, Play(json, run).table, at, poll) == SeenExpired
  {
    EveryRun(json, run);
    assert StatusSound(json, Play(json, run), poll.state) && PendingSound(json, Play(json, run), poll.state);
  }

  // ---------- Time limits ----------

  /**
   A callback gets a state value only within ten minutes of its issue, only once, and only for its provider; it then
   holds the record that was issued.
   */
  lemma TakenInTime(json: Json, run: seq<Timed>, at: nat, c: nat, state: string, provider: string)
    requires json.Faithful() && c !in Play(json, run).callbacks
    ensures var s := Play(json, run);
            var s' := Step(json, s, Timed(at, Take(c, state, provider)));
            && c in s'.callbacks
            && (s'.callbacks[c].Taken? <==>
                  && PendingKey(state) in s.table && state in s.issued && s.issued[state].provider == provider
                  && state in s.issuedAt && at < s.issuedAt[state] + 600)
            && (s'.callbacks[c].Taken? ==> s'.callbacks[c] == Taken(state, s.issued[state]) && state !in s.taken)
            && PendingKey(state) !in s'.table
  {
    EveryRun(json, run);
    assert PendingSound(json, Play(json, run), state);
  }

  /** A status can be seen for fifteen minutes after it was written. */
  lemma StatusLasts(json: Json, s: State, e: Timed, at: nat)
    requires e.event.Mark? || e.event.Finish?
    requires Step(json, s, e) != s
    ensures var c := e.event.callback;
            && c in s.callbacks && !s.callbacks[c].Rejected?
            && (Live(Step(json, s, e).table, at, StatusKey(s.callbacks[c].state)) <==> at < e.at + 900)
  {
  }

  // ---------- What callbacks may do ----------

  /** A callback is marked once after it has taken the record, may then bind once, and finishes after either. */
  lemma CallbackMoves(json: Json, s: State, at: nat, c: nat, code: string)
    requires c in s.callbacks
    ensures var cb := s.callbacks[c];
            var marked := Step(json, s, Timed(at, Mark(c)));
            var bound := Step(json, s, Timed(at, Bind(c)));
            var finished := Step(json, s, Timed(at, Finish(c, code)));
            && (cb.Taken? <==> marked.callbacks[c] != cb)
            && (cb.Taken? ==> marked.callbacks[c] == Marked(cb.state, cb.record))
            && (cb.Marked? <==> bound.callbacks[c] != cb)
            && (cb.Marked? ==> bound.bindings == s.bindings + [Binding(cb.state, c, cb.record)])
            && (!cb.Marked? ==> bound.bindings == s.bindings)
            && (cb.Marked? || cb.Bound? <==> finished.callbacks[c] != cb)
            && (cb.Marked? || cb.Bound? ==> finished.callbacks[c] == Finished(cb.state, cb.record, code))
  {
  }

  /**
   What a callback answers at once: no state value, a record it cannot read, or one that is not there for its
   provider.
   */
  lemma TakeErrorIs(json: Json, t: Table, at: nat, state: string, provider: string)
    ensures var text := TextAt(t, at, PendingKey(state));
            TakeError(json, t, at, state, provider) ==
            if text.None? then Some("OAUTH_STATE_INVALID")
            else if json.readRecord(text.value).None? then Some("OAUTH_STATE_BACKEND_INVALID")
            else if json.readRecord(text.value).value.provider != provider then Some("OAUTH_STATE_INVALID")
            else None
  {
  }
}
