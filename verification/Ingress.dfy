/**
 Signed delivery of inbound mail: a request is checked against the clock, reserves its replay key,
 stores its message, and gives the reservation back when storing failed. Any number of requests
 interleave, and a request may stop after any step.
 */
module Ingress {
  import opened Decimal
  import opened IngressStore
  import opened Redis
  import opened Text
  import opened Wrappers

  // ---------- The clock check ----------

  /** Seconds from the first of January of year 1, from which the clock library counts, to 1970. */
  const UNIX_TO_INTERNAL := 62_135_596_800

  /** The difference in nanoseconds between a clock reading and a time given in seconds, saturating at 64 bits. */
  function Since(now: int, signedAt: int): int {
    var signed := Wrap64(signedAt + UNIX_TO_INTERNAL) - UNIX_TO_INTERNAL;
    var d := now - signed * SECOND;
    if d < MIN_INT64 then MIN_INT64 else if d > MAX_INT64 then MAX_INT64 else d
  }

  function DurationAbs(value: int): int {
    if value < 0 then Wrap64(0 - value) else value
  }

  function MaxDuration(left: int, right: int): int {
    if left > right then left else right
  }

  predicate PassesSkew(now: int, timestamp: int, skew: int) {
    DurationAbs(Since(now, timestamp)) <= skew
  }

  /** A timestamp so late that the difference saturates, but not so late that the seconds wrap. */
  predicate OutOfRange(now: int, timestamp: int) {
    timestamp * 1_000_000_000 >= now + 0x8000_0000_0000_0000 && timestamp <= 9_223_371_974_719_179_007
  }

  /**
   The check accepts the timestamps within the allowed skew, and those whose saturated difference has no
   absolute value.
   */
  lemma SkewExactly(now: int, timestamp: int, skew: int)
    requires 0 <= now <= MAX_INT64 && MIN_INT64 <= timestamp <= MAX_INT64 && 0 <= skew < MAX_INT64
    ensures PassesSkew(now, timestamp, skew)
            <==> -skew <= now - timestamp * SECOND <= skew || OutOfRange(now, timestamp)
  {
  }

  lemma FarFutureTimestampPasses()
    ensures PassesSkew(1_800_000_000 * SECOND, 99_999_999_999, 300 * SECOND)
  {
    SkewExactly(1_800_000_000 * SECOND, 99_999_999_999, 300 * SECOND);
  }

  // ---------- The protocol ----------

  datatype Request = Request(token: string, keyId: string, timestamp: int, input: Input, endpoint: Endpoint) {

    function ReplayKey(): string {
      "ingress:replay:" + keyId + ":" + input.deliveryKey
    }
  }

  lemma ReplayKeyInjective(a: Request, b: Request)
    requires ':' !in a.keyId && ':' !in b.keyId && a.ReplayKey() == b.ReplayKey()
    ensures a.keyId == b.keyId && a.input.deliveryKey == b.input.deliveryKey
  {
    var n := |"ingress:replay:"|;
    BeforeIs(a.keyId, ':', a.input.deliveryKey);
    BeforeIs(b.keyId, ':', b.input.deliveryKey);
    assert a.ReplayKey()[n..] == a.keyId + [':'] + a.input.deliveryKey;
    assert b.ReplayKey()[n..] == b.keyId + [':'] + b.input.deliveryKey;
  }

  /** The allowed skew in nanoseconds, and the requests that will be handled. */
  datatype Config = Config(skew: nat, requests: seq<Request>) {

    function Hold(): nat {
      Seconds(MaxDuration(2 * skew, 60 * SECOND))
    }

    ghost predicate DistinctTokens() {
      forall i, j :: 0 <= i < j < |requests| ==> requests[i].token != requests[j].token
    }
  }

  /** How far a request has come; `check` and `reserve` are the instants of its check and its reservation. */
  datatype Phase =
    | Fresh
    | Checked(check: nat)
    | Holding(check: nat, reserve: nat)
    | Accepted(check: nat, reserve: nat, answer: IngressResult)
    | Failed(check: nat, reserve: nat)
    | SignatureExpired
    | ReplayDetected
    | GivenBack

  datatype Acceptance = Acceptance(request: nat, answer: IngressResult)

  datatype State = State(table: Table, rows: Rows, phases: seq<Phase>, log: seq<Acceptance>)

  datatype Action =
    | Check(request: nat)
    | Reserve(request: nat)
    | Persist(request: nat, dir: Directory, ending: Ending)
    | Release(request: nat)
    | DeleteMailbox(mailboxId: int)

  datatype Event = Event(at: nat, action: Action)

  /** A step that a request is not ready for changes nothing. */
  function Step(c: Config, s: State, e: Event): State {
    match e.action
    case DeleteMailbox(mailboxId) => s.(rows := s.rows.(messages := Unlinked(s.rows.messages, mailboxId)))
    case Check(i) =>
      if i < |c.requests| && i < |s.phases| && s.phases[i].Fresh? then
        s.(phases := s.phases[i := if PassesSkew(e.at * SECOND, c.requests[i].timestamp, c.skew) then Checked(e.at)
                              else SignatureExpired])
      else s
    case Reserve(i) =>
      if i < |c.requests| && i < |s.phases| && s.phases[i].Checked? then
        var (table, ok) := Reserved(s.table, e.at, c.requests[i].ReplayKey(), c.requests[i].token, c.Hold());
        s.(table := table, phases := s.phases[i := if ok then Holding(s.phases[i].check, e.at) else ReplayDetected])
      else s
    case Persist(i, dir, ending) =>
      if i < |c.requests| && i < |s.phases| && s.phases[i].Holding? then
        Persisted(c, s, i, Received(s.rows, c.requests[i].input, c.requests[i].endpoint, dir, ending))
      else s
    case Release(i) =>
      if i < |c.requests| && i < |s.phases| && s.phases[i].Failed? then
        s.(table := Released(s.table, e.at, c.requests[i].ReplayKey(), c.requests[i].token),
           phases := s.phases[i := GivenBack])
      else s
  }

  function Persisted(c: Config, s: State, i: nat, outcome: (Rows, Result<IngressResult, Refusal>)): State
    requires i < |s.phases| && s.phases[i].Holding?
  {
    match outcome.1
    case Ok(answer) =>
      State(s.table, outcome.0, s.phases[i := Accepted(s.phases[i].check, s.phases[i].reserve, answer)],
            s.log + [Acceptance(i, answer)])
    case Err(_) =>
      State(s.table, outcome.0, s.phases[i := Failed(s.phases[i].check, s.phases[i].reserve)], s.log)
  }

  function Start(c: Config, rows: Rows): State {
    State(map[], rows, seq(|c.requests|, _ => Fresh), [])
  }

  function Play(c: Config, rows: Rows, run: seq<Event>): State {
    if run == [] then Start(c, rows) else Step(c, Play(c, rows, run[..|run| - 1]), run[|run| - 1])
  }

  predicate InOrder(run: seq<Event>) {
    forall i, j :: 0 <= i < j < |run| ==> run[i].at <= run[j].at
  }

  function End(run: seq<Event>): nat {
    if run == [] then 0 else run[|run| - 1].at
  }

  // ---------- One handler, uninterrupted ----------

  datatype Answer = Ok200(result: IngressResult) | Expired | Replayed | NotStored(why: Refusal)

  /** The instants of the check, the reservation and the release. */
  datatype Instants = Instants(check: nat, reserve: nat, release: nat)

  /** The four steps of request 0 in a row. */
  function Alone(c: Config, s: State, dir: Directory, ending: Ending, t: Instants): State {
    var s1 := Step(c, s, Event(t.check, Check(0)));
    var s2 := Step(c, s1, Event(t.reserve, Reserve(0)));
    var s3 := Step(c, s2, Event(t.reserve, Persist(0, dir, ending)));
    Step(c, s3, Event(t.release, Release(0)))
  }

  method ReceiveIngress(server: Server, store: MessageStore, skew: nat, r: Request, dir: Directory, ending: Ending,
                        t: Instants)
    returns (answer: Answer)
    requires server.clock <= t.reserve <= t.release
    modifies server, store
    ensures var before := State(old(server.table), old(store.State()), [Fresh], []);
            var s := Alone(Config(skew, [r]), before, dir, ending, t);
            && server.table == s.table && store.State() == s.rows && |s.phases| == 1
            && match answer
               case Ok200(result) => s.phases[0] == Accepted(t.check, t.reserve, result)
               case Expired => s.phases[0] == SignatureExpired
               case Replayed => s.phases[0] == ReplayDetected
               case NotStored(why) =>
                 && s.phases[0] == GivenBack
                 && Received(before.rows, r.input, r.endpoint, dir, ending).1 == Err(why)
  {
    if DurationAbs(Since(t.check * SECOND, r.timestamp)) > skew {
      return Expired;
    }
    var replayKey := r.ReplayKey();
    var reserved := server.Reserve(replayKey, r.token, MaxDuration(2 * skew, 60 * SECOND), t.reserve);
    if !reserved {
      return Replayed;
    }
    var releaseReservation := true;
    var result := store.ReceiveIngress(r.input, r.endpoint, dir, ending);
    if result.Ok? {
      releaseReservation := false;
      answer := Ok200(result.value);
    } else {
      answer := NotStored(result.error);
    }
    if releaseReservation {
      server.Release(replayKey, r.token, t.release);
    }
  }

  // ---------- What is stored and answered ----------

  /** The message an accepted request was told of is stored under its delivery. */
  ghost predicate RowOf(c: Config, s: State, i: nat)
    requires i < |c.requests| && i < |s.phases| && s.phases[i].Accepted?
  {
    var row := Find(s.rows.messages, s.phases[i].answer.domainId, c.requests[i].input.deliveryKey);
    row.Some? && row.value.id == s.phases[i].answer.messageId
  }

  ghost predicate RowsOf(c: Config, s: State) {
    && |s.phases| == |c.requests|
    && forall i :: 0 <= i < |c.requests| && s.phases[i].Accepted? ==> RowOf(c, s, i)
  }

  predicate Logged(s: State, i: nat) {
    exists n :: 0 <= n < |s.log| && s.log[n].request == i
  }

  /** The log holds each acceptance once. */
  ghost predicate LogComplete(s: State) {
    && (forall n :: 0 <= n < |s.log| ==>
          && s.log[n].request < |s.phases| && s.phases[s.log[n].request].Accepted?
          && s.phases[s.log[n].request].answer == s.log[n].answer)
    && (forall i :: 0 <= i < |s.phases| && s.phases[i].Accepted? ==> Logged(s, i))
    && forall m, n :: 0 <= m < n < |s.log| ==> s.log[m].request != s.log[n].request
  }

  predicate SameDeliveryAccepted(c: Config, a: Acceptance, b: Acceptance) {
    && a.request < |c.requests| && b.request < |c.requests|
    && a.answer.domainId == b.answer.domainId
    && c.requests[a.request].input.deliveryKey == c.requests[b.request].input.deliveryKey
  }

  /** Of two acceptances of one delivery the later is a duplicate of the same message. */
  ghost predicate LaterAreDuplicates(c: Config, log: seq<Acceptance>) {
    forall m, n :: 0 <= m < n < |log| && SameDeliveryAccepted(c, log[m], log[n]) ==>
      log[n].answer.duplicate && log[n].answer.messageId == log[m].answer.messageId
  }

  ghost predicate LogSound(c: Config, s: State) {
    Sound(s.rows) && RowsOf(c, s) && LogComplete(s) && LaterAreDuplicates(c, s.log)
  }

  lemma RowsStay(c: Config, s: State, rows: Rows)
    requires RowsOf(c, s) && Sound(rows) && Kept(s.rows.messages, rows.messages)
    ensures RowsOf(c, s.(rows := rows))
  {
    forall i | 0 <= i < |c.requests| && s.phases[i].Accepted?
      ensures RowOf(c, s.(rows := rows), i)
    {
      assert RowOf(c, s, i);
      KeptFinds(s.rows.messages, rows.messages, rows.nextId, rows.jobs, s.phases[i].answer.domainId,
                c.requests[i].input.deliveryKey);
    }
  }

  /** A request that was not accepted moves on without being accepted. */
  lemma OthersStay(c: Config, s: State, i: nat, phase: Phase, table: Table)
    requires RowsOf(c, s) && LogComplete(s) && i < |s.phases| && !s.phases[i].Accepted? && !phase.Accepted?
    ensures RowsOf(c, s.(phases := s.phases[i := phase], table := table))
    ensures LogComplete(s.(phases := s.phases[i := phase], table := table))
  {
    var s' := s.(phases := s.phases[i := phase], table := table);
    forall j | 0 <= j < |c.requests| && s'.phases[j].Accepted?
      ensures RowOf(c, s', j) && Logged(s', j)
    {
      assert RowOf(c, s, j) && Logged(s, j);
      var n :| 0 <= n < |s.log| && s.log[n].request == j;
      assert s'.log[n].request == j;
    }
  }

  lemma LogGrowsByOne(s: State, i: nat, phase: Phase)
    requires LogComplete(s) && i < |s.phases| && !s.phases[i].Accepted? && phase.Accepted?
    ensures LogComplete(s.(phases := s.phases[i := phase], log := s.log + [Acceptance(i, phase.answer)]))
  {
    var s' := s.(phases := s.phases[i := phase], log := s.log + [Acceptance(i, phase.answer)]);
    assert s'.log[|s.log|].request == i;
    forall j | 0 <= j < |s'.phases| && s'.phases[j].Accepted?
      ensures Logged(s', j)
    {
      if j != i {
        assert Logged(s, j);
        var n :| 0 <= n < |s.log| && s.log[n].request == j;
        assert s'.log[n].request == j;
      }
    }
  }

  /** Accepting request `i` after its transaction left its row. */
  lemma AcceptedOne(c: Config, s: State, i: nat, phase: Phase)
    requires RowsOf(c, s) && LogComplete(s) && LaterAreDuplicates(c, s.log)
    requires i < |s.phases| && !s.phases[i].Accepted? && phase.Accepted?
    requires var row := Find(s.rows.messages, phase.answer.domainId, c.requests[i].input.deliveryKey);
             row.Some? && row.value.id == phase.answer.messageId
    requires forall n :: 0 <= n < |s.log| && SameDeliveryAccepted(c, s.log[n], Acceptance(i, phase.answer)) ==>
               phase.answer.duplicate
    ensures var s' := s.(phases := s.phases[i := phase], log := s.log + [Acceptance(i, phase.answer)]);
            RowsOf(c, s') && LogComplete(s') && LaterAreDuplicates(c, s'.log)
  {
    var s' := s.(phases := s.phases[i := phase], log := s.log + [Acceptance(i, phase.answer)]);
    forall j | 0 <= j < |c.requests| && s'.phases[j].Accepted?
      ensures RowOf(c, s', j)
    {
      assert j != i ==> RowOf(c, s, j);
    }
    LogGrowsByOne(s, i, phase);
    forall n | 0 <= n < |s.log| && SameDeliveryAccepted(c, s'.log[n], s'.log[|s.log|])
      ensures s'.log[n].answer.messageId == phase.answer.messageId
    {
      assert s'.log[n] == s.log[n];
      assert RowOf(c, s, s.log[n].request);
    }
  }

  lemma PersistKeepsLog(c: Config, s: State, e: Event)
    requires LogSound(c, s) && e.action.Persist?
    ensures LogSound(c, Step(c, s, e))
  {
    var i := e.action.request;
    if i < |c.requests| && s.phases[i].Holding? {
      var input, endpoint := c.requests[i].input, c.requests[i].endpoint;
      var (rows, result) := Received(s.rows, input, endpoint, e.action.dir, e.action.ending);
      ReceivedKeeps(s.rows, input, endpoint, e.action.dir, e.action.ending);
      RowsStay(c, s, rows);
      var stored := s.(rows := rows);
      if result.Ok? {
        forall n | 0 <= n < |s.log| && SameDeliveryAccepted(c, s.log[n], Acceptance(i, result.value))
          ensures result.value.duplicate
        {
          assert RowOf(c, s, s.log[n].request);
        }
        AcceptedOne(c, stored, i, Accepted(s.phases[i].check, s.phases[i].reserve, result.value));
      } else {
        OthersStay(c, stored, i, Failed(s.phases[i].check, s.phases[i].reserve), s.table);
      }
    }
  }

  lemma StepKeepsLog(c: Config, s: State, e: Event)
    requires LogSound(c, s)
    ensures LogSound(c, Step(c, s, e))
  {
    var s' := Step(c, s, e);
    match e.action
    case Persist(_, _, _) => PersistKeepsLog(c, s, e);
    case DeleteMailbox(mailboxId) =>
      UnlinkedKeeps(s.rows, mailboxId);
      RowsStay(c, s, s'.rows);
    case _ =>
      var i := e.action.request;
      if i < |c.requests| && s' != s {
        OthersStay(c, s, i, s'.phases[i], s'.table);
      }
  }

  /**
   In every interleaving, with failures, crashes and expiries anywhere: one row for each delivery, at
   most one job for each message; every acceptance names the row of its delivery, and of two
   acceptances of one delivery the later is a duplicate of the same message.
   */
  lemma {:induction false} StoredOnce(c: Config, rows: Rows, run: seq<Event>)
    requires Sound(rows)
    ensures LogSound(c, Play(c, rows, run))
  {
    if run != [] {
      StoredOnce(c, rows, run[..|run| - 1]);
      StepKeepsLog(c, Play(c, rows, run[..|run| - 1]), run[|run| - 1]);
    }
  }

  lemma {:induction false} LogGrows(c: Config, rows: Rows, run: seq<Event>, n: nat)
    requires n <= |run|
    ensures Play(c, rows, run[..n]).log <= Play(c, rows, run).log
  {
    if n == |run| {
      assert run[..n] == run;
    } else {
      LogGrows(c, rows, run[..|run| - 1], n);
      assert run[..|run| - 1][..n] == run[..n];
    }
  }

  /** A request accepted after another of its delivery was accepted is a duplicate of the same message. */
  lemma AcceptedAgain(c: Config, rows: Rows, run: seq<Event>, n: nat, first: nat, again: nat)
    requires Sound(rows) && n <= |run| && first < |c.requests| && again < |c.requests|
    requires c.requests[again].input.deliveryKey == c.requests[first].input.deliveryKey
    requires var early, late := Play(c, rows, run[..n]), Play(c, rows, run);
             && first < |early.phases| && again < |early.phases| && again < |late.phases|
             && early.phases[first].Accepted? && !early.phases[again].Accepted? && late.phases[again].Accepted?
             && late.phases[again].answer.domainId == early.phases[first].answer.domainId
    ensures var early, late := Play(c, rows, run[..n]), Play(c, rows, run);
            && late.phases[again].answer.duplicate
            && late.phases[again].answer.messageId == early.phases[first].answer.messageId
  {
    var early, late := Play(c, rows, run[..n]), Play(c, rows, run);
    StoredOnce(c, rows, run[..n]);
    StoredOnce(c, rows, run);
    LogGrows(c, rows, run, n);
    assert Logged(early, first) && Logged(late, again);
    var i :| 0 <= i < |early.log| && early.log[i].request == first;
    var j :| 0 <= j < |late.log| && late.log[j].request == again;
    assert forall k :: 0 <= k < |early.log| ==> late.log[k] == early.log[k];
    if j < |early.log| {
      assert false;
    }
    assert SameDeliveryAccepted(c, late.log[i], late.log[j]);
  }

  /** A forward job appears only in the step that stores its message, and a stored delivery stays. */
  lemma JobsComeWithTheirMessage(c: Config, s: State, e: Event)
    requires Sound(s.rows)
    ensures e.action.DeleteMailbox? || Grown(s.rows, Step(c, s, e).rows)
    ensures e.action.DeleteMailbox? ==> Step(c, s, e).rows.jobs == s.rows.jobs
    ensures Kept(s.rows.messages, Step(c, s, e).rows.messages)
  {
    if e.action.Persist? {
      var i := e.action.request;
      if i < |c.requests| && i < |s.phases| && s.phases[i].Holding? {
        ReceivedKeeps(s.rows, c.requests[i].input, c.requests[i].endpoint, e.action.dir, e.action.ending);
      }
    }
  }

  // ---------- Reservations ----------

  predicate Keeps(p: Phase) {
    p.Holding? || p.Accepted? || p.Failed?
  }

  /** Until it expires, the reservation of a request that neither gave it back nor was refused is in the table. */
  ghost predicate Owns(c: Config, s: State, now: nat, i: nat)
    requires i < |c.requests| == |s.phases|
  {
    Keeps(s.phases[i]) ==>
      && s.phases[i].check <= s.phases[i].reserve <= now
      && PassesSkew(s.phases[i].check * SECOND, c.requests[i].timestamp, c.skew)
      && (now < s.phases[i].reserve + c.Hold() ==>
            && c.requests[i].ReplayKey() in s.table
            && s.table[c.requests[i].ReplayKey()] == Entry(Text(c.requests[i].token), s.phases[i].reserve + c.Hold()))
  }

  ghost predicate CheckedInTime(c: Config, s: State, now: nat, i: nat)
    requires i < |c.requests| == |s.phases|
  {
    s.phases[i].Checked? ==>
      s.phases[i].check <= now && PassesSkew(s.phases[i].check * SECOND, c.requests[i].timestamp, c.skew)
  }

  ghost predicate AllOwn(c: Config, s: State, now: nat) {
    && |s.phases| == |c.requests|
    && forall i :: 0 <= i < |c.requests| ==> Owns(c, s, now, i) && CheckedInTime(c, s, now, i)
  }

  lemma StepKeepsOwner(c: Config, s: State, now: nat, e: Event, i: nat)
    requires c.DistinctTokens() && AllOwn(c, s, now) && now <= e.at && i < |c.requests|
    ensures |Step(c, s, e).phases| == |c.requests|
    ensures Owns(c, Step(c, s, e), e.at, i) && CheckedInTime(c, Step(c, s, e), e.at, i)
  {
    assert Owns(c, s, now, i) && CheckedInTime(c, s, now, i);
    match e.action
    case Reserve(j) =>
    case Release(j) =>
      if j < |c.requests| && j != i {
        assert c.requests[if i < j then i else j].token != c.requests[if i < j then j else i].token;
      }
    case _ =>
  }

  /** With request ids distinct, no step of one request removes or replaces the live reservation of another. */
  lemma {:induction false} ReservationsStand(c: Config, rows: Rows, run: seq<Event>)
    requires c.DistinctTokens() && InOrder(run)
    ensures AllOwn(c, Play(c, rows, run), End(run))
  {
    if run != [] {
      var init := run[..|run| - 1];
      ReservationsStand(c, rows, init);
      var s := Play(c, rows, init);
      var s' := Step(c, s, run[|run| - 1]);
      assert |s'.phases| == |c.requests|;
      forall i | 0 <= i < |c.requests|
        ensures Owns(c, s', End(run), i) && CheckedInTime(c, s', End(run), i)
      {
        StepKeepsOwner(c, s, End(init), run[|run| - 1], i);
      }
    }
  }

  /** Two checks of one timestamp in range lie at most twice the skew apart. */
  lemma ChecksAreClose(first: nat, second: nat, timestamp: int, skew: nat)
    requires first * SECOND <= MAX_INT64 && second * SECOND <= MAX_INT64 && skew < MAX_INT64
    requires MIN_INT64 <= timestamp <= MAX_INT64
    requires PassesSkew(first * SECOND, timestamp, skew) && PassesSkew(second * SECOND, timestamp, skew)
    requires !OutOfRange(first * SECOND, timestamp) && !OutOfRange(second * SECOND, timestamp)
    ensures second <= first + Seconds(MaxDuration(2 * skew, 60 * SECOND))
  {
    SkewExactly(first * SECOND, timestamp, skew);
    SkewExactly(second * SECOND, timestamp, skew);
    var hold := MaxDuration(2 * skew, 60 * SECOND);
    assert (second - first) * SECOND <= hold < (Seconds(hold) + 1) * SECOND;
  }

  /**
   A signed request accepted once and presented again is refused while the accepted one's reservation
   lives, and that is at least until its check when the timestamp is in range. A request that passes
   its check at the last instant can outlive the reservation: it is then a duplicate (AcceptedAgain).
   */
  lemma PresentedAgain(c: Config, rows: Rows, run: seq<Event>, first: nat, again: nat, at: nat)
    requires c.DistinctTokens() && InOrder(run) && End(run) <= at && at * SECOND <= MAX_INT64 && c.skew < MAX_INT64
    requires first < |c.requests| && again < |c.requests|
    requires c.requests[again].ReplayKey() == c.requests[first].ReplayKey()
    requires c.requests[again].timestamp == c.requests[first].timestamp
             && MIN_INT64 <= c.requests[first].timestamp <= MAX_INT64
    requires var s := Play(c, rows, run);
             first < |s.phases| && again < |s.phases| && s.phases[first].Accepted? && s.phases[again].Checked?
    ensures var s := Play(c, rows, run);
            var expiry := s.phases[first].reserve + c.Hold();
            var s' := Step(c, s, Event(at, Reserve(again)));
            && (at < expiry ==> s' == s.(phases := s.phases[again := ReplayDetected]))
            && (!OutOfRange(s.phases[first].check * SECOND, c.requests[first].timestamp)
                && !OutOfRange(s.phases[again].check * SECOND, c.requests[first].timestamp)
                ==> s.phases[again].check <= expiry)
  {
    var s := Play(c, rows, run);
    ReservationsStand(c, rows, run);
    assert Owns(c, s, End(run), first) && CheckedInTime(c, s, End(run), again);
    if !OutOfRange(s.phases[first].check * SECOND, c.requests[first].timestamp)
       && !OutOfRange(s.phases[again].check * SECOND, c.requests[first].timestamp) {
      ChecksAreClose(s.phases[first].check, s.phases[again].check, c.requests[first].timestamp, c.skew);
    }
  }

  /** A release takes away a live reservation exactly when it was made under the same request id. */
  lemma ReleaseNeedsOwner(t: Table, at: nat, key: string, owner: string, token: string)
    requires Live(t, at, key) && t[key].value == Redis.Text(owner)
    ensures Live(Released(t, at, key, token), at, key) <==> owner != token
    ensures owner != token ==> Released(t, at, key, token) == t
  {
  }

  /** A reservation given back leaves its key free at once, for the retry of a delivery that failed. */
  lemma FailedDeliveryMayRetry(c: Config, rows: Rows, run: seq<Event>, i: nat, at: nat)
    requires c.DistinctTokens() && InOrder(run) && End(run) <= at && i < |c.requests|
    requires i < |Play(c, rows, run).phases| && Play(c, rows, run).phases[i].Failed?
    requires at < Play(c, rows, run).phases[i].reserve + c.Hold()
    ensures c.requests[i].ReplayKey() !in Step(c, Play(c, rows, run), Event(at, Release(i))).table
  {
    ReservationsStand(c, rows, run);
    assert Owns(c, Play(c, rows, run), End(run), i);
  }

  // ---------- The handler by its outcomes ----------

  /** A reservation lasts twice the allowed skew, and at least a minute. */
  lemma HoldIs(c: Config, seconds: nat)
    requires c.skew == seconds * 1_000_000_000
    ensures c.Hold() == if seconds >= 30 then 2 * seconds else 60
  {
  }

  lemma HandlerRefusesLate(c: Config, s: State, dir: Directory, ending: Ending, t: Instants)
    requires |c.requests| == 1 == |s.phases| && s.phases[0].Fresh?
    requires !PassesSkew(t.check * SECOND, c.requests[0].timestamp, c.skew)
    ensures Alone(c, s, dir, ending, t) == s.(phases := [SignatureExpired])
  {
  }

  lemma HandlerRefusesReplay(c: Config, s: State, dir: Directory, ending: Ending, t: Instants)
    requires |c.requests| == 1 == |s.phases| && s.phases[0].Fresh?
    requires PassesSkew(t.check * SECOND, c.requests[0].timestamp, c.skew)
    requires Live(s.table, t.reserve, c.requests[0].ReplayKey())
    ensures Alone(c, s, dir, ending, t) == s.(phases := [ReplayDetected])
  {
  }

  /**
   A request in time whose key is free is stored or not as its transaction says; its reservation then
   stands for the whole
   hold when it was stored, and is gone when it was not and is given back in time.
   */
  lemma HandlerStores(c: Config, s: State, dir: Directory, ending: Ending, t: Instants)
    requires |c.requests| == 1 == |s.phases| && s.phases[0].Fresh?
    requires PassesSkew(t.check * SECOND, c.requests[0].timestamp, c.skew)
    requires !Live(s.table, t.reserve, c.requests[0].ReplayKey()) && t.reserve <= t.release
    ensures var r := c.requests[0];
            var s', (rows, result) := Alone(c, s, dir, ending, t), Received(s.rows, r.input, r.endpoint, dir, ending);
            && s'.rows == rows && |s'.phases| == 1
            && (result.Ok? ==>
                  && s'.phases[0] == Accepted(t.check, t.reserve, result.value)
                  && s'.table == s.table[r.ReplayKey() := Entry(Redis.Text(r.token), t.reserve + c.Hold())]
                  && s'.log == s.log + [Acceptance(0, result.value)])
            && (result.Err? ==>
                  && s'.phases[0] == GivenBack && s'.log == s.log
                  && !Live(s'.table, t.release, r.ReplayKey()))
  {
  }
}
