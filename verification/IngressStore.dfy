/** Routing of a delivered message and its insert-or-find transaction. */
module IngressStore {
  import opened Text
  import opened Wrappers

  datatype Mailbox = Mailbox(id: int, domainId: int, status: string, forwardMode: string, forwardTo: Option<string>)

  datatype Domain = Domain(id: int, status: string, canReceive: bool, catchAllEnabled: bool,
                           catchAllTarget: Option<int>)

  /** What the lookups of one request find. */
  datatype Directory = Directory(
    domains: map<string, Domain>,
    byAddress: map<string, Mailbox>,
    byAlias: map<string, Mailbox>,
    byId: map<int, Mailbox>)

  datatype Input = Input(domain: string, matchedAddress: string, deliveryKey: string)

  datatype Endpoint = Endpoint(id: int, domainId: Option<int>)

  datatype Refusal =
    | EndpointDomainMismatch
    | DomainNotFound
    | DomainDisabled
    | DomainReceiveDisabled
    | DomainMailboxNotFound
    | DomainMailboxDisabled
    | StoreError

  // ---------- Routing ----------

  datatype Target = Target(route: string, mailbox: Mailbox)

  /** The mailboxes an address may reach, in order of precedence. */
  function Candidates(dir: Directory, domain: Domain, address: string): seq<Target> {
    (if address in dir.byAddress then [Target("EXACT_MAILBOX", dir.byAddress[address])] else [])
    + (if address in dir.byAlias then [Target("ALIAS", dir.byAlias[address])] else [])
    + (if domain.catchAllEnabled && domain.catchAllTarget.Some? && domain.catchAllTarget.value in dir.byId
       then [Target("CATCH_ALL", dir.byId[domain.catchAllTarget.value])] else [])
  }

  /** The first candidate that belongs to the domain. */
  predicate IsTarget(dir: Directory, domain: Domain, address: string, target: Result<Target, Refusal>) {
    var all := Candidates(dir, domain, address);
    match target
    case Ok(t) =>
      exists i :: 0 <= i < |all| && all[i] == t && t.mailbox.domainId == domain.id
                  && forall j :: 0 <= j < i ==> all[j].mailbox.domainId != domain.id
    case Err(e) => e == DomainMailboxNotFound && forall i :: 0 <= i < |all| ==> all[i].mailbox.domainId != domain.id
  }

  function ResolveIngressTarget(dir: Directory, domain: Domain, address: string): (r: Result<Target, Refusal>)
    ensures IsTarget(dir, domain, address, r)
  {
    var all := Candidates(dir, domain, address);
    if address in dir.byAddress && dir.byAddress[address].domainId == domain.id then
      var t := Target("EXACT_MAILBOX", dir.byAddress[address]);
      assert all[0] == t;
      Ok(t)
    else if address in dir.byAlias && dir.byAlias[address].domainId == domain.id then
      var t := Target("ALIAS", dir.byAlias[address]);
      assert all[if address in dir.byAddress then 1 else 0] == t;
      Ok(t)
    else if domain.catchAllEnabled && domain.catchAllTarget.Some? && domain.catchAllTarget.value in dir.byId
            && dir.byId[domain.catchAllTarget.value].domainId == domain.id then
      var t := Target("CATCH_ALL", dir.byId[domain.catchAllTarget.value]);
      assert all[|all| - 1] == t;
      Ok(t)
    else Err(DomainMailboxNotFound)
  }

  function Admission(input: Input, endpoint: Endpoint, dir: Directory): Result<Target, Refusal> {
    if input.domain !in dir.domains then Err(DomainNotFound)
    else
      var domain := dir.domains[input.domain];
      if endpoint.domainId.Some? && endpoint.domainId.value != domain.id then Err(EndpointDomainMismatch)
      else if domain.status != "ACTIVE" then Err(DomainDisabled)
      else if !domain.canReceive then Err(DomainReceiveDisabled)
      else
        match ResolveIngressTarget(dir, domain, input.matchedAddress)
        case Err(e) => Err(e)
        case Ok(target) => if target.mailbox.status != "ACTIVE" then Err(DomainMailboxDisabled) else Ok(target)
  }

  // ---------- The tables ----------

  /** A stored message; a deleted mailbox leaves it without one. */
  datatype Message = Message(id: nat, domainId: int, deliveryKey: string, mailboxId: Option<int>, route: Option<string>)

  function MessageFor(id: nat, domainId: int, deliveryKey: string, target: Target): Message {
    Message(id, domainId, deliveryKey, Some(target.mailbox.id), Some(target.route))
  }

  datatype Job = Job(messageId: nat, mailboxId: int, mode: string, forwardTo: string)

  datatype Rows = Rows(messages: seq<Message>, jobs: seq<Job>, nextId: nat)

  datatype IngressResult = IngressResult(duplicate: bool, route: string, domainId: int, mailboxId: int, messageId: nat)

  function Find(messages: seq<Message>, domainId: int, deliveryKey: string): (found: Option<Message>)
    ensures found.Some? ==> found.value in messages
    ensures found.Some? ==> found.value.domainId == domainId && found.value.deliveryKey == deliveryKey
    ensures found.None? ==> forall m :: m in messages ==> !(m.domainId == domainId && m.deliveryKey == deliveryKey)
  {
    if messages == [] then None
    else if messages[0].domainId == domainId && messages[0].deliveryKey == deliveryKey then Some(messages[0])
    else Find(messages[1..], domainId, deliveryKey)
  }

  predicate Forwards(mailbox: Mailbox) {
    mailbox.forwardMode != "DISABLED" && mailbox.forwardTo.Some? && TrimSpace(mailbox.forwardTo.value) != ""
  }

  function JobFor(messageId: nat, mailbox: Mailbox): Job
    requires Forwards(mailbox)
  {
    Job(messageId, mailbox.id, mailbox.forwardMode, TrimSpace(mailbox.forwardTo.value))
  }

  predicate HasJob(jobs: seq<Job>, messageId: nat) {
    exists i :: 0 <= i < |jobs| && jobs[i].messageId == messageId
  }

  /** What the transaction leaves when it commits, and its answer. */
  function Committed(rows: Rows, target: Target, deliveryKey: string): (Rows, IngressResult) {
    var domainId := target.mailbox.domainId;
    match Find(rows.messages, domainId, deliveryKey)
    case Some(m) =>
      (rows.(nextId := rows.nextId + 1),
       IngressResult(true,
                     if m.route.Some? && TrimSpace(m.route.value) != "" then m.route.value else target.route,
                     domainId,
                     if m.mailboxId.Some? then m.mailboxId.value else target.mailbox.id,
                     m.id))
    case None =>
      var id := rows.nextId;
      (Rows(rows.messages + [MessageFor(id, domainId, deliveryKey, target)],
            if Forwards(target.mailbox) && !HasJob(rows.jobs, id) then rows.jobs + [JobFor(id, target.mailbox)]
            else rows.jobs,
            id + 1),
       IngressResult(false, target.route, domainId, target.mailbox.id, id))
  }

  /** How the transaction ends: its failure may be reported although it committed. */
  datatype Ending = Committing | RolledBack | CommittedUnheard

  function Received(rows: Rows, input: Input, endpoint: Endpoint, dir: Directory, ending: Ending)
    : (Rows, Result<IngressResult, Refusal>)
  {
    match Admission(input, endpoint, dir)
    case Err(e) => (rows, Err(e))
    case Ok(target) =>
      var (rows', result) := Committed(rows, target, input.deliveryKey);
      match ending
      case Committing => (rows', Ok(result))
      case CommittedUnheard => (rows', Err(StoreError))
      case RolledBack => (rows.(nextId := rows.nextId + 1), Err(StoreError))
  }

  class MessageStore {
    var messages: seq<Message>
    var jobs: seq<Job>
    var nextId: nat

    function State(): Rows
      reads this
    {
      Rows(messages, jobs, nextId)
    }

    constructor ()
      ensures State() == Rows([], [], 0)
    {
      messages, jobs, nextId := [], [], 0;
    }

    /** INSERT … ON CONFLICT (domain_id, delivery_key) DO NOTHING RETURNING id */
    method InsertMessage(domainId: int, deliveryKey: string, target: Target) returns (id: Option<nat>)
      modifies this
      ensures jobs == old(jobs) && nextId == old(nextId) + 1
      ensures match Find(old(messages), domainId, deliveryKey)
              case Some(_) => id == None && messages == old(messages)
              case None => id == Some(old(nextId))
                           && messages == old(messages) + [MessageFor(old(nextId), domainId, deliveryKey, target)]
    {
      nextId := nextId + 1;
      if Find(messages, domainId, deliveryKey).Some? {
        return None;
      }
      messages := messages + [MessageFor(nextId - 1, domainId, deliveryKey, target)];
      id := Some(nextId - 1);
    }

    /** INSERT … ON CONFLICT (inbound_message_id) DO NOTHING */
    method InsertJob(messageId: nat, mailbox: Mailbox)
      requires Forwards(mailbox)
      modifies this`jobs
      ensures jobs == if HasJob(old(jobs), messageId) then old(jobs) else old(jobs) + [JobFor(messageId, mailbox)]
    {
      var i := 0;
      while i < |jobs|
        invariant 0 <= i <= |jobs|
        invariant forall j :: 0 <= j < i ==> jobs[j].messageId != messageId
      {
        if jobs[i].messageId == messageId {
          return;
        }
        i := i + 1;
      }
      jobs := jobs + [JobFor(messageId, mailbox)];
    }

    method ReceiveIngress(input: Input, endpoint: Endpoint, dir: Directory, ending: Ending)
      returns (result: Result<IngressResult, Refusal>)
      modifies this
      ensures (State(), result) == Received(old(State()), input, endpoint, dir, ending)
    {
      if input.domain !in dir.domains {
        return Err(DomainNotFound);
      }
      var domain := dir.domains[input.domain];
      if endpoint.domainId.Some? && endpoint.domainId.value != domain.id {
        return Err(EndpointDomainMismatch);
      }
      if domain.status != "ACTIVE" {
        return Err(DomainDisabled);
      }
      if !domain.canReceive {
        return Err(DomainReceiveDisabled);
      }
      var resolved := ResolveIngressTarget(dir, domain, input.matchedAddress);
      if resolved.Err? {
        return Err(resolved.error);
      }
      var target := resolved.value;
      if target.mailbox.status != "ACTIVE" {
        return Err(DomainMailboxDisabled);
      }
      var before, beforeJobs := messages, jobs;
      var mailboxId, route := target.mailbox.id, target.route;
      var inserted := InsertMessage(domain.id, input.deliveryKey, target);
      var messageId;
      if inserted.None? {
        var existing := Find(messages, domain.id, input.deliveryKey).value;
        messageId := existing.id;
        if existing.mailboxId.Some? {
          mailboxId := existing.mailboxId.value;
        }
        if existing.route.Some? && TrimSpace(existing.route.value) != "" {
          route := existing.route.value;
        }
      } else {
        messageId := inserted.value;
        if Forwards(target.mailbox) {
          InsertJob(messageId, target.mailbox);
        }
      }
      if ending == RolledBack {
        messages, jobs := before, beforeJobs;
      }
      if ending != Committing {
        return Err(StoreError);
      }
      return Ok(IngressResult(inserted.None?, route, domain.id, mailboxId, messageId));
    }
  }

  // ---------- What every transaction keeps ----------

  predicate SameDelivery(a: Message, b: Message) {
    a.domainId == b.domainId && a.deliveryKey == b.deliveryKey
  }

  /** One row per delivery and per id, one job per message, and every job has its message. */
  ghost predicate Sound(rows: Rows) {
    OneRowEach(rows.messages, rows.nextId) && OneJobEach(rows.messages, rows.jobs)
  }

  predicate OneRowEach(messages: seq<Message>, nextId: nat) {
    && (forall i, j :: 0 <= i < j < |messages| ==>
          !SameDelivery(messages[i], messages[j]) && messages[i].id != messages[j].id)
    && forall i :: 0 <= i < |messages| ==> messages[i].id < nextId
  }

  predicate OneJobEach(messages: seq<Message>, jobs: seq<Job>) {
    && (forall i, j :: 0 <= i < j < |jobs| ==> jobs[i].messageId != jobs[j].messageId)
    && forall i :: 0 <= i < |jobs| ==> HasMessage(messages, jobs[i].messageId)
  }

  predicate HasMessage(messages: seq<Message>, id: nat) {
    exists i :: 0 <= i < |messages| && messages[i].id == id
  }

  lemma KeptHasMessage(before: seq<Message>, after: seq<Message>, id: nat)
    requires Kept(before, after) && HasMessage(before, id)
    ensures HasMessage(after, id)
  {
    var i :| 0 <= i < |before| && before[i].id == id;
    assert after[i].id == id;
  }

  /** Deliveries and ids never change; a mailbox may be unlinked. */
  ghost predicate Kept(before: seq<Message>, after: seq<Message>) {
    && |before| <= |after|
    && forall i :: 0 <= i < |before| ==> SameDelivery(before[i], after[i]) && before[i].id == after[i].id
  }

  /** The rows one transaction may leave: nothing changed, or one message more with at most one job, its own. */
  ghost predicate Grown(before: Rows, after: Rows) {
    || (after.messages == before.messages && after.jobs == before.jobs)
    || (&& |after.messages| == |before.messages| + 1 && after.messages[..|before.messages|] == before.messages
        && Find(before.messages, after.messages[|before.messages|].domainId,
                after.messages[|before.messages|].deliveryKey).None?
        && (|| after.jobs == before.jobs
            || (|after.jobs| == |before.jobs| + 1 && after.jobs[..|before.jobs|] == before.jobs
                && after.jobs[|before.jobs|].messageId == after.messages[|before.messages|].id)))
  }

  lemma RowInserted(messages: seq<Message>, nextId: nat, m: Message)
    requires OneRowEach(messages, nextId) && m.id == nextId && Find(messages, m.domainId, m.deliveryKey).None?
    ensures OneRowEach(messages + [m], nextId + 1) && Kept(messages, messages + [m])
    ensures Find(messages + [m], m.domainId, m.deliveryKey) == Some(m)
  {
    FindAppended(messages, m);
  }

  lemma {:induction false} FindAppended(messages: seq<Message>, m: Message)
    requires Find(messages, m.domainId, m.deliveryKey).None?
    ensures Find(messages + [m], m.domainId, m.deliveryKey) == Some(m)
  {
    if messages != [] {
      FindAppended(messages[1..], m);
      assert (messages + [m])[1..] == messages[1..] + [m];
    }
  }

  lemma JobInserted(before: seq<Message>, after: seq<Message>, nextId: nat, jobs: seq<Job>, job: Job)
    requires OneRowEach(before, nextId) && OneJobEach(before, jobs) && Kept(before, after)
    requires job.messageId >= nextId && HasMessage(after, job.messageId)
    ensures OneJobEach(after, jobs) && OneJobEach(after, jobs + [job])
  {
    forall i | 0 <= i < |jobs|
      ensures HasMessage(after, jobs[i].messageId) && jobs[i].messageId < nextId
    {
      KeptHasMessage(before, after, jobs[i].messageId);
    }
  }

  lemma CommittedKeeps(rows: Rows, target: Target, deliveryKey: string)
    requires Sound(rows)
    ensures var (rows', result) := Committed(rows, target, deliveryKey);
            && Sound(rows') && Grown(rows, rows') && Kept(rows.messages, rows'.messages)
            && result.domainId == target.mailbox.domainId
            && Find(rows'.messages, result.domainId, deliveryKey).Some?
            && Find(rows'.messages, result.domainId, deliveryKey).value.id == result.messageId
            && (result.duplicate <==> Find(rows.messages, result.domainId, deliveryKey).Some?)
  {
    if Find(rows.messages, target.mailbox.domainId, deliveryKey).None? {
      var m := Message(rows.nextId, target.mailbox.domainId, deliveryKey, Some(target.mailbox.id), Some(target.route));
      RowInserted(rows.messages, rows.nextId, m);
      assert (rows.messages + [m])[|rows.messages|].id == m.id;
      JobInserted(rows.messages, rows.messages + [m], rows.nextId, rows.jobs, Job(m.id, 0, "", ""));
      if Forwards(target.mailbox) {
        JobInserted(rows.messages, rows.messages + [m], rows.nextId, rows.jobs, JobFor(m.id, target.mailbox));
      }
    }
  }

  lemma ReceivedKeeps(rows: Rows, input: Input, endpoint: Endpoint, dir: Directory, ending: Ending)
    requires Sound(rows)
    ensures var (rows', result) := Received(rows, input, endpoint, dir, ending);
            && Sound(rows') && Grown(rows, rows') && Kept(rows.messages, rows'.messages)
            && (ending == RolledBack || (result.Err? && result.error != StoreError)
                ==> rows'.messages == rows.messages && rows'.jobs == rows.jobs)
            && (result.Ok? ==>
                  && var answer := result.value;
                  && (endpoint.domainId.Some? ==> answer.domainId == endpoint.domainId.value)
                  && Find(rows'.messages, answer.domainId, input.deliveryKey).Some?
                  && Find(rows'.messages, answer.domainId, input.deliveryKey).value.id == answer.messageId
                  && (answer.duplicate <==> Find(rows.messages, answer.domainId, input.deliveryKey).Some?))
  {
    var admission := Admission(input, endpoint, dir);
    if admission.Ok? {
      CommittedKeeps(rows, admission.value, input.deliveryKey);
    }
  }

  /** Repeating a committed transaction, heard or not, stores nothing and answers with the first one's message. */
  lemma RepeatIsDuplicate(rows: Rows, input: Input, endpoint: Endpoint, dir: Directory, ending: Ending, dir': Directory)
    requires Sound(rows) && ending != RolledBack
    requires Admission(input, endpoint, dir).Ok? && Admission(input, endpoint, dir').Ok?
    requires Admission(input, endpoint, dir).value.mailbox.domainId
             == Admission(input, endpoint, dir').value.mailbox.domainId
    ensures var rows' := Received(rows, input, endpoint, dir, ending).0;
            var (rows'', again) := Received(rows', input, endpoint, dir', Committing);
            && rows''.messages == rows'.messages && rows''.jobs == rows'.jobs
            && again.Ok? && again.value.duplicate
            && Find(rows'.messages, again.value.domainId, input.deliveryKey)
                == Find(rows''.messages, again.value.domainId, input.deliveryKey)
            && Find(rows'.messages, again.value.domainId, input.deliveryKey).Some?
            && Find(rows'.messages, again.value.domainId, input.deliveryKey).value.id == again.value.messageId
  {
    var target := Admission(input, endpoint, dir).value;
    CommittedKeeps(rows, target, input.deliveryKey);
    CommittedKeeps(Committed(rows, target, input.deliveryKey).0, Admission(input, endpoint, dir').value,
                   input.deliveryKey);
  }

  /** A delivery keeps the row and the id it once had. */
  lemma KeptFinds(before: seq<Message>, after: seq<Message>, nextId: nat, jobs: seq<Job>, domainId: int,
                  deliveryKey: string)
    requires Kept(before, after) && Sound(Rows(after, jobs, nextId))
    requires Find(before, domainId, deliveryKey).Some?
    ensures Find(after, domainId, deliveryKey).Some?
    ensures Find(after, domainId, deliveryKey).value.id == Find(before, domainId, deliveryKey).value.id
  {
    var m := Find(before, domainId, deliveryKey).value;
    var i :| 0 <= i < |before| && before[i] == m;
    assert SameDelivery(before[i], after[i]);
    assert after[i] in after;
    var m' := Find(after, domainId, deliveryKey).value;
    var k :| 0 <= k < |after| && after[k] == m';
    if k != i {
      assert SameDelivery(after[k], after[i]);
      assert false;
    }
  }

  /** Deleting a mailbox takes it off its messages. */
  function Unlinked(messages: seq<Message>, mailboxId: int): (after: seq<Message>)
    ensures Kept(messages, after) && |after| == |messages|
  {
    if messages == [] then []
    else [if messages[0].mailboxId == Some(mailboxId) then messages[0].(mailboxId := None) else messages[0]]
         + Unlinked(messages[1..], mailboxId)
  }

  lemma UnlinkedKeeps(rows: Rows, mailboxId: int)
    requires Sound(rows)
    ensures Sound(rows.(messages := Unlinked(rows.messages, mailboxId)))
  {
    var after := Unlinked(rows.messages, mailboxId);
    forall i, j | 0 <= i < j < |after|
      ensures !SameDelivery(after[i], after[j]) && after[i].id != after[j].id
    {
      assert SameDelivery(rows.messages[i], after[i]) && SameDelivery(rows.messages[j], after[j]);
      assert !SameDelivery(rows.messages[i], rows.messages[j]);
    }
    forall i | 0 <= i < |rows.jobs|
      ensures HasMessage(after, rows.jobs[i].messageId)
    {
      KeptHasMessage(rows.messages, after, rows.jobs[i].messageId);
    }
  }

  // ---------- Forwarding ----------

  /** The message has a job, this one. */
  predicate JobIs(rows: Rows, job: Job) {
    exists i :: 0 <= i < |rows.jobs| && rows.jobs[i] == job
  }

  lemma NoJobYet(rows: Rows)
    requires Sound(rows)
    ensures !HasJob(rows.jobs, rows.nextId)
  {
    forall i | 0 <= i < |rows.jobs|
      ensures rows.jobs[i].messageId < rows.nextId
    {
      assert HasMessage(rows.messages, rows.jobs[i].messageId);
      var j :| 0 <= j < |rows.messages| && rows.messages[j].id == rows.jobs[i].messageId;
    }
  }

  /**
   A delivery stored for the first time has a job, and only one, exactly when its mailbox forwards: the mode is not
   DISABLED and the address is there and not blank. The job is for this mailbox, in its mode, to the trimmed address.
   */
  lemma FirstDeliveryForwards(rows: Rows, input: Input, endpoint: Endpoint, dir: Directory)
    requires Sound(rows)
    requires var r := Received(rows, input, endpoint, dir, Committing).1; r.Ok? && !r.value.duplicate
    ensures Admission(input, endpoint, dir).Ok?
    ensures var (rows', r) := Received(rows, input, endpoint, dir, Committing);
            var id, m := r.value.messageId, Admission(input, endpoint, dir).value.mailbox;
            var forwards := m.forwardMode != "DISABLED" && m.forwardTo.Some? && TrimSpace(m.forwardTo.value) != "";
            && (HasJob(rows'.jobs, id) <==> forwards)
            && (forwards ==> JobIs(rows', Job(id, m.id, m.forwardMode, TrimSpace(m.forwardTo.value))))
            && (forall i, j :: 0 <= i < j < |rows'.jobs| && rows'.jobs[i].messageId == id ==>
                  rows'.jobs[j].messageId != id)
            && r.value.mailboxId == m.id && rows'.messages == rows.messages + [rows'.messages[|rows.messages|]]
  {
    ReceivedKeeps(rows, input, endpoint, dir, Committing);
    NoJobYet(rows);
    var (rows', r) := Received(rows, input, endpoint, dir, Committing);
    var n := |rows.jobs|;
    if |rows'.jobs| > n {
      assert rows'.jobs[n].messageId == r.value.messageId;
    }
  }

  /** A duplicate never makes a job. */
  lemma DuplicatesDoNotForward(rows: Rows, input: Input, endpoint: Endpoint, dir: Directory, ending: Ending)
    requires Admission(input, endpoint, dir).Ok?
    requires Find(rows.messages, Admission(input, endpoint, dir).value.mailbox.domainId, input.deliveryKey).Some?
    ensures Received(rows, input, endpoint, dir, ending).0.jobs == rows.jobs
  {
  }

  /** The row of a first delivery: what was asked, where it was routed, under the id that is answered. */
  lemma FirstDeliveryRow(rows: Rows, input: Input, endpoint: Endpoint, dir: Directory)
    requires var r := Received(rows, input, endpoint, dir, Committing).1; r.Ok? && !r.value.duplicate
    ensures var (rows', r) := Received(rows, input, endpoint, dir, Committing);
            && |rows'.messages| == |rows.messages| + 1
            && var m := rows'.messages[|rows.messages|];
               && m.id == r.value.messageId && m.domainId == r.value.domainId && m.deliveryKey == input.deliveryKey
               && m.mailboxId == Some(r.value.mailboxId) && m.route == Some(r.value.route)
  {
  }

  /**
   A duplicate is answered with the mailbox and the route of the first delivery, and with those of today's routing where
   the row has lost them.
   */
  lemma DuplicateAnswer(rows: Rows, input: Input, endpoint: Endpoint, dir: Directory)
    requires var r := Received(rows, input, endpoint, dir, Committing).1; r.Ok? && r.value.duplicate
    ensures var r := Received(rows, input, endpoint, dir, Committing).1.value;
            var first := Find(rows.messages, r.domainId, input.deliveryKey);
            && first.Some? && first.value.id == r.messageId
            && Admission(input, endpoint, dir).Ok?
            && var today := Admission(input, endpoint, dir).value;
               && r.mailboxId == (if first.value.mailboxId == None then today.mailbox.id
                                  else first.value.mailboxId.value)
               && r.route == (if first.value.route == None || TrimSpace(first.value.route.value) == "" then today.route
                              else first.value.route.value)
  {
  }

  /** Exactly when, and with which error, a delivery is turned away before anything is stored. */
  lemma AdmissionIs(input: Input, endpoint: Endpoint, dir: Directory)
    ensures var known := input.domain in dir.domains;
            var a := Admission(input, endpoint, dir);
            && (a == Err(DomainNotFound) <==> !known)
            && (known ==>
                  var d := dir.domains[input.domain];
                  var foreign := endpoint.domainId.Some? && endpoint.domainId.value != d.id;
                  && (a == Err(EndpointDomainMismatch) <==> foreign)
                  && (a == Err(DomainDisabled) <==> !foreign && d.status != "ACTIVE")
                  && (a == Err(DomainReceiveDisabled) <==> !foreign && d.status == "ACTIVE" && !d.canReceive)
                  && (a.Ok? ==> && !foreign && d.status == "ACTIVE" && d.canReceive
                                && a.value.mailbox.status == "ACTIVE"
                                && IsTarget(dir, d, input.matchedAddress, a))
                  && (a == Err(DomainMailboxDisabled) ==>
                        exists t :: IsTarget(dir, d, input.matchedAddress, Ok(t)) && t.mailbox.status != "ACTIVE"))
  {
    if input.domain in dir.domains {
      var target := ResolveIngressTarget(dir, dir.domains[input.domain], input.matchedAddress);
      assert target.Ok? ==> IsTarget(dir, dir.domains[input.domain], input.matchedAddress, Ok(target.value));
    }
  }

  /**
   Where an address goes: its own mailbox before an alias's, that before the domain's catch-all mailbox, which must be
   enabled; mailboxes of other domains are passed over, and the route names which it was.
   */
  lemma RoutesAre(dir: Directory, domain: Domain, address: string)
    ensures var r := ResolveIngressTarget(dir, domain, address);
            var exact := address in dir.byAddress && dir.byAddress[address].domainId == domain.id;
            var alias := address in dir.byAlias && dir.byAlias[address].domainId == domain.id;
            var catchAll := domain.catchAllEnabled && domain.catchAllTarget.Some?
                            && domain.catchAllTarget.value in dir.byId
                            && dir.byId[domain.catchAllTarget.value].domainId == domain.id;
            && (exact ==> r == Ok(Target("EXACT_MAILBOX", dir.byAddress[address])))
            && (!exact && alias ==> r == Ok(Target("ALIAS", dir.byAlias[address])))
            && (!exact && !alias && catchAll ==> r == Ok(Target("CATCH_ALL", dir.byId[domain.catchAllTarget.value])))
            && (!exact && !alias && !catchAll ==> r == Err(DomainMailboxNotFound))
  {
  }

  /** Deleting a mailbox takes it off its own messages and changes nothing else. */
  lemma {:induction false} UnlinkedIs(messages: seq<Message>, mailboxId: int, i: nat)
    requires i < |messages|
    ensures var m, m' := messages[i], Unlinked(messages, mailboxId)[i];
            if m.mailboxId.Some? && m.mailboxId.value == mailboxId then m' == m.(mailboxId := None) else m' == m
  {
    if i > 0 {
      UnlinkedIs(messages[1..], mailboxId, i - 1);
    }
  }
}
