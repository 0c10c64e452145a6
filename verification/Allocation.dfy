/**
 Allocation of mailboxes to API keys by concurrent transactions: select the first unused mailbox whose
 rows nobody locks, record its use, commit or abort. The selection sees the committed usage and takes
 its locks in one atomic step.
 */
module Allocation {
  import opened Wrappers

  /** What a selection locks: the mailbox's row and, where the statement joins it, its domain's row. */
  datatype Row = MailboxRow(id: int) | DomainRow(id: int)

  datatype Candidate = Candidate(id: int, domain: Option<int>) {

    function Rows(): set<Row> {
      {MailboxRow(id)} + if domain.Some? then {DomainRow(domain.value)} else {}
    }

    predicate Free(locked: set<Row>) {
      Rows() !! locked
    }

    predicate Before(other: Candidate) {
      var d, d' := if domain.Some? then domain.value else 0, if other.domain.Some? then other.domain.value else 0;
      d < d' || (d == d' && id < other.id)
    }
  }

  /** Candidates in the order of the statement, which is by domain and then by id. */
  predicate InOrder(candidates: seq<Candidate>) {
    forall i, j :: 0 <= i < j < |candidates| ==> candidates[i].Before(candidates[j])
  }

  /** A usage row. */
  datatype Use = Use(key: int, id: int)

  // ---------- One selection ----------

  /** SELECT … ORDER BY … FOR UPDATE SKIP LOCKED LIMIT 1 */
  function Scan(candidates: seq<Candidate>, used: set<int>, locked: set<Row>): Option<Candidate> {
    if candidates == [] then None
    else if candidates[0].id !in used && candidates[0].Free(locked) then Some(candidates[0])
    else Scan(candidates[1..], used, locked)
  }

  /** The least unused candidate with no locked row; none exactly when every unused one has a locked row. */
  lemma {:induction false} ScanFindsLeast(candidates: seq<Candidate>, used: set<int>, locked: set<Row>)
    requires InOrder(candidates)
    ensures match Scan(candidates, used, locked)
            case Some(c) =>
              && c in candidates && c.id !in used && c.Free(locked)
              && forall o :: o in candidates && o.id !in used && o.Free(locked) ==> o == c || c.Before(o)
            case None => true
    ensures Scan(candidates, used, locked).None? <==> forall o :: o in candidates && o.id !in used ==> !o.Free(locked)
  {
    if candidates != [] {
      assert forall o :: o in candidates <==> o == candidates[0] || o in candidates[1..];
      ScanFindsLeast(candidates[1..], used, locked);
    }
  }

  // ---------- Transactions ----------

  datatype Insertion = Pending | Inserted | Skipped

  /**
   An allocation in flight; `extra` are locks left on rows the scan passed over. One that found nothing
   keeps those until it ends.
   */
  datatype Tx = Tx(key: int, choice: Option<Candidate>, selected: nat, extra: set<Row>, insertion: Insertion) {

    function Locks(): set<Row> {
      extra + if choice.Some? then choice.value.Rows() else {}
    }

    predicate Chose(id: int) {
      choice.Some? && choice.value.id == id
    }
  }

  /** A committed allocation, with the numbers of the steps that selected and committed it. */
  datatype Allocated = Allocated(key: int, id: int, selected: nat, committed: nat)

  datatype State = State(usage: set<Use>, txs: map<nat, Tx>, log: seq<Allocated>)

  datatype Event =
    | Select(tx: nat, key: int, candidates: seq<Candidate>, extra: set<Row>)
    | Insert(tx: nat)
    | Commit(tx: nat)
    | Abort(tx: nat)
    | Apply(key: int, add: set<int>, remove: set<int>)

  function Locked(txs: map<nat, Tx>): set<Row> {
    set t, r | t in txs && r in txs[t].Locks() :: r
  }

  function UsedBy(usage: set<Use>, key: int): (ids: set<int>)
    ensures forall id :: id in ids <==> Use(key, id) in usage
  {
    var ids := set u | u in usage && u.key == key :: u.id;
    assert forall id :: Use(key, id) in usage ==> Use(key, id).id in ids;
    ids
  }

  function Pairs(key: int, ids: set<int>): (pairs: set<Use>)
    ensures forall u :: u in pairs <==> u.key == key && u.id in ids
  {
    set id | id in ids :: Use(key, id)
  }

  lemma Inhabited(ids: set<int>)
    ensures ids == {} || exists id :: id in ids
  {
    if forall id :: id !in ids {
      assert ids == {};
    }
  }

  lemma {:induction false} PairsCount(key: int, ids: set<int>)
    ensures |Pairs(key, ids)| == |ids|
  {
    if ids == {} {
      assert Pairs(key, ids) == {};
    } else {
      Inhabited(ids);
      var id :| id in ids;
      PairsCount(key, ids - {id});
      assert Pairs(key, ids) == Pairs(key, ids - {id}) + {Use(key, id)};
    }
  }

  /** Adding a usage row takes a share lock on the mailbox's row, so it waits for an allocation that holds it. */
  predicate MayApply(s: State, add: set<int>) {
    forall id :: id in add ==> MailboxRow(id) !in Locked(s.txs)
  }

  function Applied(usage: set<Use>, key: int, add: set<int>, remove: set<int>): set<Use> {
    usage - Pairs(key, remove) + Pairs(key, add)
  }

  /** Step number `n`; one that is not enabled changes nothing. */
  function Step(s: State, n: nat, e: Event): State {
    match e
    case Select(t, key, candidates, extra) =>
      if t in s.txs || !(extra !! Locked(s.txs)) then s
      else
        var choice := Scan(candidates, UsedBy(s.usage, key), Locked(s.txs));
        s.(txs := s.txs[t := Tx(key, choice, n, extra, Pending)])
    case Insert(t) =>
      if t in s.txs && s.txs[t].insertion == Pending && s.txs[t].choice.Some? then
        var tx := s.txs[t];
        var found := Use(tx.key, tx.choice.value.id) in s.usage;
        s.(txs := s.txs[t := tx.(insertion := if found then Skipped else Inserted)])
      else s
    case Commit(t) =>
      if t in s.txs && s.txs[t].insertion != Pending && s.txs[t].choice.Some? then
        var tx := s.txs[t];
        var id := tx.choice.value.id;
        State(if tx.insertion == Inserted then s.usage + {Use(tx.key, id)} else s.usage,
              s.txs - {t},
              s.log + [Allocated(tx.key, id, tx.selected, n)])
      else s
    case Abort(t) => s.(txs := s.txs - {t})
    case Apply(key, add, remove) =>
      if MayApply(s, add) then s.(usage := Applied(s.usage, key, add, remove)) else s
  }

  function Play(usage: set<Use>, run: seq<Event>): State {
    if run == [] then State(usage, map[], [])
    else Step(Play(usage, run[..|run| - 1]), |run| - 1, run[|run| - 1])
  }

  /** Some step from number `from` on and before number `to` takes the mailbox away from the key. */
  predicate Removed(run: seq<Event>, key: int, id: int, from: nat, to: nat) {
    exists r :: from <= r < to && r < |run| && Removes(run[r], key, id)
  }

  predicate Removes(e: Event, key: int, id: int) {
    e.Apply? && e.key == key && id in e.remove && id !in e.add
  }

  // ---------- What every interleaving keeps ----------

  /** Allocations in flight hold different rows and mailboxes their keys do not use. */
  ghost predicate Separate(s: State) {
    && (forall t, t' :: t in s.txs && t' in s.txs && t != t' ==> s.txs[t].Locks() !! s.txs[t'].Locks())
    && forall t :: t in s.txs ==> Unused(s, s.txs[t])
  }

  ghost predicate Unused(s: State, tx: Tx) {
    && tx.insertion != Skipped
    && (tx.choice.Some? ==> Use(tx.key, tx.choice.value.id) !in s.usage)
    && (tx.choice.None? ==> tx.insertion == Pending)
  }

  /** A chosen mailbox's row is locked. */
  lemma ChosenIsLocked(txs: map<nat, Tx>, t: nat)
    requires t in txs && txs[t].choice.Some?
    ensures MailboxRow(txs[t].choice.value.id) in txs[t].Locks() && txs[t].Locks() <= Locked(txs)
  {
  }

  lemma StepKeepsLocksApart(s: State, n: nat, e: Event, t: nat, o: nat)
    requires Separate(s) && t in Step(s, n, e).txs && o in Step(s, n, e).txs && t != o
    ensures Step(s, n, e).txs[t].Locks() !! Step(s, n, e).txs[o].Locks()
  {
    if e.Select? && Step(s, n, e) != s {
      var (added, other) := if t == e.tx then (t, o) else (o, t);
      SelectedIsFree(e.candidates, UsedBy(s.usage, e.key), Locked(s.txs));
      if t == e.tx || o == e.tx {
        assert s.txs[other].Locks() <= Locked(s.txs);
      }
    }
  }

  lemma StepKeepsUnused(s: State, n: nat, e: Event, t: nat)
    requires Separate(s) && t in Step(s, n, e).txs
    ensures Unused(Step(s, n, e), Step(s, n, e).txs[t])
  {
    if t in s.txs {
      assert Unused(s, s.txs[t]);
      if s.txs[t].choice.Some? {
        ChosenIsLocked(s.txs, t);
      }
    }
    match e
    case Select(_, key, candidates, _) => SelectedIsFree(candidates, UsedBy(s.usage, key), Locked(s.txs));
    case Commit(c) =>
      if c in s.txs && s.txs[c].choice.Some? {
        ChosenIsLocked(s.txs, c);
      }
    case _ =>
  }

  lemma StepKeepsSeparate(s: State, n: nat, e: Event)
    requires Separate(s)
    ensures Separate(Step(s, n, e))
  {
    var s' := Step(s, n, e);
    forall t, o | t in s'.txs && o in s'.txs && t != o
      ensures s'.txs[t].Locks() !! s'.txs[o].Locks()
    {
      StepKeepsLocksApart(s, n, e, t, o);
    }
    forall t | t in s'.txs
      ensures Unused(s', s'.txs[t])
    {
      StepKeepsUnused(s, n, e, t);
    }
  }

  lemma {:induction false} SelectedIsFree(candidates: seq<Candidate>, used: set<int>, locked: set<Row>)
    ensures var c := Scan(candidates, used, locked); c.Some? ==> c.value.id !in used && c.value.Free(locked)
  {
    if candidates != [] {
      SelectedIsFree(candidates[1..], used, locked);
    }
  }

  /** Recording a use never meets one that is there: the ON CONFLICT clause does not fire in any interleaving. */
  lemma {:induction false} AllocationsAreSeparate(usage: set<Use>, run: seq<Event>)
    ensures Separate(Play(usage, run))
  {
    if run != [] {
      AllocationsAreSeparate(usage, run[..|run| - 1]);
      StepKeepsSeparate(Play(usage, run[..|run| - 1]), |run| - 1, run[|run| - 1]);
    }
  }

  /** A committed allocation is in use until it is taken away. */
  ghost predicate InUseUntilRemoved(s: State, run: seq<Event>, m: nat)
    requires m < |s.log|
  {
    var a := s.log[m];
    && a.selected < a.committed < |run|
    && (Use(a.key, a.id) in s.usage || Removed(run, a.key, a.id, a.committed + 1, |run|))
  }

  /** An allocation in flight selected its mailbox after it had been taken away from every earlier allocation of it. */
  ghost predicate TakenAwayBefore(s: State, run: seq<Event>, m: nat, key: int, id: int, selected: nat)
    requires m < |s.log|
  {
    s.log[m].key == key && s.log[m].id == id ==> Removed(run, key, id, s.log[m].committed + 1, selected)
  }

  ghost predicate TakenAwayBeforeTx(s: State, run: seq<Event>, m: nat, tx: Tx)
    requires m < |s.log|
  {
    tx.choice.Some? ==> TakenAwayBefore(s, run, m, tx.key, tx.choice.value.id, tx.selected)
  }

  ghost predicate History(s: State, run: seq<Event>) {
    && (forall m :: 0 <= m < |s.log| ==> InUseUntilRemoved(s, run, m))
    && (forall t :: t in s.txs ==> s.txs[t].selected < |run|)
    && (forall t, m :: t in s.txs && 0 <= m < |s.log| ==> TakenAwayBeforeTx(s, run, m, s.txs[t]))
    && forall m, n :: 0 <= m < n < |s.log| ==> TakenAwayBefore(s, run, m, s.log[n].key, s.log[n].id, s.log[n].selected)
  }

  lemma RemovedLater(run: seq<Event>, e: Event, key: int, id: int, from: nat, to: nat)
    requires to <= |run| && Removed(run, key, id, from, to)
    ensures Removed(run + [e], key, id, from, to) && Removed(run + [e], key, id, from, |run| + 1)
  {
    var r :| from <= r < to && r < |run| && Removes(run[r], key, id);
    assert (run + [e])[r] == run[r];
  }

  lemma LogStays(s: State, s': State, run: seq<Event>, e: Event, m: nat)
    requires Separate(s) && History(s, run) && s' == Step(s, |run|, e) && m < |s.log|
    ensures m < |s'.log| && s'.log[m] == s.log[m] && InUseUntilRemoved(s', run + [e], m)
  {
    var a := s.log[m];
    assert InUseUntilRemoved(s, run, m);
    if Use(a.key, a.id) !in s.usage {
      RemovedLater(run, e, a.key, a.id, a.committed + 1, |run|);
    } else if Use(a.key, a.id) !in s'.usage {
      assert (run + [e])[|run|] == e && Removes(e, a.key, a.id);
    }
  }

  lemma EarlierStay(s: State, run: seq<Event>, e: Event, m: nat, key: int, id: int, selected: nat)
    requires m < |s.log| && selected <= |run| && TakenAwayBefore(s, run, m, key, id, selected)
    ensures s.log[m].key == key && s.log[m].id == id ==> Removed(run + [e], key, id, s.log[m].committed + 1, selected)
  {
    if s.log[m].key == key && s.log[m].id == id {
      RemovedLater(run, e, key, id, s.log[m].committed + 1, selected);
    }
  }

  /** A mailbox just selected is unused by its key, so it was taken away from every earlier allocation. */
  lemma SelectedWasTakenAway(s: State, run: seq<Event>, e: Event, m: nat)
    requires Separate(s) && History(s, run) && e.Select? && Step(s, |run|, e) != s && m < |s.log|
    ensures var s' := Step(s, |run|, e);
            m < |s'.log| && e.tx in s'.txs && TakenAwayBeforeTx(s', run + [e], m, s'.txs[e.tx])
  {
    var s' := Step(s, |run|, e);
    var tx := s'.txs[e.tx];
    StepKeepsUnused(s, |run|, e, e.tx);
    if tx.choice.Some? && s.log[m].key == e.key && s.log[m].id == tx.choice.value.id {
      assert InUseUntilRemoved(s, run, m);
      RemovedLater(run, e, e.key, tx.choice.value.id, s.log[m].committed + 1, |run|);
    }
  }

  /** An allocation in flight never holds a mailbox that another one commits. */
  lemma CommittedIsNotInFlight(s: State, n: nat, e: Event, t: nat)
    requires Separate(s) && e.Commit? && Step(s, n, e) != s && t in Step(s, n, e).txs
    ensures t in s.txs && t != e.tx && !s.txs[t].Chose(s.txs[e.tx].choice.value.id)
  {
    ChosenIsLocked(s.txs, e.tx);
    if s.txs[t].choice.Some? {
      ChosenIsLocked(s.txs, t);
    }
  }

  lemma InFlightStay(s: State, run: seq<Event>, e: Event, t: nat, m: nat)
    requires Separate(s) && History(s, run)
    requires var s' := Step(s, |run|, e); t in s'.txs && m < |s'.log|
    ensures var s' := Step(s, |run|, e); TakenAwayBeforeTx(s', run + [e], m, s'.txs[t])
  {
    var s' := Step(s, |run|, e);
    if m < |s.log| {
      LogStays(s, s', run, e, m);
      if t in s.txs {
        assert TakenAwayBeforeTx(s, run, m, s.txs[t]);
        if s.txs[t].choice.Some? {
          EarlierStay(s, run, e, m, s.txs[t].key, s.txs[t].choice.value.id, s.txs[t].selected);
        }
      } else {
        SelectedWasTakenAway(s, run, e, m);
      }
    } else {
      CommittedIsNotInFlight(s, |run|, e, t);
    }
  }

  lemma AllocatedStay(s: State, run: seq<Event>, e: Event, m: nat, n: nat)
    requires Separate(s) && History(s, run)
    requires m < n < |Step(s, |run|, e).log|
    ensures var s' := Step(s, |run|, e);
            TakenAwayBefore(s', run + [e], m, s'.log[n].key, s'.log[n].id, s'.log[n].selected)
  {
    var s' := Step(s, |run|, e);
    LogStays(s, s', run, e, m);
    if n < |s.log| {
      LogStays(s, s', run, e, n);
      assert InUseUntilRemoved(s, run, n);
      EarlierStay(s, run, e, m, s.log[n].key, s.log[n].id, s.log[n].selected);
    } else {
      var tx := s.txs[e.tx];
      assert TakenAwayBeforeTx(s, run, m, tx);
      EarlierStay(s, run, e, m, tx.key, tx.choice.value.id, tx.selected);
    }
  }

  lemma StepKeepsHistory(s: State, run: seq<Event>, e: Event)
    requires Separate(s) && History(s, run)
    ensures History(Step(s, |run|, e), run + [e])
  {
    var s' := Step(s, |run|, e);
    forall m | 0 <= m < |s'.log|
      ensures InUseUntilRemoved(s', run + [e], m)
    {
      if m < |s.log| {
        LogStays(s, s', run, e, m);
      }
    }
    forall t, m | t in s'.txs && 0 <= m < |s'.log|
      ensures TakenAwayBeforeTx(s', run + [e], m, s'.txs[t])
    {
      InFlightStay(s, run, e, t, m);
    }
    forall m, n | 0 <= m < n < |s'.log|
      ensures TakenAwayBefore(s', run + [e], m, s'.log[n].key, s'.log[n].id, s'.log[n].selected)
    {
      AllocatedStay(s, run, e, m, n);
    }
  }

  lemma {:induction false} HistoryHolds(usage: set<Use>, run: seq<Event>)
    ensures History(Play(usage, run), run)
  {
    if run != [] {
      var init := run[..|run| - 1];
      HistoryHolds(usage, init);
      AllocationsAreSeparate(usage, init);
      StepKeepsHistory(Play(usage, init), init, run[|run| - 1]);
      assert init + [run[|run| - 1]] == run;
    }
  }

  /**
   Over every interleaving of allocations, assignments and resets: a key is given the same mailbox
   twice only if, after the first allocation committed and before the second selected, the mailbox
   was taken away from the key.
   */
  lemma AllocatedOnceBetweenRemovals(usage: set<Use>, run: seq<Event>, m: nat, n: nat)
    requires var log := Play(usage, run).log;
             m < n < |log| && log[m].key == log[n].key && log[m].id == log[n].id
    ensures var log := Play(usage, run).log;
            Removed(run, log[m].key, log[m].id, log[m].committed + 1, log[n].selected)
  {
    HistoryHolds(usage, run);
    var s := Play(usage, run);
    assert TakenAwayBefore(s, run, m, s.log[n].key, s.log[n].id, s.log[n].selected);
  }

  // ---------- What a selection finds ----------

  predicate Unavailable(s: State, key: int, o: Candidate) {
    Use(key, o.id) in s.usage || !o.Free(Locked(s.txs))
  }

  /**
   In every reachable state a selection chooses the least candidate its key does not use and nobody has
   locked, whatever locks it leaves on rows it passed over; it finds none exactly when there is none.
   */
  lemma SelectsLeast(usage: set<Use>, run: seq<Event>, t: nat, key: int, candidates: seq<Candidate>, extra: set<Row>)
    requires InOrder(candidates) && t !in Play(usage, run).txs && extra !! Locked(Play(usage, run).txs)
    ensures var s := Play(usage, run);
            var s' := Step(s, |run|, Select(t, key, candidates, extra));
            && t in s'.txs
            && (s'.txs[t].choice.None? <==> forall o :: o in candidates ==> Unavailable(s, key, o))
            && (s'.txs[t].choice.Some? ==>
                  var c := s'.txs[t].choice.value;
                  && c in candidates && !Unavailable(s, key, c)
                  && forall o :: o in candidates && o.Before(c) ==> Unavailable(s, key, o))
  {
    var s := Play(usage, run);
    ScanFindsLeast(candidates, UsedBy(s.usage, key), Locked(s.txs));
  }

  predicate NoneLeftOver(txs: map<nat, Tx>) {
    forall t :: t in txs ==> txs[t].extra == {}
  }

  /** A mailbox account's selection locks one row, so a free account is one that no allocation in flight has chosen. */
  lemma FreeAccount(txs: map<nat, Tx>, c: Candidate)
    requires c.domain.None? && NoneLeftOver(txs)
    requires forall t :: t in txs && txs[t].choice.Some? ==> txs[t].choice.value.domain.None?
    ensures c.Free(Locked(txs)) <==> forall t :: t in txs ==> !txs[t].Chose(c.id)
  {
    assert forall t :: t in txs && txs[t].choice.Some? ==> txs[t].Locks() == {MailboxRow(txs[t].choice.value.id)};
    assert forall t :: t in txs && txs[t].choice.None? ==> txs[t].Locks() == {};
    if t :| t in txs && txs[t].Chose(c.id) {
      ChosenIsLocked(txs, t);
    }
  }

  // ---------- Domains ----------

  /** The allocation in flight has chosen a mailbox of this domain. */
  predicate InDomain(tx: Tx, domain: Option<int>) {
    tx.choice.Some? && tx.choice.value.domain == domain
  }

  predicate DomainBusy(txs: map<nat, Tx>, domain: Option<int>) {
    exists t :: t in txs && InDomain(txs[t], domain)
  }

  /** Allocations of domain mailboxes, each of which has one domain, and candidate `c` among them. */
  predicate FromDomains(txs: map<nat, Tx>, c: Candidate) {
    && c.domain.Some?
    && forall t :: t in txs && txs[t].choice.Some? ==>
         txs[t].choice.value.domain.Some? && (txs[t].Chose(c.id) ==> txs[t].choice.value.domain == c.domain)
  }

  /** A selected domain mailbox keeps two rows. */
  lemma DomainLocks(tx: Tx)
    requires tx.choice.Some? && tx.choice.value.domain.Some?
    ensures tx.Locks() == tx.extra + {MailboxRow(tx.choice.value.id), DomainRow(tx.choice.value.domain.value)}
  {
  }

  /**
   A domain mailbox's selection locks the domain's row too: a mailbox is free exactly when no allocation in
   flight has chosen one of its domain, or left a lock on its rows.
   */
  lemma FreeDomainMailbox(txs: map<nat, Tx>, c: Candidate)
    requires FromDomains(txs, c)
    ensures c.Free(Locked(txs)) <==> !DomainBusy(txs, c.domain) && forall t :: t in txs ==> c.Free(txs[t].extra)
  {
    if t :| t in txs && InDomain(txs[t], c.domain) {
      DomainLocks(txs[t]);
      assert DomainRow(c.domain.value) in Locked(txs) && DomainRow(c.domain.value) in c.Rows();
    } else if t :| t in txs && !c.Free(txs[t].extra) {
      assert txs[t].extra <= txs[t].Locks() <= Locked(txs);
    } else {
      forall t | t in txs
        ensures c.Free(txs[t].Locks())
      {
        if txs[t].choice.Some? {
          DomainLocks(txs[t]);
          assert !InDomain(txs[t], c.domain);
        }
      }
    }
  }

  /** Two domain allocations in flight are never in one domain. */
  lemma OneAllocationPerDomain(usage: set<Use>, run: seq<Event>, t: nat, t': nat, domain: int)
    requires var txs := Play(usage, run).txs; t in txs && t' in txs && t != t' && InDomain(txs[t], Some(domain))
    ensures var txs := Play(usage, run).txs; !InDomain(txs[t'], Some(domain))
  {
    AllocationsAreSeparate(usage, run);
    var txs := Play(usage, run).txs;
    DomainLocks(txs[t]);
    assert forall d :: InDomain(txs[t'], Some(d)) ==> DomainRow(d) in txs[t'].Locks();
  }

  /** An allocation in flight has chosen from the candidate's domain, or left a lock on one of its rows. */
  predicate Blocked(txs: map<nat, Tx>, o: Candidate) {
    DomainBusy(txs, o.domain) || exists t :: t in txs && !o.Free(txs[t].extra)
  }

  /** Every mailbox of the pool that the key does not use is blocked. */
  predicate AllBlocked(s: State, key: int, pool: seq<Candidate>) {
    forall o :: o in pool && Use(key, o.id) !in s.usage ==> Blocked(s.txs, o)
  }

  /**
   Every mailbox of the pool that the key does not use is in a domain from which an allocation in flight has
   chosen.
   */
  predicate OnlyBusyDomains(s: State, key: int, pool: seq<Candidate>) {
    forall o :: o in pool && Use(key, o.id) !in s.usage ==> DomainBusy(s.txs, o.domain)
  }

  lemma {:induction false} ScanFindsNone(candidates: seq<Candidate>, used: set<int>, locked: set<Row>)
    ensures Scan(candidates, used, locked).None? <==> forall o :: o in candidates && o.id !in used ==> !o.Free(locked)
  {
    if candidates != [] {
      assert forall o :: o in candidates <==> o == candidates[0] || o in candidates[1..];
      ScanFindsNone(candidates[1..], used, locked);
    }
  }

  /**
   A selection finds nothing exactly when every mailbox its key does not use is blocked; when no locks are left over,
   exactly when each of them is in a domain from which an allocation in flight has chosen.
   */
  lemma RefusedExactlyWhenBlocked(s: State, key: int, pool: seq<Candidate>)
    requires forall o :: o in pool ==> FromDomains(s.txs, o)
    ensures Scan(pool, UsedBy(s.usage, key), Locked(s.txs)).None? <==> AllBlocked(s, key, pool)
    ensures NoneLeftOver(s.txs) ==>
              (Scan(pool, UsedBy(s.usage, key), Locked(s.txs)).None?
               <==> OnlyBusyDomains(s, key, pool))
  {
    ScanFindsNone(pool, UsedBy(s.usage, key), Locked(s.txs));
    forall o | o in pool
      ensures o.Free(Locked(s.txs)) <==> !Blocked(s.txs, o)
    {
      FreeDomainMailbox(s.txs, o);
    }
  }

  /** The mailbox is unused by the key, and its own row is not locked. */
  predicate UnusedUnlocked(s: State, key: int, o: Candidate) {
    Use(key, o.id) !in s.usage && MailboxRow(o.id) !in Locked(s.txs)
  }

  /** The mailbox is unused by the key, and no allocation in flight has chosen it. */
  predicate Available(s: State, key: int, o: Candidate) {
    Use(key, o.id) !in s.usage && forall t :: t in s.txs ==> !s.txs[t].Chose(o.id)
  }

  /**
   "No unused mailbox" is answered although one is unused and unlocked exactly when all unused ones are in busy
   domains and not all of them are the ones chosen there.
   */
  lemma FalseRefusal(s: State, key: int, pool: seq<Candidate>)
    requires NoneLeftOver(s.txs) && forall o :: o in pool ==> FromDomains(s.txs, o)
    ensures Scan(pool, UsedBy(s.usage, key), Locked(s.txs)).None?
            && (exists o :: o in pool && UnusedUnlocked(s, key, o))
            <==> OnlyBusyDomains(s, key, pool)
                 && exists o :: o in pool && Available(s, key, o)
  {
    RefusedExactlyWhenBlocked(s, key, pool);
    forall o | o in pool
      ensures UnusedUnlocked(s, key, o) <==> Available(s, key, o)
    {
      ChosenRow(s.txs, o);
    }
  }

  lemma ChosenRow(txs: map<nat, Tx>, o: Candidate)
    requires NoneLeftOver(txs) && FromDomains(txs, o)
    ensures MailboxRow(o.id) in Locked(txs) <==> exists t :: t in txs && txs[t].Chose(o.id)
  {
    if t :| t in txs && txs[t].Chose(o.id) {
      ChosenIsLocked(txs, t);
    } else {
      forall t | t in txs
        ensures MailboxRow(o.id) !in txs[t].Locks()
      {
        if txs[t].choice.Some? {
          DomainLocks(txs[t]);
        }
      }
    }
  }

  /** The domain's first allocation makes the pool of one domain look empty to every other key, however large it is. */
  lemma SecondKeyIsRefused(pool: seq<Candidate>, domain: int, key: int, key': int)
    requires |pool| >= 2 && pool[0].id != pool[1].id
    requires forall o :: o in pool ==> o.domain == Some(domain)
    ensures var s := Play({}, [Select(0, key, pool, {})]);
            && s.txs.Keys == {0} && s.txs[0].choice == Some(pool[0])
            && Scan(pool, UsedBy(s.usage, key'), Locked(s.txs)).None?
            && Available(s, key', pool[1])
  {
    var run := [Select(0, key, pool, {})];
    assert run[..0] == [] && Play({}, []) == State({}, map[], []);
    assert UsedBy({}, key) == {} && Locked(map[]) == {};
    var s := Play({}, run);
    assert s == Step(State({}, map[], []), 0, run[0]);
    assert s.txs == map[0 := Tx(key, Some(pool[0]), 0, {}, Pending)];
    assert InDomain(s.txs[0], Some(domain));
    assert pool[0] in pool;
    ScanFindsNone(pool, UsedBy(s.usage, key'), Locked(s.txs));
    DomainLocks(s.txs[0]);
    assert DomainRow(domain) in Locked(s.txs);
    assert forall o :: o in pool ==> DomainRow(domain) in o.Rows();
  }
}
