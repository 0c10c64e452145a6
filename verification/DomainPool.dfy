/** The pool of domain mailboxes, in the order of their domains. */
module DomainPool {
  import opened Allocation
  import opened PoolStats
  import opened Wrappers

  datatype Domain = Domain(active: bool, canReceive: bool)

  datatype Mailbox = Mailbox(id: int, domainId: int, pooled: bool, active: bool, batchTag: Option<string>)

  /** An empty tag and an empty list of domains allow everything. */
  datatype Selector = Selector(batchTag: string, domainIds: seq<int>) {

    predicate Covers(m: Mailbox, domains: map<int, Domain>) {
      && m.pooled && m.active
      && m.domainId in domains && domains[m.domainId].active && domains[m.domainId].canReceive
      && (batchTag == "" || m.batchTag == Some(batchTag))
      && (domainIds == [] || m.domainId in domainIds)
    }
  }

  function Pool(mailboxes: seq<Mailbox>, domains: map<int, Domain>, s: Selector): seq<Candidate> {
    if mailboxes == [] then []
    else
      var m := mailboxes[0];
      (if s.Covers(m, domains) then [Candidate(m.id, Some(m.domainId))] else []) + Pool(mailboxes[1..], domains, s)
  }

  /** ORDER BY domain_id, id */
  predicate ByDomain(mailboxes: seq<Mailbox>) {
    && (forall i, j :: 0 <= i < j < |mailboxes| ==>
          mailboxes[i].domainId < mailboxes[j].domainId
          || (mailboxes[i].domainId == mailboxes[j].domainId && mailboxes[i].id < mailboxes[j].id))
    && forall i, j :: 0 <= i < j < |mailboxes| ==> mailboxes[i].id != mailboxes[j].id
  }

  predicate ComesFrom(c: Candidate, m: Mailbox) {
    c == Candidate(m.id, Some(m.domainId))
  }

  lemma {:induction false} PoolContents(mailboxes: seq<Mailbox>, domains: map<int, Domain>, s: Selector, c: Candidate)
    ensures c in Pool(mailboxes, domains, s) <==> exists m :: m in mailboxes && s.Covers(m, domains) && ComesFrom(c, m)
  {
    if mailboxes != [] {
      PoolContents(mailboxes[1..], domains, s, c);
      assert forall m :: m in mailboxes <==> m == mailboxes[0] || m in mailboxes[1..];
    }
  }

  lemma {:induction false} PoolInOrder(mailboxes: seq<Mailbox>, domains: map<int, Domain>, s: Selector)
    requires ByDomain(mailboxes)
    ensures Allocation.InOrder(Pool(mailboxes, domains, s)) && DistinctIds(Pool(mailboxes, domains, s))
  {
    if mailboxes != [] {
      var m, rest := mailboxes[0], Pool(mailboxes[1..], domains, s);
      PoolInOrder(mailboxes[1..], domains, s);
      forall i | 0 <= i < |rest|
        ensures Candidate(m.id, Some(m.domainId)).Before(rest[i]) && rest[i].id != m.id
      {
        PoolContents(mailboxes[1..], domains, s, rest[i]);
        var o :| o in mailboxes[1..] && s.Covers(o, domains) && ComesFrom(rest[i], o);
        var j :| 0 <= j < |mailboxes[1..]| && mailboxes[1..][j] == o;
        assert mailboxes[j + 1] == o;
      }
    }
  }

  /** The usage a reset leaves; the number of rows it deleted is its answer. */
  function Reset(usage: set<Use>, key: int, pool: seq<Candidate>): set<Use> {
    usage - Pairs(key, Ids(pool))
  }

  lemma WithoutIds(usage: set<Use>, key: int, ids: set<int>)
    ensures |usage| - |usage - Pairs(key, ids)| == |UsedBy(usage, key) * ids|
    ensures UsedBy(usage - Pairs(key, ids), key) * ids == {}
  {
    var gone := UsedBy(usage, key) * ids;
    PairsCount(key, gone);
    assert usage - Pairs(key, ids) == usage - Pairs(key, gone) && Pairs(key, gone) <= usage;
  }

  lemma ResetDeletesTheUsed(usage: set<Use>, key: int, mailboxes: seq<Mailbox>, domains: map<int, Domain>, s: Selector)
    requires ByDomain(mailboxes)
    ensures var pool := Pool(mailboxes, domains, s);
            var after := Reset(usage, key, pool);
            && |usage| - |after| == Stats(pool, UsedBy(usage, key)).used
            && Stats(pool, UsedBy(after, key)) == AllocationStats(|pool|, 0, |pool|)
  {
    var pool := Pool(mailboxes, domains, s);
    PoolInOrder(mailboxes, domains, s);
    WithoutIds(usage, key, Ids(pool));
    StatsAddUp(pool, UsedBy(usage, key));
    StatsAddUp(pool, UsedBy(Reset(usage, key, pool), key));
    CountUsedIs(pool, UsedBy(usage, key));
  }

  /** An allocation in flight has chosen one of these mailboxes. */
  predicate ChoseFrom(tx: Tx, mailboxes: seq<Mailbox>) {
    tx.choice.Some? ==> exists m :: m in mailboxes && ComesFrom(tx.choice.value, m)
  }

  /**
   Of the domain pool, whatever the selector: while allocations in flight have chosen from it, a selection finds
   nothing exactly when every mailbox the key does not use is in a domain of one of theirs.
   */
  lemma SelectionIsRefused(st: State, key: int, mailboxes: seq<Mailbox>, domains: map<int, Domain>, s: Selector)
    requires ByDomain(mailboxes) && NoneLeftOver(st.txs)
    requires forall t :: t in st.txs ==> ChoseFrom(st.txs[t], mailboxes)
    ensures var pool := Pool(mailboxes, domains, s);
            Scan(pool, UsedBy(st.usage, key), Locked(st.txs)).None?
            <==> OnlyBusyDomains(st, key, pool)
  {
    var pool := Pool(mailboxes, domains, s);
    forall o | o in pool
      ensures FromDomains(st.txs, o)
    {
      PoolContents(mailboxes, domains, s, o);
    }
    RefusedExactlyWhenBlocked(st, key, pool);
  }

  /** The pool by the mailboxes' own fields. */
  lemma PoolByFields(mailboxes: seq<Mailbox>, domains: map<int, Domain>, s: Selector, m: Mailbox)
    requires ByDomain(mailboxes) && m in mailboxes
    ensures Candidate(m.id, Some(m.domainId)) in Pool(mailboxes, domains, s) <==>
            && m.pooled && m.active
            && m.domainId in domains && domains[m.domainId].active && domains[m.domainId].canReceive
            && (s.batchTag == "" || m.batchTag == Some(s.batchTag))
            && (|s.domainIds| == 0 || m.domainId in s.domainIds)
  {
    PoolContents(mailboxes, domains, s, Candidate(m.id, Some(m.domainId)));
    var i :| 0 <= i < |mailboxes| && mailboxes[i] == m;
    forall o | o in mailboxes && o.id == m.id
      ensures o == m
    {
      var j :| 0 <= j < |mailboxes| && mailboxes[j] == o;
    }
  }
}
