/** How much of a pool an API key has used. */
module PoolStats {
  import opened Allocation
  import opened Wrappers

  datatype AllocationStats = AllocationStats(total: int, used: int, remaining: int)

  /** COUNT(usage.…) over the pool left-joined with the key's usage rows, of which there is at most one a mailbox. */
  function CountUsed(pool: seq<Candidate>, used: set<int>): nat {
    if pool == [] then 0 else CountUsed(pool[1..], used) + if pool[0].id in used then 1 else 0
  }

  function Stats(pool: seq<Candidate>, used: set<int>): AllocationStats {
    var total, count := |pool|, CountUsed(pool, used);
    AllocationStats(total, count, if total - count < 0 then 0 else total - count)
  }

  function Ids(pool: seq<Candidate>): (ids: set<int>)
    ensures forall c :: c in pool ==> c.id in ids
  {
    set c | c in pool :: c.id
  }

  predicate DistinctIds(pool: seq<Candidate>) {
    forall i, j :: 0 <= i < j < |pool| ==> pool[i].id != pool[j].id
  }

  lemma {:induction false} CountUsedIs(pool: seq<Candidate>, used: set<int>)
    requires DistinctIds(pool)
    ensures CountUsed(pool, used) == |used * Ids(pool)| <= |pool| == |Ids(pool)|
  {
    if pool != [] {
      var rest := pool[1..];
      CountUsedIs(rest, used);
      var id := pool[0].id;
      assert Ids(pool) == Ids(rest) + {id} by {
        assert forall c :: c in pool <==> c == pool[0] || c in rest;
      }
      assert id !in Ids(rest);
      if id in used {
        assert used * Ids(pool) == used * Ids(rest) + {id};
      } else {
        assert used * Ids(pool) == used * Ids(rest);
      }
    }
  }

  /** Whatever runs of allocations, assignments and resets led to the usage: the clamp never applies. */
  lemma StatsAddUp(pool: seq<Candidate>, used: set<int>)
    requires DistinctIds(pool)
    ensures var s := Stats(pool, used);
            && s.used + s.remaining == s.total == |Ids(pool)|
            && s.used == |used * Ids(pool)| && s.remaining == |Ids(pool) - used|
  {
    CountUsedIs(pool, used);
    assert used * Ids(pool) + (Ids(pool) - used) == Ids(pool);
  }

  /** Nothing remains exactly when a selection that no lock disturbs finds nothing. */
  lemma NoneRemains(pool: seq<Candidate>, used: set<int>)
    requires DistinctIds(pool) && Allocation.InOrder(pool)
    ensures Stats(pool, used).remaining == 0 <==> Scan(pool, used, {}).None?
  {
    StatsAddUp(pool, used);
    ScanFindsLeast(pool, used, {});
    if Scan(pool, used, {}).None? {
      forall o | o in pool
        ensures o.id in used
      {
        assert o.Free({});
      }
      assert Ids(pool) - used == {};
    } else {
      var c := Scan(pool, used, {}).value;
      assert c.id in Ids(pool) - used;
    }
  }

  /** An allocation from the pool moves one mailbox from remaining to used. */
  lemma AllocationMovesOne(pool: seq<Candidate>, used: set<int>, c: Candidate)
    requires DistinctIds(pool) && c in pool && c.id !in used
    ensures var before, after := Stats(pool, used), Stats(pool, used + {c.id});
            after == AllocationStats(before.total, before.used + 1, before.remaining - 1)
  {
    StatsAddUp(pool, used);
    StatsAddUp(pool, used + {c.id});
    assert (used + {c.id}) * Ids(pool) == used * Ids(pool) + {c.id};
  }
}
