/** The mail accounts an API key may use: assignment, reset, statistics and allocation. */
module AccountPool {
  import opened Allocation
  import opened PoolStats
  import opened Wrappers

  datatype Account = Account(id: int, groupId: Option<int>, active: bool)

  /** The group asked for, and the scope of the key; an empty list allows everything. */
  datatype Filter = Filter(groupId: Option<int>, allowedGroups: seq<int>, allowedEmails: seq<int>) {

    /** An account without a group satisfies no condition on groups. */
    predicate Covers(a: Account) {
      && (groupId.Some? ==> a.groupId == groupId)
      && (allowedGroups == [] || (a.groupId.Some? && a.groupId.value in allowedGroups))
      && (allowedEmails == [] || a.id in allowedEmails)
    }

    predicate GroupForbidden() {
      groupId.Some? && |allowedGroups| > 0 && groupId.value !in allowedGroups
    }
  }

  // ---------- Requested ids ----------

  /** The positive values, each once, in the order in which they first occur. */
  function Normalized(values: seq<int>): seq<int> {
    if values == [] then []
    else
      var n, last := Normalized(values[..|values| - 1]), values[|values| - 1];
      if last <= 0 || last in n then n else n + [last]
  }

  predicate IsNormal(values: seq<int>) {
    && (forall i :: 0 <= i < |values| ==> values[i] > 0)
    && forall i, j :: 0 <= i < j < |values| ==> values[i] != values[j]
  }

  lemma {:induction false} NormalizedIs(values: seq<int>)
    ensures IsNormal(Normalized(values))
    ensures forall id :: id in Normalized(values) <==> id in values && id > 0
    ensures IsNormal(values) <==> Normalized(values) == values
  {
    if values != [] {
      var init, last := values[..|values| - 1], values[|values| - 1];
      NormalizedIs(init);
      assert values == init + [last];
      if IsNormal(values) {
        assert last !in init;
      }
      NormalizedIsShorter(init);
    }
  }

  lemma {:induction false} NormalizedIsShorter(values: seq<int>)
    ensures |Normalized(values)| <= |values|
  {
    if values != [] {
      NormalizedIsShorter(values[..|values| - 1]);
    }
  }

  method NormalizePositiveIDs(values: seq<int>) returns (result: seq<int>)
    ensures result == Normalized(values)
  {
    var seen: set<int> := {};
    result := [];
    for i := 0 to |values|
      invariant result == Normalized(values[..i])
      invariant forall id :: id in seen <==> id in result
    {
      assert values[..i + 1][..i] == values[..i];
      if values[i] <= 0 || values[i] in seen {
        continue;
      }
      seen := seen + {values[i]};
      result := result + [values[i]];
    }
    assert values[..|values|] == values;
  }

  lemma {:induction false} DistinctCount(values: seq<int>)
    requires forall i, j :: 0 <= i < j < |values| ==> values[i] != values[j]
    ensures |Elements(values)| == |values|
  {
    if values != [] {
      DistinctCount(values[1..]);
      assert Elements(values) == Elements(values[1..]) + {values[0]};
    }
  }

  function Elements(values: seq<int>): set<int> {
    set id | id in values
  }

  // ---------- The tables ----------

  function CoveredIds(accounts: seq<Account>, f: Filter): set<int> {
    set a | a in accounts && f.Covers(a) :: a.id
  }

  function AssignableIds(accounts: seq<Account>, f: Filter): set<int> {
    set a | a in accounts && a.active && f.Covers(a) :: a.id
  }

  /** The key uses exactly `next` among the covered accounts; everything else is as before. */
  function Reassigned(usage: set<Use>, key: int, covered: set<int>, next: set<int>): set<Use> {
    usage - Pairs(key, covered) + Pairs(key, next)
  }

  function ResetUsage(usage: set<Use>, key: int, assignable: set<int>): set<Use> {
    Applied(usage, key, {}, assignable)
  }

  /** The pool in the order of the allocation statement. */
  function Pool(accounts: seq<Account>, f: Filter): (pool: seq<Candidate>)
    ensures forall c :: c in pool <==> c.domain == None && c.id in AssignableIds(accounts, f)
  {
    if accounts == [] then []
    else
      assert forall a :: a in accounts <==> a == accounts[0] || a in accounts[1..];
      var first := accounts[0];
      (if first.active && f.Covers(first) then [Candidate(first.id, None)] else []) + Pool(accounts[1..], f)
  }

  predicate ById(accounts: seq<Account>) {
    forall i, j :: 0 <= i < j < |accounts| ==> accounts[i].id < accounts[j].id
  }

  lemma PoolIds(accounts: seq<Account>, f: Filter)
    ensures Ids(Pool(accounts, f)) == AssignableIds(accounts, f)
  {
    forall id | id in AssignableIds(accounts, f)
      ensures id in Ids(Pool(accounts, f))
    {
      assert Candidate(id, None) in Pool(accounts, f);
    }
  }

  lemma {:induction false} PoolInOrder(accounts: seq<Account>, f: Filter)
    requires ById(accounts)
    ensures Allocation.InOrder(Pool(accounts, f)) && DistinctIds(Pool(accounts, f))
  {
    if accounts != [] {
      var rest := Pool(accounts[1..], f);
      PoolInOrder(accounts[1..], f);
      forall i | 0 <= i < |rest|
        ensures accounts[0].id < rest[i].id && rest[i].domain == None
      {
        assert rest[i] in rest;
      }
    }
  }

  datatype AssignedEmailUpdate = AssignedEmailUpdate(count: int, added: int, removed: int)

  datatype PoolError = GroupForbiddenError | EmailForbidden | NoUnusedEmail(used: int, total: int)

  class AccountStore {
    var accounts: seq<Account>
    var usage: set<Use>

    ghost predicate Valid()
      reads this
    {
      ById(accounts)
    }

    method ContainsInt64(values: seq<int>, target: int) returns (found: bool)
      ensures found <==> target in values
    {
      for i := 0 to |values|
        invariant target !in values[..i]
      {
        if values[i] == target {
          return true;
        }
      }
      return false;
    }

    method GroupForbidden(f: Filter) returns (forbidden: bool)
      ensures forbidden == f.GroupForbidden()
    {
      forbidden := false;
      if f.groupId.Some? && |f.allowedGroups| > 0 {
        var contained := ContainsInt64(f.allowedGroups, f.groupId.value);
        forbidden := !contained;
      }
    }

    method UpdateAssignedEmails(key: int, emailIDs: seq<int>, f: Filter)
      returns (r: Result<AssignedEmailUpdate, PoolError>)
      requires Valid()
      modifies this`usage
      ensures Valid()
      ensures var next := Elements(Normalized(emailIDs));
              var covered := CoveredIds(accounts, f);
              var existing := UsedBy(old(usage), key) * covered;
              && (r == Err(GroupForbiddenError) <==> f.GroupForbidden())
              && (r == Err(EmailForbidden) <==> !f.GroupForbidden() && !(next <= AssignableIds(accounts, f)))
              && (r.Err? ==> usage == old(usage) && (r.error == GroupForbiddenError || r.error == EmailForbidden))
              && (r.Ok? ==>
                    && usage == Reassigned(old(usage), key, covered, next)
                    && r.value == AssignedEmailUpdate(|next|, |next - existing|, |existing - next|))
    {
      var forbidden := GroupForbidden(f);
      if forbidden {
        return Err(GroupForbiddenError);
      }
      var allowed := AssignableIds(accounts, f);
      var normalized := NormalizePositiveIDs(emailIDs);
      NormalizedIs(emailIDs);
      for i := 0 to |normalized|
        invariant forall j :: 0 <= j < i ==> normalized[j] in allowed
      {
        if normalized[i] !in allowed {
          assert normalized[i] in Elements(normalized);
          return Err(EmailForbidden);
        }
      }
      assert Elements(normalized) <= allowed <= CoveredIds(accounts, f);
      var counts := Replace(key, normalized, f);
      return Ok(counts);
    }

    /** Makes the requested accounts the key's only ones among the covered. */
    method Replace(key: int, normalized: seq<int>, f: Filter) returns (r: AssignedEmailUpdate)
      requires IsNormal(normalized) && Elements(normalized) <= CoveredIds(accounts, f)
      modifies this`usage
      ensures var next := Elements(normalized);
              var covered := CoveredIds(accounts, f);
              var existing := UsedBy(old(usage), key) * covered;
              && usage == Reassigned(old(usage), key, covered, next)
              && r == AssignedEmailUpdate(|next|, |next - existing|, |existing - next|)
    {
      var existing := set a | a in accounts && f.Covers(a) && Use(key, a.id) in usage :: a.id;
      assert existing == UsedBy(usage, key) * CoveredIds(accounts, f);
      var next: set<int> := {};
      for i := 0 to |normalized|
        invariant next == Elements(normalized[..i])
        invariant usage == old(usage)
      {
        next := next + {normalized[i]};
      }
      assert normalized[..|normalized|] == normalized;
      DistinctCount(normalized);
      var toAdd := Difference(next, existing);
      var toRemove := Difference(existing, next);
      ReassignedIsApplied(usage, key, CoveredIds(accounts, f), next);
      Execute(key, toAdd, toRemove);
      return AssignedEmailUpdate(|normalized|, |toAdd|, |toRemove|);
    }

    /** One DELETE, when there is something to delete, and one INSERT for each account to add. */
    method Execute(key: int, toAdd: seq<int>, toRemove: seq<int>)
      modifies this`usage
      ensures usage == Applied(old(usage), key, Elements(toAdd), Elements(toRemove))
    {
      if |toRemove| > 0 {
        usage := usage - Pairs(key, set id | id in toRemove);
      }
      ghost var cleared := usage;
      for i := 0 to |toAdd|
        invariant usage == cleared + Pairs(key, Elements(toAdd[..i]))
      {
        assert toAdd[..i + 1] == toAdd[..i] + [toAdd[i]];
        usage := usage + {Use(key, toAdd[i])};
      }
      assert toAdd[..|toAdd|] == toAdd;
    }

    /** The elements of `left` that are not in `right`, in any order. */
    method Difference(left: set<int>, right: set<int>) returns (only: seq<int>)
      ensures Elements(only) == left - right && |only| == |left - right|
    {
      only := [];
      var rest := left;
      while rest != {}
        invariant rest <= left
        invariant forall id :: id in only <==> id in left - rest && id !in right
        invariant forall i, j :: 0 <= i < j < |only| ==> only[i] != only[j]
        decreases rest
      {
        Inhabited(rest);
        var id :| id in rest;
        if id !in right {
          only := only + [id];
        }
        rest := rest - {id};
      }
      DistinctCount(only);
    }

    method ResetEmailAllocations(key: int, f: Filter) returns (error: Option<PoolError>)
      requires Valid()
      modifies this`usage
      ensures Valid()
      ensures error == if f.GroupForbidden() then Some(GroupForbiddenError) else None
      ensures usage == if f.GroupForbidden() then old(usage)
                       else ResetUsage(old(usage), key, AssignableIds(accounts, f))
    {
      var forbidden := GroupForbidden(f);
      if forbidden {
        return Some(GroupForbiddenError);
      }
      usage := usage - Pairs(key, set a | a in accounts && a.active && f.Covers(a) :: a.id);
      assert usage == ResetUsage(old(usage), key, AssignableIds(accounts, f));
      return None;
    }

    /** An allocation that no other transaction disturbs. */
    method AllocateEmail(key: int, f: Filter) returns (r: Result<int, PoolError>)
      requires Valid()
      modifies this`usage
      ensures Valid()
      ensures f.GroupForbidden() ==> r == Err(GroupForbiddenError) && usage == old(usage)
      ensures !f.GroupForbidden() ==>
                var pool := Pool(accounts, f);
                var s := Play(old(usage), Alone(key, pool));
                && usage == s.usage && s.txs == map[]
                && match r
                   case Ok(id) => s.log == [Allocated(key, id, 0, 2)]
                   case Err(e) => s.log == [] && usage == old(usage)
                                  && e == NoUnusedEmail(|pool|, |pool|)
    {
      var forbidden := GroupForbidden(f);
      if forbidden {
        return Err(GroupForbiddenError);
      }
      var pool := Pool(accounts, f);
      UninterruptedAllocation(usage, key, pool);
      var choice := Scan(pool, UsedBy(usage, key), {});
      if choice.Some? {
        usage := usage + {Use(key, choice.value.id)};
        return Ok(choice.value.id);
      }
      var stats := Stats(pool, UsedBy(usage, key));
      RefusalCounts(accounts, f, UsedBy(usage, key));
      return Err(NoUnusedEmail(stats.used, stats.total));
    }
  }

  /** An allocation that finds nothing reports the whole pool as used. */
  lemma RefusalCounts(accounts: seq<Account>, f: Filter, used: set<int>)
    requires ById(accounts) && Scan(Pool(accounts, f), used, {}).None?
    ensures var s := Stats(Pool(accounts, f), used); s.used == s.total == |Pool(accounts, f)|
  {
    PoolInOrder(accounts, f);
    PoolIds(accounts, f);
    NoneRemains(Pool(accounts, f), used);
    StatsAddUp(Pool(accounts, f), used);
  }

  /** The steps of one allocation, with nothing in between; one that finds nothing is rolled back. */
  function Alone(key: int, pool: seq<Candidate>): seq<Event> {
    [Select(0, key, pool, {}), Insert(0), Commit(0), Abort(0)]
  }

  lemma UninterruptedAllocation(usage: set<Use>, key: int, pool: seq<Candidate>)
    ensures Play(usage, Alone(key, pool))
            == match Scan(pool, UsedBy(usage, key), {})
               case None => State(usage, map[], [])
               case Some(c) => State(usage + {Use(key, c.id)}, map[], [Allocated(key, c.id, 0, 2)])
  {
    var run := Alone(key, pool);
    var s0 := State(usage, map[], []);
    var s1, choice := Step(s0, 0, run[0]), Scan(pool, UsedBy(usage, key), {});
    var s2 := Step(s1, 1, run[1]);
    var s3 := Step(s2, 2, run[2]);
    var s4 := Step(s3, 3, run[3]);
    FourSteps(usage, run[0], run[1], run[2], run[3]);
    assert Locked(s0.txs) == {};
    SelectedIsFree(pool, UsedBy(usage, key), {});
    assert s1.txs == map[0 := Tx(key, choice, 0, {}, Pending)];
    assert s2.txs == map[0 := Tx(key, choice, 0, {}, if choice.Some? then Inserted else Pending)];
    assert s4.txs == map[];
  }

  lemma FourSteps(usage: set<Use>, a: Event, b: Event, c: Event, d: Event)
    ensures Play(usage, [a, b, c, d]) == Step(Step(Step(Step(State(usage, map[], []), 0, a), 1, b), 2, c), 3, d)
  {
    assert [a, b, c, d][..3] == [a, b, c] && [a, b, c][..2] == [a, b] && [a, b][..1] == [a] && [a][..0] == [];
    assert Play(usage, []) == State(usage, map[], []);
    assert Play(usage, [a]) == Step(Play(usage, []), 0, a);
    assert Play(usage, [a, b]) == Step(Play(usage, [a]), 1, b);
    assert Play(usage, [a, b, c]) == Step(Play(usage, [a, b]), 2, c);
  }

  // ---------- Assignment, reset and allocation agree ----------

  /** Deleting what is to go and adding what is missing is the assignment. */
  lemma ReassignedIsApplied(usage: set<Use>, key: int, covered: set<int>, next: set<int>)
    requires next <= covered
    ensures var existing := UsedBy(usage, key) * covered;
            Applied(usage, key, next - existing, existing - next) == Reassigned(usage, key, covered, next)
  {
  }

  lemma ReassignedIs(usage: set<Use>, key: int, covered: set<int>, next: set<int>)
    requires next <= covered
    ensures var after := Reassigned(usage, key, covered, next);
            && UsedBy(after, key) * covered == next
            && UsedBy(after, key) - covered == UsedBy(usage, key) - covered
            && forall u :: u !in after && u in usage ==> u.key == key && u.id in covered
  {
    var after := Reassigned(usage, key, covered, next);
    assert forall id :: id in UsedBy(after, key) <==> Use(key, id) in after;
    forall id
      ensures id in UsedBy(after, key) * covered <==> id in next
    {
      assert Use(key, id) in after <==> id in next || (Use(key, id) in usage && id !in covered);
    }
    assert UsedBy(after, key) * covered == next;
  }

  /** Repeating an assignment changes nothing, adds nothing and removes nothing. */
  lemma ReassignedTwice(usage: set<Use>, key: int, covered: set<int>, next: set<int>)
    requires next <= covered
    ensures var after := Reassigned(usage, key, covered, next);
            && Reassigned(after, key, covered, next) == after
            && next - UsedBy(after, key) * covered == {} && UsedBy(after, key) * covered - next == {}
  {
    ReassignedIs(usage, key, covered, next);
  }

  lemma ReassignedCounts(usage: set<Use>, key: int, covered: set<int>, next: set<int>)
    requires next <= covered
    ensures var existing := UsedBy(usage, key) * covered;
            |Reassigned(usage, key, covered, next)| == |usage| + |next - existing| - |existing - next|
  {
    var existing := UsedBy(usage, key) * covered;
    var gone, come := Pairs(key, existing - next), Pairs(key, next - existing);
    PairsCount(key, existing - next);
    PairsCount(key, next - existing);
    assert Reassigned(usage, key, covered, next) == usage - gone + come;
    assert gone <= usage && come !! usage;
  }

  /** After an assignment the statistics show the requested accounts as used. */
  lemma AssignmentSetsStats(accounts: seq<Account>, f: Filter, usage: set<Use>, key: int, next: set<int>)
    requires ById(accounts) && next <= AssignableIds(accounts, f)
    ensures var after := Reassigned(usage, key, CoveredIds(accounts, f), next);
            Stats(Pool(accounts, f), UsedBy(after, key)).used == |next|
  {
    var covered, assignable := CoveredIds(accounts, f), AssignableIds(accounts, f);
    var after := Reassigned(usage, key, covered, next);
    PoolInOrder(accounts, f);
    PoolIds(accounts, f);
    StatsAddUp(Pool(accounts, f), UsedBy(after, key));
    assert assignable <= covered;
    ReassignedIs(usage, key, covered, next);
    assert UsedBy(after, key) * assignable == next;
  }

  lemma ResetClearsStats(accounts: seq<Account>, f: Filter, usage: set<Use>, key: int)
    requires ById(accounts)
    ensures var after := ResetUsage(usage, key, AssignableIds(accounts, f));
            && Stats(Pool(accounts, f), UsedBy(after, key)).used == 0
            && UsedBy(after, key) == UsedBy(usage, key) - AssignableIds(accounts, f)
  {
    var after := ResetUsage(usage, key, AssignableIds(accounts, f));
    PoolInOrder(accounts, f);
    PoolIds(accounts, f);
    StatsAddUp(Pool(accounts, f), UsedBy(after, key));
    assert UsedBy(after, key) * AssignableIds(accounts, f) == {};
  }

  /** A reset is the assignment of nothing exactly when the key uses no inactive account of the group and scope. */
  lemma ResetIsEmptyAssignment(accounts: seq<Account>, f: Filter, usage: set<Use>, key: int)
    ensures ResetUsage(usage, key, AssignableIds(accounts, f)) == Reassigned(usage, key, CoveredIds(accounts, f), {})
            <==> UsedBy(usage, key) * (CoveredIds(accounts, f) - AssignableIds(accounts, f)) == {}
  {
    var reset := ResetUsage(usage, key, AssignableIds(accounts, f));
    var cleared := Reassigned(usage, key, CoveredIds(accounts, f), {});
    assert AssignableIds(accounts, f) <= CoveredIds(accounts, f);
    if id :| id in UsedBy(usage, key) * (CoveredIds(accounts, f) - AssignableIds(accounts, f)) {
      assert Use(key, id) in reset && Use(key, id) !in cleared;
    }
  }

  // ---------- By the accounts' own fields ----------

  lemma IdsAreUnique(accounts: seq<Account>, a: Account, b: Account)
    requires ById(accounts) && a in accounts && b in accounts && a.id == b.id
    ensures a == b
  {
    var i :| 0 <= i < |accounts| && accounts[i] == a;
    var j :| 0 <= j < |accounts| && accounts[j] == b;
  }

  /**
   After an assignment the key uses an account of the group asked for and of its scope exactly when it was requested,
   and any other account as before; an account in no group is in no group asked for and in no scope of groups.
   */
  lemma AssignmentByFields(accounts: seq<Account>, f: Filter, usage: set<Use>, key: int, next: set<int>, a: Account)
    requires ById(accounts) && a in accounts && next <= CoveredIds(accounts, f)
    ensures var after := Reassigned(usage, key, CoveredIds(accounts, f), next);
            var asked := f.groupId == None || f.groupId == a.groupId;
            var groupInScope := |f.allowedGroups| == 0 || (a.groupId.Some? && a.groupId.value in f.allowedGroups);
            var idInScope := |f.allowedEmails| == 0 || a.id in f.allowedEmails;
            Use(key, a.id) in after
            <==> if asked && groupInScope && idInScope then a.id in next else Use(key, a.id) in usage
  {
    CoveredByFields(accounts, f, a);
  }

  lemma CoveredByFields(accounts: seq<Account>, f: Filter, a: Account)
    requires ById(accounts) && a in accounts
    ensures a.id in CoveredIds(accounts, f) <==>
            && (f.groupId == None || f.groupId == a.groupId)
            && (|f.allowedGroups| == 0 || (a.groupId.Some? && a.groupId.value in f.allowedGroups))
            && (|f.allowedEmails| == 0 || a.id in f.allowedEmails)
    ensures a.id in AssignableIds(accounts, f) <==> a.active && a.id in CoveredIds(accounts, f)
  {
    forall b | b in accounts && b.id == a.id
      ensures b == a
    {
      IdsAreUnique(accounts, a, b);
    }
  }

  /** A reset takes away exactly the active accounts of the group and scope; inactive ones stay in use. */
  lemma ResetByFields(accounts: seq<Account>, f: Filter, usage: set<Use>, key: int, a: Account)
    requires ById(accounts) && a in accounts
    ensures var after := ResetUsage(usage, key, AssignableIds(accounts, f));
            Use(key, a.id) in after <==> Use(key, a.id) in usage && !(a.active && a.id in CoveredIds(accounts, f))
  {
    CoveredByFields(accounts, f, a);
  }

  /** A group is refused exactly when it is asked for and the key is confined to other groups. */
  lemma GroupForbiddenIs(f: Filter)
    ensures f.GroupForbidden() <==> |f.allowedGroups| > 0 && f.groupId.Some? && f.groupId.value !in f.allowedGroups
  {
  }
}
