/** The login lock: a failure counter that opens for the lock duration and, when it fills, a lock of the same length. */
module LoginProtection {
  import opened Redis
  import opened Windows
  import opened Wrappers

  /** `lockDuration` is in nanoseconds. */
  datatype Protector = Protector(namespace: string, maxAttempts: int, lockDuration: int) {

    function AttemptKey(cacheKey: string): string {
      "auth:" + namespace + ":login:attempt:" + cacheKey
    }

    function LockKey(cacheKey: string): string {
      "auth:" + namespace + ":login:lock:" + cacheKey
    }

    function LockSeconds(): nat {
      Seconds(lockDuration)
    }

    /** The failure that locks: a threshold below one locks on the first. */
    function Threshold(): nat {
      if maxAttempts < 1 then 1 else maxAttempts
    }
  }

  lemma KeysDiffer(p: Protector, cacheKey: string)
    ensures p.AttemptKey(cacheKey) != p.LockKey(cacheKey)
  {
    var i := |"auth:" + p.namespace + ":login:"|;
    assert p.AttemptKey(cacheKey)[i] == 'a';
    assert p.LockKey(cacheKey)[i] == 'l';
  }

  // ---------- One attempt ----------

  /** The instants at which the commands of one attempt reach the server. */
  datatype Attempt = Attempt(check: nat, incr: nat, lock: nat, delete: nat) {
    predicate InOrder() {
      check <= incr <= lock <= delete
    }
  }

  /** The table after recording a failure, and the count it was given; None is a Redis error. */
  function Recorded(p: Protector, cacheKey: string, t: Table, a: Attempt): (Table, Option<int>) {
    var (t1, count) := Incremented(t, a.incr, p.AttemptKey(cacheKey), p.LockSeconds());
    if count.None? || count.value < p.maxAttempts then (t1, count)
    else
      var t2 := Stored(t1, a.lock, p.LockKey(cacheKey), "1", p.LockSeconds());
      (Deleted(t2, p.AttemptKey(cacheKey)), count)
  }

  class LoginProtector {
    const server: Server
    const settings: Protector

    constructor (server: Server, settings: Protector)
      ensures this.server == server && this.settings == settings
    {
      this.server, this.settings := server, settings;
    }

    method LockRemaining(cacheKey: string, at: nat) returns (seconds: nat)
      requires server.clock <= at
      modifies server`clock
      ensures server.clock == at
      ensures seconds == Remaining(server.table, at, settings.LockKey(cacheKey))
    {
      seconds := server.Ttl(settings.LockKey(cacheKey), at);
    }

    /** Returns the lock duration when this failure locks, 0 otherwise, None on a Redis error. */
    method RecordFailure(cacheKey: string, a: Attempt) returns (locked: Option<int>)
      requires a.InOrder() && server.clock <= a.incr
      modifies server
      ensures a.incr <= server.clock <= a.delete
      ensures server.table == Recorded(settings, cacheKey, old(server.table), a).0
      ensures var count := Recorded(settings, cacheKey, old(server.table), a).1;
              locked == match count
                        case None => None
                        case Some(n) => Some(if n < settings.maxAttempts then 0 else settings.lockDuration)
    {
      var count := server.Increment(settings.AttemptKey(cacheKey), settings.lockDuration, a.incr);
      if count.None? {
        return None;
      }
      if count.value < settings.maxAttempts {
        return Some(0);
      }
      server.Set(settings.LockKey(cacheKey), "1", settings.lockDuration, a.lock);
      server.Delete(settings.AttemptKey(cacheKey), a.delete);
      return Some(settings.lockDuration);
    }

    method Clear(cacheKey: string, at: nat)
      requires server.clock <= at
      modifies server
      ensures server.clock == at
      ensures server.table == old(server.table) - {settings.AttemptKey(cacheKey), settings.LockKey(cacheKey)}
    {
      server.Delete(settings.AttemptKey(cacheKey), at);
      server.Delete(settings.LockKey(cacheKey), at);
      assert server.table == old(server.table) - {settings.AttemptKey(cacheKey), settings.LockKey(cacheKey)};
    }

    /** One failing login: refused while locked, recorded otherwise. */
    method FailedLogin(cacheKey: string, a: Attempt) returns (recorded: bool)
      requires a.InOrder() && server.clock <= a.check
      modifies server
      ensures server.clock <= a.delete
      ensures (server.table, recorded) == Attempted(settings, cacheKey, old(server.table), a)
    {
      var remaining := LockRemaining(cacheKey, a.check);
      if remaining > 0 {
        return false;
      }
      var locked := RecordFailure(cacheKey, a);
      return locked.Some?;
    }
  }

  function Attempted(p: Protector, cacheKey: string, t: Table, a: Attempt): (Table, bool) {
    if Remaining(t, a.check, p.LockKey(cacheKey)) > 0 then (t, false)
    else var (t', count) := Recorded(p, cacheKey, t, a); (t', count.Some?)
  }

  // ---------- Runs of failing logins ----------

  /** A recorded failure: when, its number in its counter, and since when that counter runs. */
  datatype Failure = Failure(at: nat, count: int, since: int)

  predicate RunInOrder(run: seq<Attempt>) {
    && (forall i :: 0 <= i < |run| ==> run[i].InOrder())
    && forall i :: 0 <= i < |run| - 1 ==> run[i].delete <= run[i + 1].check
  }

  /** The table and the failures recorded after a run of failing logins for one key. */
  function Play(p: Protector, cacheKey: string, start: Table, run: seq<Attempt>): (Table, seq<Failure>) {
    if run == [] then (start, [])
    else
      var (t, h) := Play(p, cacheKey, start, run[..|run| - 1]);
      var a := run[|run| - 1];
      if Attempted(p, cacheKey, t, a).1 then
        (Attempted(p, cacheKey, t, a).0, h + [FailureOf(p, cacheKey, t, a)])
      else
        (Attempted(p, cacheKey, t, a).0, h)
  }

  function FailureOf(p: Protector, cacheKey: string, t: Table, a: Attempt): Failure {
    var (t1, count) := Incremented(t, a.incr, p.AttemptKey(cacheKey), p.LockSeconds());
    Failure(a.incr, if count.Some? then count.value else 0,
            if p.AttemptKey(cacheKey) in t1 then t1[p.AttemptKey(cacheKey)].expiry - p.LockSeconds() else 0)
  }

  function Times(h: seq<Failure>): (r: seq<nat>)
    ensures |r| == |h| && forall i :: 0 <= i < |h| ==> r[i] == h[i].at
  {
    seq(|h|, i requires 0 <= i < |h| => h[i].at)
  }

  // ---------- How consecutive failures are spaced ----------

  predicate Opens(f: Failure) {
    f.count == 1 && f.since == f.at
  }

  /** What the counter and the lock allow one failure to follow another. */
  predicate Follows(p: Protector, f: Failure, g: Failure) {
    && f.at <= g.at
    && if f.count == p.Threshold() then
         Opens(g) && g.at >= f.at + p.LockSeconds()
       else
         || (g.count == f.count + 1 && g.since == f.since && g.at < f.since + p.LockSeconds())
         || (Opens(g) && g.at >= f.since + p.LockSeconds())
  }

  predicate Spaced(p: Protector, h: seq<Failure>) {
    && (forall i :: 0 <= i < |h| ==> 1 <= h[i].count <= p.Threshold() && (h[i].count == 1 ==> Opens(h[i])))
    && forall i :: 0 <= i < |h| - 1 ==> Follows(p, h[i], h[i + 1])
  }

  /** What the table still knows about the last failure. */
  ghost predicate TableKnows(p: Protector, cacheKey: string, t: Table, h: seq<Failure>) {
    if h == [] then p.AttemptKey(cacheKey) !in t
    else
      var last := h[|h| - 1];
      if last.count == p.Threshold() then
        && p.AttemptKey(cacheKey) !in t
        && p.LockKey(cacheKey) in t && t[p.LockKey(cacheKey)].expiry >= last.at + p.LockSeconds()
      else
        && p.AttemptKey(cacheKey) in t
        && t[p.AttemptKey(cacheKey)].value == Count(last.count)
        && t[p.AttemptKey(cacheKey)].expiry == last.since + p.LockSeconds()
  }

  ghost predicate Invariant(p: Protector, cacheKey: string, t: Table, h: seq<Failure>, now: nat) {
    && Spaced(p, h)
    && TableKnows(p, cacheKey, t, h)
    && (h != [] ==> h[|h| - 1].at <= now)
  }

  lemma AttemptKeepsInvariant(p: Protector, cacheKey: string, t: Table, h: seq<Failure>, now: nat, a: Attempt)
    requires Invariant(p, cacheKey, t, h, now) && a.InOrder() && now <= a.check
    ensures var (t', recorded) := Attempted(p, cacheKey, t, a);
            Invariant(p, cacheKey, t', if recorded then h + [FailureOf(p, cacheKey, t, a)] else h, a.delete)
  {
    KeysDiffer(p, cacheKey);
    if Attempted(p, cacheKey, t, a).1 {
      var f := FailureOf(p, cacheKey, t, a);
      assert 1 <= f.count <= p.Threshold() && (f.count == 1 ==> Opens(f));
      if h != [] {
        assert Follows(p, h[|h| - 1], f);
      }
      var h' := h + [f];
      assert h'[|h'| - 1] == f;
    }
  }

  lemma {:induction false} PlayKeepsInvariant(p: Protector, cacheKey: string, start: Table, run: seq<Attempt>)
    requires RunInOrder(run) && p.AttemptKey(cacheKey) !in start
    ensures var (t, h) := Play(p, cacheKey, start, run);
            Invariant(p, cacheKey, t, h, if run == [] then 0 else run[|run| - 1].delete)
  {
    if run != [] {
      var init := run[..|run| - 1];
      PlayKeepsInvariant(p, cacheKey, start, init);
      var (t, h) := Play(p, cacheKey, start, init);
      AttemptKeepsInvariant(p, cacheKey, t, h, if init == [] then 0 else init[|init| - 1].delete, run[|run| - 1]);
    }
  }

  lemma {:induction false} SpacedSorted(p: Protector, h: seq<Failure>, i: nat, j: nat)
    requires Spaced(p, h) && i <= j < |h|
    ensures h[i].at <= h[j].at
    decreases j
  {
    if i < j {
      SpacedSorted(p, h, i, j - 1);
      assert Follows(p, h[j - 1], h[j]);
    }
  }

  /** Within less than a lock duration the counter opens anew at most once; `k` is where, or `i` when it does not. */
  lemma {:induction false} OneOpening(p: Protector, h: seq<Failure>, i: nat, j: nat) returns (k: nat)
    requires Spaced(p, h) && i <= j < |h| && h[j].at < h[i].at + p.LockSeconds()
    ensures i <= k <= j
    ensures k == i ==> h[j].count == h[i].count + (j - i) && h[j].since == h[i].since
    ensures k > i ==> h[i].count + (k - 1 - i) < p.Threshold() && h[j].count == 1 + (j - k)
    ensures k > i ==> h[j].since == h[k].at && h[k].at >= h[i].since + p.LockSeconds()
    decreases j
  {
    if i == j {
      k := i;
    } else {
      SpacedSorted(p, h, i, j - 1);
      assert Follows(p, h[j - 1], h[j]);
      k := OneOpening(p, h, i, j - 1);
      SpacedSorted(p, h, i, k);
      if h[j].since != h[j - 1].since || h[j].count == 1 {
        k := j;
      }
    }
  }

  /** The most failures a window of one lock duration can hold. */
  function WindowLimit(p: Protector): nat {
    if p.Threshold() == 1 then 1 else 2 * p.Threshold() - 2
  }

  lemma Gap(p: Protector, h: seq<Failure>, i: nat)
    requires Spaced(p, h) && i + WindowLimit(p) < |h|
    ensures h[i + WindowLimit(p)].at >= h[i].at + p.LockSeconds()
  {
    var j := i + WindowLimit(p);
    if h[j].at < h[i].at + p.LockSeconds() {
      var k := OneOpening(p, h, i, j);
      SpacedSorted(p, h, k, j);
      assert false;
    }
  }

  /**
   In every run of failing logins for one key with no clear in between, every window of one lock
   duration records at most max(m, 2m - 2) failures, m being the threshold.
   */
  lemma FailuresPerWindow(p: Protector, cacheKey: string, start: Table, run: seq<Attempt>, lo: int)
    requires RunInOrder(run) && p.AttemptKey(cacheKey) !in start
    ensures CountIn(Times(Play(p, cacheKey, start, run).1), lo, lo + p.LockSeconds()) <= WindowLimit(p)
  {
    PlayKeepsInvariant(p, cacheKey, start, run);
    var h := Play(p, cacheKey, start, run).1;
    var times := Times(h);
    forall i, j | 0 <= i < j < |times|
      ensures times[i] <= times[j]
    {
      SpacedSorted(p, h, i, j);
    }
    forall i: nat
      ensures Spread(times, WindowLimit(p), p.LockSeconds(), i)
    {
      if i + WindowLimit(p) < |times| {
        Gap(p, h, i);
      }
    }
    WindowBound(times, WindowLimit(p), lo, p.LockSeconds());
  }

  /** The failure that reaches the threshold refuses every attempt checked within the lock duration of its lock. */
  lemma ThresholdRefuses(p: Protector, cacheKey: string, t: Table, a: Attempt, next: Attempt)
    requires a.InOrder() && Attempted(p, cacheKey, t, a).1
    requires FailureOf(p, cacheKey, t, a).count >= p.maxAttempts
    ensures Attempted(p, cacheKey, Attempted(p, cacheKey, t, a).0, next).1 ==> next.check >= a.lock + p.LockSeconds()
  {
    KeysDiffer(p, cacheKey);
  }

  // ---------- The bound is reached ----------

  function At(time: nat): Attempt {
    Attempt(time, time, time, time)
  }

  /** The state of a run whose last failure left the counter below the threshold and set no lock. */
  ghost predicate OpenCounter(p: Protector, cacheKey: string, start: Table, run: seq<Attempt>, h: seq<Failure>) {
    var t := Play(p, cacheKey, start, run).0;
    && Play(p, cacheKey, start, run).1 == h && h != []
    && 1 <= h[|h| - 1].count < p.Threshold()
    && p.LockKey(cacheKey) !in t && TableKnows(p, cacheKey, t, h)
  }

  /** One more failure at `time`: it counts on while the counter is open, and opens a new one afterwards. */
  lemma OneMore(p: Protector, cacheKey: string, start: Table, run: seq<Attempt>, h: seq<Failure>, time: nat)
    requires OpenCounter(p, cacheKey, start, run, h)
    ensures var last := h[|h| - 1];
            var f := if time < last.since + p.LockSeconds() then Failure(time, last.count + 1, last.since)
                     else Failure(time, 1, time);
            && Play(p, cacheKey, start, run + [At(time)]).1 == h + [f]
            && (f.count < p.Threshold() ==> OpenCounter(p, cacheKey, start, run + [At(time)], h + [f]))
  {
    KeysDiffer(p, cacheKey);
    var longer := run + [At(time)];
    assert longer[..|longer| - 1] == run && longer[|longer| - 1] == At(time);
    var t := Play(p, cacheKey, start, run).0;
    var last := h[|h| - 1];
    var f := FailureOf(p, cacheKey, t, At(time));
    assert Play(p, cacheKey, start, longer).1 == h + [f];
    assert (h + [f])[|h + [f]| - 1] == f;
  }

  lemma RunGrows(run: seq<Attempt>, time: nat)
    requires RunInOrder(run) && run != [] && run[|run| - 1].delete <= time
    ensures var longer := run + [At(time)]; RunInOrder(longer) && longer[|longer| - 1].delete <= time
  {
  }

  /** `k` more failures at one instant, while the counter stays open and below the threshold. */
  lemma {:induction false} Burst(p: Protector, cacheKey: string, start: Table, run: seq<Attempt>, h: seq<Failure>,
                                 time: nat, k: nat)
    returns (run': seq<Attempt>, h': seq<Failure>)
    requires OpenCounter(p, cacheKey, start, run, h) && RunInOrder(run)
    requires h[|h| - 1].count + k < p.Threshold() && time < h[|h| - 1].since + p.LockSeconds()
    requires run != [] && run[|run| - 1].delete <= time
    ensures RunInOrder(run') && run' != [] && run'[|run'| - 1].delete <= time
    ensures OpenCounter(p, cacheKey, start, run', h')
    ensures |h'| == |h| + k && h'[..|h|] == h && forall i :: |h| <= i < |h'| ==> h'[i].at == time
    ensures h'[|h'| - 1].count == h[|h| - 1].count + k && h'[|h'| - 1].since == h[|h| - 1].since
    decreases k
  {
    run', h' := run, h;
    if k > 0 {
      OneMore(p, cacheKey, start, run, h, time);
      RunGrows(run, time);
      var last := h[|h| - 1];
      var next := h + [Failure(time, last.count + 1, last.since)];
      run', h' := Burst(p, cacheKey, start, run + [At(time)], next, time, k - 1);
      assert h'[..|h|] == next[..|h|] == h;
      assert h'[|h|] == next[|h|];
    }
  }

  lemma {:induction false} CountInAll(times: seq<nat>, lo: int, hi: int)
    requires forall i :: 0 <= i < |times| ==> lo <= times[i] < hi
    ensures CountIn(times, lo, hi) == |times|
  {
    if times != [] {
      CountInAll(times[..|times| - 1], lo, hi);
    }
  }

  /** A failure, and as many more as leave the counter one short, just before it expires. */
  lemma FirstCounter(p: Protector, cacheKey: string) returns (run: seq<Attempt>, h: seq<Failure>)
    requires p.Threshold() >= 2 && p.LockSeconds() >= 2
    ensures RunInOrder(run) && run != [] && run[|run| - 1].delete <= p.LockSeconds() - 1
    ensures OpenCounter(p, cacheKey, map[], run, h)
    ensures |h| == p.Threshold() - 1 && h[0].at == 0 && h[|h| - 1].since == 0
    ensures forall i :: 1 <= i < |h| ==> h[i].at == p.LockSeconds() - 1
  {
    KeysDiffer(p, cacheKey);
    run, h := [At(0)], [Failure(0, 1, 0)];
    assert run[..|run| - 1] == [] && Play(p, cacheKey, map[], []) == (map[], []);
    assert OpenCounter(p, cacheKey, map[], run, h);
    var more;
    run, more := Burst(p, cacheKey, map[], run, h, p.LockSeconds() - 1, p.Threshold() - 2);
    assert more[0] == more[..|h|][0];
    h := more;
  }

  /** A full counter at one instant, after one that has just expired. */
  lemma SecondCounter(p: Protector, cacheKey: string, run: seq<Attempt>, h: seq<Failure>)
    returns (run': seq<Attempt>, h': seq<Failure>)
    requires p.Threshold() >= 2 && p.LockSeconds() >= 2
    requires RunInOrder(run) && run != [] && run[|run| - 1].delete <= p.LockSeconds()
    requires OpenCounter(p, cacheKey, map[], run, h) && h[|h| - 1].since == 0
    ensures RunInOrder(run') && Play(p, cacheKey, map[], run').1 == h'
    ensures |h'| == |h| + p.Threshold() && h'[..|h|] == h
    ensures forall i :: |h| <= i < |h'| ==> h'[i].at == p.LockSeconds()
  {
    var d, m := p.LockSeconds(), p.Threshold();
    OneMore(p, cacheKey, map[], run, h, d);
    RunGrows(run, d);
    var started := h + [Failure(d, 1, d)];
    var burst, all := Burst(p, cacheKey, map[], run + [At(d)], started, d, m - 2);
    OneMore(p, cacheKey, map[], burst, all, d);
    RunGrows(burst, d);
    run', h' := burst + [At(d)], all + [Failure(d, m, d)];
    assert all[|h|] == all[..|started|][|h|];
    assert all[..|h|] == all[..|started|][..|h|];
  }

  /** Two counters that touch: the first fills to one short and expires, the second fills at that instant. */
  lemma FullRun(p: Protector, cacheKey: string) returns (run: seq<Attempt>, h: seq<Failure>)
    requires p.Threshold() >= 2 && p.LockSeconds() >= 2
    ensures RunInOrder(run) && Play(p, cacheKey, map[], run).1 == h
    ensures |h| == 2 * p.Threshold() - 1 && h[0].at == 0
    ensures forall i :: 1 <= i < |h| ==> p.LockSeconds() - 1 <= h[i].at <= p.LockSeconds()
  {
    var first, early := FirstCounter(p, cacheKey);
    run, h := SecondCounter(p, cacheKey, first, early);
    assert forall i :: 0 <= i < |early| ==> h[i] == h[..|early|][i];
  }

  /** For every threshold above one and every lock of two seconds or more, some run fills a window to the bound. */
  lemma WindowLimitIsReached(p: Protector, cacheKey: string) returns (run: seq<Attempt>)
    requires p.Threshold() >= 2 && p.LockSeconds() >= 2
    ensures RunInOrder(run)
    ensures CountIn(Times(Play(p, cacheKey, map[], run).1), 1, 1 + p.LockSeconds()) == WindowLimit(p)
  {
    var h;
    run, h := FullRun(p, cacheKey);
    var times := Times(h);
    CountInConcat(times[..1], times[1..], 1, 1 + p.LockSeconds());
    CountInAll(times[1..], 1, 1 + p.LockSeconds());
    assert times[..1] == [0];
    assert times == times[..1] + times[1..];
  }
}
