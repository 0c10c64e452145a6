/**
 Failing logins of one key that overlap: the check, the count, the lock and the deletion of the counter are
 steps of their own, and any number of attempts take them in any order. At most `c` attempts are between
 their check and their last step at a time.
 */
module LoginOverlap {
  import opened LoginProtection
  import opened Redis
  import opened Wrappers

  /** How far an attempt has come: it was let in, it was counted to the threshold, it has set the lock. */
  datatype Phase = Refused | Checked | Counted | Locked | Done

  datatype State = State(table: Table, phases: seq<Phase>)

  /** `Begin` is the check of a new attempt, which gets the next number. */
  datatype Event = Begin | Incr(i: nat) | Lock(i: nat) | Finish(i: nat)

  datatype Timed = Timed(at: nat, event: Event)

  predicate IsAt(s: State, i: nat, phase: Phase) {
    i < |s.phases| && s.phases[i] == phase
  }

  /** The count that an attempt's INCR is given; None when it gets no further. */
  function CountOf(p: Protector, cacheKey: string, s: State, e: Timed): Option<int> {
    if e.event.Incr? && IsAt(s, e.event.i, Checked) then
      Incremented(s.table, e.at, p.AttemptKey(cacheKey), p.LockSeconds()).1
    else None
  }

  function Step(p: Protector, cacheKey: string, s: State, e: Timed): State {
    match e.event
    case Begin =>
      s.(phases := s.phases + [if Remaining(s.table, e.at, p.LockKey(cacheKey)) > 0 then Refused else Checked])
    case Incr(i) =>
      if !IsAt(s, i, Checked) then s
      else
        var (t, count) := Incremented(s.table, e.at, p.AttemptKey(cacheKey), p.LockSeconds());
        State(t, s.phases[i := if count.Some? && count.value >= p.maxAttempts then Counted else Done])
    case Lock(i) =>
      if !IsAt(s, i, Counted) then s
      else State(Stored(s.table, e.at, p.LockKey(cacheKey), "1", p.LockSeconds()), s.phases[i := Locked])
    case Finish(i) =>
      if !IsAt(s, i, Locked) then s
      else State(Deleted(s.table, p.AttemptKey(cacheKey)), s.phases[i := Done])
  }

  function Play(p: Protector, cacheKey: string, start: Table, run: seq<Timed>): State {
    if run == [] then State(start, [])
    else Step(p, cacheKey, Play(p, cacheKey, start, run[..|run| - 1]), run[|run| - 1])
  }

  /** The steps of one attempt after another are the attempt of the handlers. */
  lemma WholeAttempt(p: Protector, cacheKey: string, t: Table, a: Attempt)
    ensures var s1 := Step(p, cacheKey, State(t, []), Timed(a.check, Begin));
            var s2 := Step(p, cacheKey, s1, Timed(a.incr, Incr(0)));
            var s3 := Step(p, cacheKey, s2, Timed(a.lock, Lock(0)));
            var s4 := Step(p, cacheKey, s3, Timed(a.delete, Finish(0)));
            && s4.table == Attempted(p, cacheKey, t, a).0
            && (CountOf(p, cacheKey, s1, Timed(a.incr, Incr(0))).Some? <==> Attempted(p, cacheKey, t, a).1)
  {
  }

  // ---------- Counting ----------

  function In(phases: seq<Phase>, phase: Phase): nat {
    if phases == [] then 0
    else In(phases[..|phases| - 1], phase) + if phases[|phases| - 1] == phase then 1 else 0
  }

  function InFlight(phases: seq<Phase>): nat {
    In(phases, Checked) + In(phases, Counted) + In(phases, Locked)
  }

  lemma InAppended(phases: seq<Phase>, x: Phase, phase: Phase)
    ensures In(phases + [x], phase) == In(phases, phase) + if x == phase then 1 else 0
  {
    assert (phases + [x])[..|phases|] == phases;
  }

  lemma {:induction false} InUpdated(phases: seq<Phase>, i: nat, x: Phase, phase: Phase)
    requires i < |phases|
    ensures In(phases[i := x], phase) + (if phases[i] == phase then 1 else 0)
            == In(phases, phase) + (if x == phase then 1 else 0)
  {
    var n := |phases| - 1;
    if i == n {
      assert phases[i := x] == phases[..n] + [x];
      InAppended(phases[..n], x, phase);
    } else {
      InUpdated(phases[..n], i, x, phase);
      assert phases[i := x] == phases[..n][i := x] + [phases[n]];
      InAppended(phases[..n][i := x], phases[n], phase);
    }
  }

  /** What a move of one attempt does to the three counts. */
  lemma Moved(phases: seq<Phase>, i: nat, x: Phase)
    requires i < |phases|
    ensures forall phase :: In(phases[i := x], phase) + (if phases[i] == phase then 1 else 0)
                            == In(phases, phase) + (if x == phase then 1 else 0)
  {
    forall phase
      ensures In(phases[i := x], phase) + (if phases[i] == phase then 1 else 0)
              == In(phases, phase) + (if x == phase then 1 else 0)
    {
      InUpdated(phases, i, x, phase);
    }
  }

  predicate InOrder(run: seq<Timed>) {
    forall i, j :: 0 <= i < j < |run| ==> run[i].at <= run[j].at
  }

  /** Never more than `c` attempts in flight. */
  predicate AtMost(p: Protector, cacheKey: string, start: Table, run: seq<Timed>, c: nat) {
    forall n :: 0 <= n <= |run| ==> InFlight(Play(p, cacheKey, start, run[..n]).phases) <= c
  }

  /** How many failures were recorded at instants in [lo, hi). */
  function Recorded(p: Protector, cacheKey: string, start: Table, run: seq<Timed>, lo: int, hi: int): nat {
    if run == [] then 0
    else
      var init, e := run[..|run| - 1], run[|run| - 1];
      var recorded := CountOf(p, cacheKey, Play(p, cacheKey, start, init), e).Some? && lo <= e.at < hi;
      Recorded(p, cacheKey, start, init, lo, hi) + if recorded then 1 else 0
  }

  // ---------- The bound ----------

  /** The most failures a window of one lock duration can hold, with `c` attempts in flight. */
  function OverlapLimit(p: Protector, c: nat): int {
    if p.Threshold() == 1 then c else (c + 1) * (p.Threshold() - 1) + c - 1
  }

  lemma OneAtATime(p: Protector)
    ensures OverlapLimit(p, 1) == WindowLimit(p)
  {
  }

  /** Failures counted below the threshold by the counter in the table. */
  function Low(p: Protector, cacheKey: string, t: Table): nat {
    var key := p.AttemptKey(cacheKey);
    if key in t && t[key].value.Count? && t[key].value.n > 0 then
      if t[key].value.n < p.Threshold() then t[key].value.n else p.Threshold() - 1
    else 0
  }

  /** Since when the counter in the table runs. */
  function Since(p: Protector, cacheKey: string, t: Table): int
    requires p.AttemptKey(cacheKey) in t
  {
    t[p.AttemptKey(cacheKey)].expiry - p.LockSeconds()
  }

  ghost predicate CounterSound(p: Protector, cacheKey: string, t: Table, now: nat) {
    var key := p.AttemptKey(cacheKey);
    key in t ==> t[key].value.Count? && t[key].value.n >= 1 && Since(p, cacheKey, t) <= now
  }

  /**
   Before a lock is set in the window: `w` failures were recorded in it and `d` counters deleted. What they can
   be, besides those of attempts still to set the lock, is a counter from before the window that lacks its first
   failure, and for each deletion a whole counter; the counter running now is the last of them.
   */
  ghost predicate Unlocked(p: Protector, cacheKey: string, s: State, c: nat, lo: int, w: nat, d: nat) {
    var key, m, low := p.AttemptKey(cacheKey), p.Threshold(), Low(p, cacheKey, s.table);
    var pending, deleters := In(s.phases, Counted), In(s.phases, Locked) + d;
    && deleters <= c
    && (d > 0 && key in s.table ==> Since(p, cacheKey, s.table) >= lo)
    && if m == 1 then w <= pending
       else if deleters == c then
         if d == 0 then w == 0 else w <= (m - 1) * (d - 1) + low + pending
       else if key in s.table && Since(p, cacheKey, s.table) < lo then w <= low - 1 + pending
       else w <= (m - 2) + (m - 1) * d + low + pending
  }

  /** After a lock was set in the window: it lasts beyond it, and only attempts let in before are still recorded. */
  ghost predicate LockedIn(p: Protector, cacheKey: string, s: State, c: nat, hi: int, w: nat) {
    var key := p.LockKey(cacheKey);
    && key in s.table && s.table[key].expiry >= hi
    && w + In(s.phases, Checked) <= OverlapLimit(p, c)
  }

  /** What is known after each step up to the end of the window. */
  datatype Account = Account(d: nat, locked: bool)

  ghost predicate Known(p: Protector, cacheKey: string, s: State, c: nat, lo: int, now: nat, w: nat, g: Account) {
    && CounterSound(p, cacheKey, s.table, now)
    && (now < lo ==> w == 0 && g == Account(0, false))
    && if g.locked then LockedIn(p, cacheKey, s, c, lo + p.LockSeconds(), w)
       else Unlocked(p, cacheKey, s, c, lo, w, g.d)
  }

  lemma Times(a: nat, x: int, y: int)
    requires x <= y
    ensures a * x <= a * y
  {
  }

  /**
   Without a lock in the window, the failures recorded and those still to come from attempts let in are within
   the bound.
   */
  lemma UnlockedWithinLimit(p: Protector, cacheKey: string, s: State, c: nat, lo: int, w: nat, d: nat)
    requires Unlocked(p, cacheKey, s, c, lo, w, d) && InFlight(s.phases) <= c
    ensures c > 0 ==> w + In(s.phases, Checked) <= OverlapLimit(p, c)
    ensures c == 0 ==> w == 0
  {
    var m := p.Threshold();
    if m > 1 && c > 0 {
      Times(m - 1, d + 1, c + 1);
      if In(s.phases, Locked) + d < c {
        Times(m - 1, d + 1, c);
      } else if d > 0 {
        Times(m - 1, d - 1 + 1, c);
      }
      assert (m - 1) * (c + 1) == (c + 1) * (m - 1) == (m - 1) * c + (m - 1);
      assert (m - 1) * (d + 1) == (m - 1) * d + (m - 1);
      assert d > 0 ==> (m - 1) * (d - 1) + (m - 1) == (m - 1) * d;
    }
  }

  lemma BeginKeeps(p: Protector, cacheKey: string, s: State, c: nat, lo: int, now: nat, w: nat, g: Account, e: Timed)
    requires Known(p, cacheKey, s, c, lo, now, w, g) && e.event.Begin?
    requires now <= e.at < lo + p.LockSeconds()
    ensures Known(p, cacheKey, Step(p, cacheKey, s, e), c, lo, e.at, w, g)
  {
    var x := Step(p, cacheKey, s, e).phases[|s.phases|];
    InAppended(s.phases, x, Checked);
    InAppended(s.phases, x, Counted);
    InAppended(s.phases, x, Locked);
  }

  lemma IncrKeeps(p: Protector, cacheKey: string, s: State, c: nat, lo: int, now: nat, w: nat, g: Account, e: Timed)
    requires Known(p, cacheKey, s, c, lo, now, w, g) && e.event.Incr? && IsAt(s, e.event.i, Checked)
    requires now <= e.at < lo + p.LockSeconds() && InFlight(s.phases) <= c
    ensures CountOf(p, cacheKey, s, e).Some?
    ensures Known(p, cacheKey, Step(p, cacheKey, s, e), c, lo, e.at, if lo <= e.at then w + 1 else w, g)
  {
    var s' := Step(p, cacheKey, s, e);
    KeysDiffer(p, cacheKey);
    Moved(s.phases, e.event.i, s'.phases[e.event.i]);
    assert CounterSound(p, cacheKey, s'.table, e.at);
  }

  lemma LockKeeps(p: Protector, cacheKey: string, s: State, c: nat, lo: int, now: nat, w: nat, g: Account, e: Timed)
    requires Known(p, cacheKey, s, c, lo, now, w, g) && e.event.Lock? && IsAt(s, e.event.i, Counted)
    requires now <= e.at < lo + p.LockSeconds() && InFlight(s.phases) <= c
    requires InFlight(Step(p, cacheKey, s, e).phases) <= c
    ensures var g' := if lo <= e.at then g.(locked := true) else g;
            Known(p, cacheKey, Step(p, cacheKey, s, e), c, lo, e.at, w, g')
  {
    var s' := Step(p, cacheKey, s, e);
    KeysDiffer(p, cacheKey);
    Moved(s.phases, e.event.i, Locked);
    if !g.locked {
      UnlockedWithinLimit(p, cacheKey, s, c, lo, w, g.d);
    }
  }

  lemma FinishKeeps(p: Protector, cacheKey: string, s: State, c: nat, lo: int, now: nat, w: nat, g: Account, e: Timed)
    requires Known(p, cacheKey, s, c, lo, now, w, g) && e.event.Finish? && IsAt(s, e.event.i, Locked)
    requires now <= e.at < lo + p.LockSeconds() && InFlight(s.phases) <= c
    ensures var g' := if lo <= e.at then g.(d := g.d + 1) else g;
            Known(p, cacheKey, Step(p, cacheKey, s, e), c, lo, e.at, w, g')
  {
    var s' := Step(p, cacheKey, s, e);
    KeysDiffer(p, cacheKey);
    Moved(s.phases, e.event.i, Done);
    var m := p.Threshold();
    assert (m - 1) * (g.d + 1) == (m - 1) * g.d + (m - 1);
    assert (m - 1) * (g.d - 1) + (m - 1) == (m - 1) * g.d;
  }

  lemma {:induction false} RunKeeps(p: Protector, cacheKey: string, start: Table, run: seq<Timed>, c: nat, lo: int)
    returns (g: Account)
    requires p.AttemptKey(cacheKey) !in start && InOrder(run) && AtMost(p, cacheKey, start, run, c)
    requires run != [] ==> run[|run| - 1].at < lo + p.LockSeconds()
    ensures Known(p, cacheKey, Play(p, cacheKey, start, run), c, lo, if run == [] then 0 else run[|run| - 1].at,
                  Recorded(p, cacheKey, start, run, lo, lo + p.LockSeconds()), g)
  {
    if run == [] {
      g := Account(0, false);
    } else {
      var init, e := run[..|run| - 1], run[|run| - 1];
      assert forall n :: 0 <= n <= |init| ==> init[..n] == run[..n];
      g := RunKeeps(p, cacheKey, start, init, c, lo);
      var s := Play(p, cacheKey, start, init);
      var now := if init == [] then 0 else init[|init| - 1].at;
      var w := Recorded(p, cacheKey, start, init, lo, lo + p.LockSeconds());
      assert run[..|init|] == init && run[..|run|] == run;
      g := StepKeeps(p, cacheKey, s, c, lo, now, w, g, e);
    }
  }

  lemma StepKeeps(p: Protector, cacheKey: string, s: State, c: nat, lo: int, now: nat, w: nat, g: Account, e: Timed)
    returns (g': Account)
    requires Known(p, cacheKey, s, c, lo, now, w, g) && now <= e.at < lo + p.LockSeconds()
    requires InFlight(s.phases) <= c && InFlight(Step(p, cacheKey, s, e).phases) <= c
    ensures Known(p, cacheKey, Step(p, cacheKey, s, e), c, lo, e.at,
                  if CountOf(p, cacheKey, s, e).Some? && lo <= e.at then w + 1 else w, g')
  {
    g' := g;
    match e.event
    case Begin => BeginKeeps(p, cacheKey, s, c, lo, now, w, g, e);
    case Incr(i) =>
      if IsAt(s, i, Checked) {
        IncrKeeps(p, cacheKey, s, c, lo, now, w, g, e);
      }
    case Lock(i) =>
      if IsAt(s, i, Counted) {
        LockKeeps(p, cacheKey, s, c, lo, now, w, g, e);
        g' := if lo <= e.at then g.(locked := true) else g;
      }
    case Finish(i) =>
      if IsAt(s, i, Locked) {
        FinishKeeps(p, cacheKey, s, c, lo, now, w, g, e);
        g' := if lo <= e.at then g.(d := g.d + 1) else g;
      }
  }

  /** Later steps do not change what a window holds. */
  lemma {:induction false} WindowIsOver(p: Protector, cacheKey: string, start: Table, run: seq<Timed>, lo: int,
                                        hi: int, n: nat)
    requires n <= |run| && forall i :: n <= i < |run| ==> run[i].at >= hi
    ensures Recorded(p, cacheKey, start, run, lo, hi) == Recorded(p, cacheKey, start, run[..n], lo, hi)
  {
    if n == |run| {
      assert run[..n] == run;
    } else {
      WindowIsOver(p, cacheKey, start, run[..|run| - 1], lo, hi, n);
      assert run[..|run| - 1][..n] == run[..n];
    }
  }

  /** The first step at or after an instant. */
  lemma {:induction false} Cut(run: seq<Timed>, hi: int) returns (n: nat)
    requires InOrder(run)
    ensures n <= |run| && (forall i :: 0 <= i < n ==> run[i].at < hi) && forall i :: n <= i < |run| ==> run[i].at >= hi
  {
    n := |run|;
    if run != [] && run[|run| - 1].at >= hi {
      n := Cut(run[..|run| - 1], hi);
    }
  }

  /**
   In every interleaving of failing logins of one key, with no clear and at most `c` of them in flight at a time,
   every window of one lock duration records at most (c + 1) (m - 1) + c - 1 failures, m being the threshold,
   and `c` when the threshold is one.
   */
  lemma OverlappingFailuresPerWindow(p: Protector, cacheKey: string, start: Table, run: seq<Timed>, c: nat, lo: int)
    requires p.AttemptKey(cacheKey) !in start && InOrder(run) && AtMost(p, cacheKey, start, run, c) && c > 0
    ensures Recorded(p, cacheKey, start, run, lo, lo + p.LockSeconds()) <= OverlapLimit(p, c)
  {
    var n := Cut(run, lo + p.LockSeconds());
    var head := run[..n];
    assert forall k :: 0 <= k <= n ==> head[..k] == run[..k];
    WindowIsOver(p, cacheKey, start, run, lo, lo + p.LockSeconds(), n);
    var g := RunKeeps(p, cacheKey, start, head, c, lo);
    assert head[..n] == head;
    if !g.locked {
      UnlockedWithinLimit(p, cacheKey, Play(p, cacheKey, start, head), c, lo,
                          Recorded(p, cacheKey, start, head, lo, lo + p.LockSeconds()), g.d);
    }
  }

  // ---------- The bound is reached ----------

  /**
   What a run has come to: the instant of its last step, how many attempts are let in, counted and have set the
   lock, the counter and since when it runs, until when the lock may last, and the failures in the window.
   */
  datatype Shape = Shape(end: nat, checked: nat, counted: nat, locked: nat, n: nat, since: nat, until: nat, w: nat)

  ghost predicate CounterIs(p: Protector, cacheKey: string, t: Table, n: nat, since: nat) {
    var key := p.AttemptKey(cacheKey);
    if n == 0 then key !in t else key in t && t[key] == Entry(Count(n), since + p.LockSeconds())
  }

  ghost predicate Has(p: Protector, cacheKey: string, run: seq<Timed>, c: nat, lo: nat, x: Shape) {
    var s := Play(p, cacheKey, map[], run);
    && InOrder(run) && (forall i :: 0 <= i < |run| ==> run[i].at <= x.end)
    && AtMost(p, cacheKey, map[], run, c)
    && In(s.phases, Checked) == x.checked && In(s.phases, Counted) == x.counted && In(s.phases, Locked) == x.locked
    && CounterIs(p, cacheKey, s.table, x.n, x.since)
    && (p.LockKey(cacheKey) in s.table ==> s.table[p.LockKey(cacheKey)].expiry <= x.until)
    && Recorded(p, cacheKey, map[], run, lo, lo + p.LockSeconds()) == x.w
  }

  /** A run with one step more. */
  lemma Grows(p: Protector, cacheKey: string, run: seq<Timed>, c: nat, lo: nat, x: Shape, e: Timed)
    requires Has(p, cacheKey, run, c, lo, x) && x.end <= e.at
    requires InFlight(Step(p, cacheKey, Play(p, cacheKey, map[], run), e).phases) <= c
    ensures var s, longer := Play(p, cacheKey, map[], run), run + [e];
            && Play(p, cacheKey, map[], longer) == Step(p, cacheKey, s, e)
            && InOrder(longer) && (forall i :: 0 <= i < |longer| ==> longer[i].at <= e.at)
            && AtMost(p, cacheKey, map[], longer, c)
            && Recorded(p, cacheKey, map[], longer, lo, lo + p.LockSeconds())
               == x.w + (if CountOf(p, cacheKey, s, e).Some? && lo <= e.at < lo + p.LockSeconds() then 1 else 0)
  {
    var longer := run + [e];
    assert longer[..|run|] == run && longer[|run|] == e;
    forall n | 0 <= n <= |longer|
      ensures InFlight(Play(p, cacheKey, map[], longer[..n]).phases) <= c
    {
      if n <= |run| {
        assert longer[..n] == run[..n];
      } else {
        assert longer[..n] == longer;
      }
    }
  }

  lemma {:induction false} SomeIn(phases: seq<Phase>, phase: Phase) returns (i: nat)
    requires In(phases, phase) > 0
    ensures i < |phases| && phases[i] == phase
  {
    if phases[|phases| - 1] == phase {
      i := |phases| - 1;
    } else {
      i := SomeIn(phases[..|phases| - 1], phase);
    }
  }

  lemma LetInCounts(phases: seq<Phase>)
    ensures In(phases + [Checked], Checked) == In(phases, Checked) + 1
    ensures In(phases + [Checked], Counted) == In(phases, Counted)
            && In(phases + [Checked], Locked) == In(phases, Locked)
  {
    InAppended(phases, Checked, Checked);
    InAppended(phases, Checked, Counted);
    InAppended(phases, Checked, Locked);
  }

  lemma Unhindered(p: Protector, cacheKey: string, s: State, at: nat)
    requires p.LockKey(cacheKey) in s.table ==> s.table[p.LockKey(cacheKey)].expiry <= at
    ensures Step(p, cacheKey, s, Timed(at, Begin)) == State(s.table, s.phases + [Checked])
    ensures CountOf(p, cacheKey, s, Timed(at, Begin)) == None
  {
  }

  lemma LetIn(p: Protector, cacheKey: string, run: seq<Timed>, c: nat, lo: nat, x: Shape, at: nat)
    returns (run': seq<Timed>, x': Shape)
    requires Has(p, cacheKey, run, c, lo, x) && x.end <= at && x.until <= at
    requires x.checked + x.counted + x.locked < c
    ensures x' == x.(end := at, checked := x.checked + 1) && Has(p, cacheKey, run', c, lo, x')
  {
    var e, s := Timed(at, Begin), Play(p, cacheKey, map[], run);
    LetInCounts(s.phases);
    Unhindered(p, cacheKey, s, at);
    Grows(p, cacheKey, run, c, lo, x, e);
    run', x' := run + [e], x.(end := at, checked := x.checked + 1);
  }

  /** The shape after one more failure is counted. */
  function Next(p: Protector, lo: nat, x: Shape, at: nat): Shape
    requires x.checked > 0
  {
    var live := x.n > 0 && at < x.since + p.LockSeconds();
    var n := if live then x.n + 1 else 1;
    x.(end := at, checked := x.checked - 1, counted := if n >= p.Threshold() then x.counted + 1 else x.counted,
       n := n, since := if live then x.since else at,
       w := if lo <= at < lo + p.LockSeconds() then x.w + 1 else x.w)
  }

  lemma CountOne(p: Protector, cacheKey: string, run: seq<Timed>, c: nat, lo: nat, x: Shape, at: nat)
    returns (run': seq<Timed>, x': Shape)
    requires Has(p, cacheKey, run, c, lo, x) && x.end <= at && x.checked > 0
    ensures x' == Next(p, lo, x, at) && Has(p, cacheKey, run', c, lo, x')
  {
    var s := Play(p, cacheKey, map[], run);
    var i := SomeIn(s.phases, Checked);
    var e := Timed(at, Incr(i));
    KeysDiffer(p, cacheKey);
    assert run[..|run|] == run;
    Moved(s.phases, i, Step(p, cacheKey, s, e).phases[i]);
    Grows(p, cacheKey, run, c, lo, x, e);
    run', x' := run + [e], Next(p, lo, x, at);
  }

  lemma LockOne(p: Protector, cacheKey: string, run: seq<Timed>, c: nat, lo: nat, x: Shape, at: nat)
    returns (run': seq<Timed>, x': Shape)
    requires Has(p, cacheKey, run, c, lo, x) && x.end <= at && x.counted > 0 && x.until <= at + p.LockSeconds()
    ensures x' == x.(end := at, counted := x.counted - 1, locked := x.locked + 1, until := at + p.LockSeconds())
    ensures Has(p, cacheKey, run', c, lo, x')
  {
    var s := Play(p, cacheKey, map[], run);
    var i := SomeIn(s.phases, Counted);
    var e := Timed(at, Lock(i));
    KeysDiffer(p, cacheKey);
    assert run[..|run|] == run;
    Moved(s.phases, i, Locked);
    Grows(p, cacheKey, run, c, lo, x, e);
    run' := run + [e];
    x' := x.(end := at, counted := x.counted - 1, locked := x.locked + 1, until := at + p.LockSeconds());
  }

  lemma DeleteOne(p: Protector, cacheKey: string, run: seq<Timed>, c: nat, lo: nat, x: Shape, at: nat)
    returns (run': seq<Timed>, x': Shape)
    requires Has(p, cacheKey, run, c, lo, x) && x.end <= at && x.locked > 0
    ensures x' == x.(end := at, locked := x.locked - 1, n := 0) && Has(p, cacheKey, run', c, lo, x')
  {
    var s := Play(p, cacheKey, map[], run);
    var i := SomeIn(s.phases, Locked);
    var e := Timed(at, Finish(i));
    KeysDiffer(p, cacheKey);
    assert run[..|run|] == run;
    Moved(s.phases, i, Done);
    Grows(p, cacheKey, run, c, lo, x, e);
    run', x' := run + [e], x.(end := at, locked := x.locked - 1, n := 0);
  }

  /** `k` attempts let in, then all of them counted to the threshold or beyond, by a counter one short of it. */
  lemma {:induction false} LetInMany(p: Protector, cacheKey: string, run: seq<Timed>, c: nat, lo: nat, x: Shape,
                                     at: nat, k: nat)
    returns (run': seq<Timed>, x': Shape)
    requires Has(p, cacheKey, run, c, lo, x) && x.end <= at && x.until <= at
    requires x.checked + x.counted + x.locked + k <= c
    ensures x' == x.(end := if k == 0 then x.end else at, checked := x.checked + k) && Has(p, cacheKey, run', c, lo, x')
    decreases k
  {
    run', x' := run, x;
    if k > 0 {
      run', x' := LetInMany(p, cacheKey, run, c, lo, x, at, k - 1);
      run', x' := LetIn(p, cacheKey, run', c, lo, x', at);
    }
  }

  lemma {:induction false} CountMany(p: Protector, cacheKey: string, run: seq<Timed>, c: nat, lo: nat, x: Shape,
                                     at: nat, k: nat)
    returns (run': seq<Timed>, x': Shape)
    requires Has(p, cacheKey, run, c, lo, x) && x.end <= at && k <= x.checked
    requires k > 0 ==> x.n + 1 >= p.Threshold() && (x.n == 0 || at < x.since + p.LockSeconds())
    ensures Has(p, cacheKey, run', c, lo, x')
    ensures k > 0 ==> x' == x.(end := at, checked := x.checked - k, counted := x.counted + k, n := x.n + k,
                               since := if x.n == 0 then at else x.since,
                               w := if lo <= at < lo + p.LockSeconds() then x.w + k else x.w)
    ensures k == 0 ==> x' == x
    decreases k
  {
    run', x' := run, x;
    if k > 0 {
      run', x' := CountMany(p, cacheKey, run, c, lo, x, at, k - 1);
      run', x' := CountOne(p, cacheKey, run', c, lo, x', at);
    }
  }

  lemma {:induction false} LockMany(p: Protector, cacheKey: string, run: seq<Timed>, c: nat, lo: nat, x: Shape,
                                    at: nat, k: nat)
    returns (run': seq<Timed>, x': Shape)
    requires Has(p, cacheKey, run, c, lo, x) && x.end <= at && k <= x.counted && x.until <= at + p.LockSeconds()
    ensures Has(p, cacheKey, run', c, lo, x')
    ensures x' == if k == 0 then x
                  else x.(end := at, counted := x.counted - k, locked := x.locked + k, until := at + p.LockSeconds())
    decreases k
  {
    run', x' := run, x;
    if k > 0 {
      run', x' := LockMany(p, cacheKey, run, c, lo, x, at, k - 1);
      run', x' := LockOne(p, cacheKey, run', c, lo, x', at);
    }
  }

  /** `k` failures one after the other that leave the counter below the threshold. */
  lemma {:induction false} LowMany(p: Protector, cacheKey: string, run: seq<Timed>, c: nat, lo: nat, x: Shape,
                                   at: nat, k: nat)
    returns (run': seq<Timed>, x': Shape)
    requires Has(p, cacheKey, run, c, lo, x) && x.end <= at && x.until <= at && x.checked == 0
             && x.counted + x.locked < c
    requires var live := x.n > 0 && at < x.since + p.LockSeconds(); (if live then x.n + k else k) < p.Threshold()
    ensures Has(p, cacheKey, run', c, lo, x')
    ensures var live := x.n > 0 && at < x.since + p.LockSeconds();
            x' == if k == 0 then x
                  else x.(end := at, n := if live then x.n + k else k, since := if live then x.since else at,
                          w := if lo <= at < lo + p.LockSeconds() then x.w + k else x.w)
    decreases k
  {
    run', x' := run, x;
    if k > 0 {
      run', x' := LowMany(p, cacheKey, run, c, lo, x, at, k - 1);
      run', x' := LetIn(p, cacheKey, run', c, lo, x', at);
      run', x' := CountOne(p, cacheKey, run', c, lo, x', at);
    }
  }

  /** k counters of `each` failures. */
  function Fills(k: nat, each: nat): nat {
    if k == 0 then 0 else Fills(k - 1, each) + each
  }

  lemma {:induction false} FillsIs(k: nat, each: nat)
    ensures Fills(k, each) == k * each
  {
    if k > 0 {
      FillsIs(k - 1, each);
      assert (k - 1) * each + each == k * each;
    }
  }

  /** Each of `k` late deletions makes room for another counter one short of the threshold. */
  lemma {:induction false} DeleteAndRefill(p: Protector, cacheKey: string, run: seq<Timed>, c: nat, lo: nat, x: Shape,
                                           at: nat, k: nat)
    returns (run': seq<Timed>, x': Shape)
    requires Has(p, cacheKey, run, c, lo, x) && x.end == at && x.until <= at && x.checked == 0 == x.counted
    requires k <= x.locked <= c && lo <= at < lo + p.LockSeconds() && p.Threshold() >= 2
    requires x.n == p.Threshold() - 1 && x.since == at
    ensures Has(p, cacheKey, run', c, lo, x')
    ensures x' == x.(locked := x.locked - k, w := x.w + Fills(k, p.Threshold() - 1))
    decreases k
  {
    run', x' := run, x;
    if k > 0 {
      run', x' := DeleteAndRefill(p, cacheKey, run, c, lo, x, at, k - 1);
      run', x' := DeleteOne(p, cacheKey, run', c, lo, x', at);
      run', x' := LowMany(p, cacheKey, run', c, lo, x', at, p.Threshold() - 1);
    }
  }

  /** All but one of the attempts have set a lock and not deleted their counter, and both have expired at D. */
  lemma LateDeleters(p: Protector, cacheKey: string, c: nat, lo: nat) returns (run: seq<Timed>, x: Shape)
    requires p.Threshold() >= 2 && c > 0 && lo > p.LockSeconds()
    ensures Has(p, cacheKey, run, c, lo, x)
    ensures x.checked == x.counted == 0 && x.locked == c - 1 && x.w == 0 && x.n > 0
    ensures x.end == x.since == 0 && x.until <= p.LockSeconds()
  {
    run, x := [], Shape(0, 0, 0, 0, 0, 0, 0, 0);
    assert Has(p, cacheKey, run, c, lo, x);
    run, x := LowMany(p, cacheKey, run, c, lo, x, 0, p.Threshold() - 1);
    run, x := LetInMany(p, cacheKey, run, c, lo, x, 0, c - 1);
    run, x := CountMany(p, cacheKey, run, c, lo, x, 0, c - 1);
    run, x := LockMany(p, cacheKey, run, c, lo, x, 0, c - 1);
  }

  /**
   The deleters wait until the lock has expired; then a counter from before the window fills but for its first
   failure and expires, and one after each deletion; at last all attempts are let in at once.
   */
  lemma FullRun(p: Protector, cacheKey: string, c: nat) returns (run: seq<Timed>, x: Shape)
    requires p.Threshold() >= 2 && c > 0 && p.LockSeconds() >= 2
    ensures Has(p, cacheKey, run, c, p.LockSeconds() + 1, x)
    ensures x.w == 2 * p.Threshold() - 3 + Fills(c - 1, p.Threshold() - 1) + c
  {
    var d, m, lo := p.LockSeconds(), p.Threshold(), p.LockSeconds() + 1;
    run, x := LateDeleters(p, cacheKey, c, lo);
    run, x := LowMany(p, cacheKey, run, c, lo, x, d, 1);
    run, x := LowMany(p, cacheKey, run, c, lo, x, 2 * d - 1, m - 2);
    run, x := LowMany(p, cacheKey, run, c, lo, x, 2 * d, m - 1);
    run, x := DeleteAndRefill(p, cacheKey, run, c, lo, x, 2 * d, c - 1);
    run, x := LetInMany(p, cacheKey, run, c, lo, x, 2 * d, c);
    run, x := CountMany(p, cacheKey, run, c, lo, x, 2 * d, c);
  }

  lemma FullRunIsLimit(p: Protector, c: nat)
    requires p.Threshold() >= 2 && c > 0
    ensures 2 * p.Threshold() - 3 + Fills(c - 1, p.Threshold() - 1) + c == OverlapLimit(p, c)
  {
    var each := p.Threshold() - 1;
    FillsIs(c - 1, each);
    assert (c - 1) * each + 2 * each == (c + 1) * each;
  }

  /** For every threshold above one, every number of attempts in flight and every lock of two seconds or more. */
  lemma OverlapLimitIsReached(p: Protector, cacheKey: string, c: nat) returns (run: seq<Timed>)
    requires p.Threshold() >= 2 && c > 0 && p.LockSeconds() >= 2
    ensures InOrder(run) && AtMost(p, cacheKey, map[], run, c)
    ensures var lo := p.LockSeconds() + 1;
            Recorded(p, cacheKey, map[], run, lo, lo + p.LockSeconds()) == OverlapLimit(p, c)
  {
    FullRunIsLimit(p, c);
    var x;
    run, x := FullRun(p, cacheKey, c);
  }

  /** With a threshold of one, all attempts let in at once are recorded. */
  lemma OverlapLimitOfOne(p: Protector, cacheKey: string, c: nat) returns (run: seq<Timed>)
    requires p.Threshold() == 1
    ensures InOrder(run) && AtMost(p, cacheKey, map[], run, c)
    ensures Recorded(p, cacheKey, map[], run, 0, p.LockSeconds()) == OverlapLimit(p, c)
  {
    var x := Shape(0, 0, 0, 0, 0, 0, 0, 0);
    run := [];
    assert Has(p, cacheKey, run, c, 0, x);
    run, x := LetInMany(p, cacheKey, run, c, 0, x, 0, c);
    run, x := CountMany(p, cacheKey, run, c, 0, x, 0, c);
  }

  ghost predicate SequentialLimitHolds(p: Protector, cacheKey: string, c: nat) {
    forall run, lo :: InOrder(run) && AtMost(p, cacheKey, map[], run, c) ==> WithinLimit(p, cacheKey, run, lo)
  }

  predicate WithinLimit(p: Protector, cacheKey: string, run: seq<Timed>, lo: int) {
    Recorded(p, cacheKey, map[], run, lo, lo + p.LockSeconds()) <= WindowLimit(p)
  }

  /** The bound for one attempt after another holds exactly when no two attempts overlap. */
  lemma SequentialLimitNeedsOneAtATime(p: Protector, cacheKey: string, c: nat)
    requires p.Threshold() >= 2 && p.LockSeconds() >= 2
    ensures SequentialLimitHolds(p, cacheKey, c) <==> c <= 1
  {
    if c <= 1 {
      forall run, lo | InOrder(run) && AtMost(p, cacheKey, map[], run, c)
        ensures WithinLimit(p, cacheKey, run, lo)
      {
        OverlappingFailuresPerWindow(p, cacheKey, map[], run, 1, lo);
      }
    } else {
      var run := OverlapLimitIsReached(p, cacheKey, c);
      Times(p.Threshold() - 1, 3, c + 1);
      assert !WithinLimit(p, cacheKey, run, p.LockSeconds() + 1);
    }
  }
}
