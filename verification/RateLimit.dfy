/** The per-key request limiter: one counter for each API key and minute, kept for sixty seconds. */
module RateLimit {
  import opened Decimal
  import opened Redis
  import opened Text
  import opened Wrappers

  const MINUTE := 60
  const BUCKET_TTL := 60 * SECOND

  function Bucket(now: nat): nat {
    now / MINUTE
  }

  const KEY_PREFIX := "rate_limit:api_key:"

  function CounterKey(id: nat, bucket: nat): string {
    KEY_PREFIX + Digits(id) + ":" + Digits(bucket)
  }

  /** Different API keys and different minutes never share a counter. */
  lemma CounterKeyInjective(id: nat, bucket: nat, id': nat, bucket': nat)
    requires CounterKey(id, bucket) == CounterKey(id', bucket')
    ensures id == id' && bucket == bucket'
  {
    BeforeIs(Digits(id), ':', Digits(bucket));
    BeforeIs(Digits(id'), ':', Digits(bucket'));
    assert CounterKey(id, bucket)[|KEY_PREFIX|..] == Digits(id) + [':'] + Digits(bucket);
    assert CounterKey(id', bucket')[|KEY_PREFIX|..] == Digits(id') + [':'] + Digits(bucket');
    ValueDigits(id);
    ValueDigits(id');
    ValueDigits(bucket);
    ValueDigits(bucket');
  }

  // ---------- One request ----------

  /** An authenticated request: its clock reading, the instant its INCR reaches the server, and its key's limit. */
  datatype Request = Request(id: nat, read: nat, incr: nat, limit: int)

  datatype Verdict = Admitted | Limited | Unavailable

  /** Keys without a positive limit are not counted. */
  function Checked(t: Table, r: Request): (Table, Verdict) {
    if r.limit <= 0 then (t, Admitted)
    else
      var (t', count) := Incremented(t, r.incr, CounterKey(r.id, Bucket(r.read)), Seconds(BUCKET_TTL));
      (t', match count
           case None => Unavailable
           case Some(n) => if n > r.limit then Limited else Admitted)
  }

  method AuthenticateAPIKey(server: Server, r: Request) returns (verdict: Verdict)
    requires server.clock <= r.incr
    modifies server
    ensures server.clock <= r.incr
    ensures (server.table, verdict) == Checked(old(server.table), r)
  {
    if r.limit > 0 {
      var minuteBucket := r.read / MINUTE;
      var key := KEY_PREFIX + Digits(r.id) + ":" + Digits(minuteBucket);
      var count := server.Increment(key, BUCKET_TTL, r.incr);
      if count.None? {
        return Unavailable;
      }
      if count.value > r.limit {
        return Limited;
      }
    }
    return Admitted;
  }

  // ---------- Runs ----------

  function Play(run: seq<Request>): Table {
    if run == [] then map[] else Checked(Play(run[..|run| - 1]), run[|run| - 1]).0
  }

  predicate IsAdmitted(run: seq<Request>, i: nat)
    requires i < |run|
  {
    Checked(Play(run[..i]), run[i]).1 == Admitted
  }

  /**
   INCRs reach the server in order, each at most `delay` seconds after the request read its clock;
   every request of the key `id` carries the same positive limit.
   */
  predicate WellTimed(run: seq<Request>, id: nat, limit: int, delay: nat) {
    && limit > 0
    && (forall i :: 0 <= i < |run| ==> run[i].read <= run[i].incr <= run[i].read + delay)
    && (forall i, j :: 0 <= i < j < |run| ==> run[i].incr <= run[j].incr)
    && forall i :: 0 <= i < |run| && run[i].id == id ==> run[i].limit == limit
  }

  /** Admitted requests of the key whose minute is one of `count` minutes from `first`. */
  function AdmittedFrom(run: seq<Request>, id: nat, first: nat, count: nat): nat {
    if run == [] then 0
    else
      var n := |run| - 1;
      AdmittedFrom(run[..n], id, first, count)
      + (if run[n].id == id && first <= Bucket(run[n].read) < first + count && IsAdmitted(run, n) then 1 else 0)
  }

  /** How many sixty-second counters one minute's key can have; one when the clock reading and INCR are one step. */
  function Lifetimes(delay: nat): nat {
    1 + (delay + MINUTE - 1) / MINUTE
  }

  // ---------- One bucket ----------

  /**
   What a minute's key knows after a run: it has had `lives` counters, and the last of them has counted
   `n` requests since `since`.
   */
  ghost predicate BucketState(run: seq<Request>, id: nat, limit: int, delay: nat, b: nat, lives: nat, n: int,
                              since: nat) {
    var t, key, admitted := Play(run), CounterKey(id, b), AdmittedFrom(run, id, b, 1);
    if lives == 0 then key !in t && admitted == 0
    else
      && n >= 1
      && key in t && t[key] == Entry(Count(n), since + MINUTE)
      && MINUTE * b + MINUTE * (lives - 1) <= since < MINUTE * (b + 1) + delay
      && admitted <= limit * (lives - 1) + (if n < limit then n else limit)
  }

  lemma BucketStep(run: seq<Request>, id: nat, limit: int, delay: nat, b: nat, lives: nat, n: int, since: nat)
    returns (lives': nat, n': int, since': nat)
    requires run != [] && WellTimed(run, id, limit, delay)
    requires BucketState(run[..|run| - 1], id, limit, delay, b, lives, n, since)
    ensures BucketState(run, id, limit, delay, b, lives', n', since')
  {
    var last := |run| - 1;
    var r, t := run[last], Play(run[..last]);
    var key := CounterKey(id, b);
    lives', n', since' := lives, n, since;
    if r.limit > 0 {
      if r.id == id && Bucket(r.read) == b {
        if lives > 0 && r.incr < since + MINUTE {
          n' := n + 1;
        } else {
          lives', n', since' := lives + 1, 1, r.incr;
          assert limit * lives == limit * (lives - 1) + limit;
        }
      } else if CounterKey(r.id, Bucket(r.read)) == key {
        CounterKeyInjective(r.id, Bucket(r.read), id, b);
      }
    }
  }

  lemma {:induction false} BucketRun(run: seq<Request>, id: nat, limit: int, delay: nat, b: nat)
    returns (lives: nat, n: int, since: nat)
    requires WellTimed(run, id, limit, delay)
    ensures BucketState(run, id, limit, delay, b, lives, n, since)
  {
    if run == [] {
      lives, n, since := 0, 0, 0;
    } else {
      lives, n, since := BucketRun(run[..|run| - 1], id, limit, delay, b);
      lives, n, since := BucketStep(run, id, limit, delay, b, lives, n, since);
    }
  }

  lemma MulMonotone(limit: int, x: int, y: int)
    requires limit >= 0 && x <= y
    ensures limit * x <= limit * y
  {
  }

  /** One minute admits at most its limit for every counter its key can have. */
  lemma AdmittedPerBucket(run: seq<Request>, id: nat, limit: int, delay: nat, b: nat)
    requires WellTimed(run, id, limit, delay)
    ensures AdmittedFrom(run, id, b, 1) <= limit * Lifetimes(delay)
    ensures delay == 0 ==> AdmittedFrom(run, id, b, 1) <= limit
  {
    var lives, n, since := BucketRun(run, id, limit, delay, b);
    if lives > 0 {
      assert limit * (lives - 1) + limit == limit * lives;
      MulMonotone(limit, lives, Lifetimes(delay));
    }
  }

  /** Requests of the key in minute `b`, admitted or not. */
  function Arrived(run: seq<Request>, id: nat, b: nat): nat {
    if run == [] then 0
    else
      var n := |run| - 1;
      Arrived(run[..n], id, b) + (if run[n].id == id && Bucket(run[n].read) == b then 1 else 0)
  }

  /**
   Without delay the minute's counter counts its requests and outlives the minute: the first L are admitted,
   no other.
   */
  lemma {:induction false} AdmitsExactlyTheLimit(run: seq<Request>, id: nat, limit: int, b: nat)
    requires WellTimed(run, id, limit, 0)
    ensures AdmittedFrom(run, id, b, 1) == (if Arrived(run, id, b) < limit then Arrived(run, id, b) else limit)
    ensures var t, key := Play(run), CounterKey(id, b);
            if Arrived(run, id, b) == 0 then key !in t
            else key in t && t[key].value == Count(Arrived(run, id, b)) && t[key].expiry >= MINUTE * (b + 1)
  {
    if run != [] {
      var r := run[|run| - 1];
      AdmitsExactlyTheLimit(run[..|run| - 1], id, limit, b);
      if r.limit > 0 && CounterKey(r.id, Bucket(r.read)) == CounterKey(id, b) {
        CounterKeyInjective(r.id, Bucket(r.read), id, b);
      }
    }
  }

  // ---------- Intervals ----------

  lemma {:induction false} AdmittedSplit(run: seq<Request>, id: nat, first: nat, count: nat)
    ensures AdmittedFrom(run, id, first, count + 1)
            == AdmittedFrom(run, id, first, count) + AdmittedFrom(run, id, first + count, 1)
  {
    if run != [] {
      AdmittedSplit(run[..|run| - 1], id, first, count);
    }
  }

  lemma {:induction false} AdmittedPerBuckets(run: seq<Request>, id: nat, per: nat, first: nat, count: nat)
    requires forall b :: AdmittedFrom(run, id, b, 1) <= per
    ensures AdmittedFrom(run, id, first, count) <= count * per
    decreases count
  {
    if count == 0 {
      NoneInNoBuckets(run, id, first);
    } else {
      AdmittedPerBuckets(run, id, per, first, count - 1);
      AdmittedSplit(run, id, first, count - 1);
      assert (count - 1) * per + per == count * per;
    }
  }

  lemma {:induction false} NoneInNoBuckets(run: seq<Request>, id: nat, first: nat)
    ensures AdmittedFrom(run, id, first, 0) == 0
  {
    if run != [] {
      NoneInNoBuckets(run[..|run| - 1], id, first);
    }
  }

  /** Admitted requests of the key whose clock reading lies in [lo, hi). */
  function AdmittedBetween(run: seq<Request>, id: nat, lo: nat, hi: nat): nat {
    if run == [] then 0
    else
      var n := |run| - 1;
      AdmittedBetween(run[..n], id, lo, hi)
      + (if run[n].id == id && lo <= run[n].read < hi && IsAdmitted(run, n) then 1 else 0)
  }

  lemma {:induction false} IntervalInBuckets(run: seq<Request>, id: nat, lo: nat, k: nat)
    ensures AdmittedBetween(run, id, lo, lo + MINUTE * k) <= AdmittedFrom(run, id, Bucket(lo), k + 1)
  {
    if run != [] {
      IntervalInBuckets(run[..|run| - 1], id, lo, k);
    }
  }

  /**
   In every run, an interval of k minutes admits at most (k + 1) * L requests of a key with limit L
   for every counter a minute can have, so (k + 1) * L when clock reading and INCR are one step.
   */
  lemma AdmittedPerInterval(run: seq<Request>, id: nat, limit: int, delay: nat, lo: nat, k: nat)
    requires WellTimed(run, id, limit, delay)
    ensures AdmittedBetween(run, id, lo, lo + MINUTE * k) <= (k + 1) * (limit * Lifetimes(delay))
    ensures delay == 0 ==> AdmittedBetween(run, id, lo, lo + MINUTE * k) <= (k + 1) * limit
  {
    IntervalInBuckets(run, id, lo, k);
    forall b
      ensures AdmittedFrom(run, id, b, 1) <= limit * Lifetimes(delay)
    {
      AdmittedPerBucket(run, id, limit, delay, b);
    }
    AdmittedPerBuckets(run, id, limit * Lifetimes(delay), Bucket(lo), k + 1);
    assert delay == 0 ==> limit * Lifetimes(delay) == limit;
  }

  // ---------- The bounds are reached ----------

  /** A run for one key, the last request of which reaches the server no later than `end`. */
  ghost predicate Played(run: seq<Request>, id: nat, limit: int, delay: nat, end: nat) {
    WellTimed(run, id, limit, delay) && forall i :: 0 <= i < |run| ==> run[i].incr <= end
  }

  lemma RunGrows(run: seq<Request>, id: nat, limit: int, delay: nat, r: Request)
    requires Played(run, id, limit, delay, r.incr) && r.limit == limit && r.read <= r.incr <= r.read + delay
    ensures Played(run + [r], id, limit, delay, r.incr)
  {
  }

  lemma PlayGrows(run: seq<Request>, r: Request)
    ensures Play(run + [r]) == Checked(Play(run), r).0
    ensures IsAdmitted(run + [r], |run|) <==> Checked(Play(run), r).1 == Admitted
  {
    assert (run + [r])[..|run|] == run;
  }

  /** What one more admitted request adds to the counts. */
  lemma CountsGrow(run: seq<Request>, r: Request, first: nat, count: nat, lo: nat, hi: nat)
    requires Checked(Play(run), r).1 == Admitted
    ensures AdmittedFrom(run + [r], r.id, first, count)
            == AdmittedFrom(run, r.id, first, count) + (if first <= Bucket(r.read) < first + count then 1 else 0)
    ensures AdmittedBetween(run + [r], r.id, lo, hi)
            == AdmittedBetween(run, r.id, lo, hi) + (if lo <= r.read < hi then 1 else 0)
  {
    PlayGrows(run, r);
    assert (run + [r])[..|run|] == run;
  }

  /** The n-th request of a counter, admitted while n stays within the limit. */
  lemma NextOfCounter(t: Table, r: Request, n: nat)
    requires n < r.limit
    requires var key := CounterKey(r.id, Bucket(r.read));
             if n == 0 then !Live(t, r.incr, key) else key in t && t[key] == Entry(Count(n), r.incr + MINUTE)
    ensures var key := CounterKey(r.id, Bucket(r.read));
            Checked(t, r) == (t[key := Entry(Count(n + 1), r.incr + MINUTE)], Admitted)
  {
  }

  /** Some requests of a minute, all at one instant, from a counter that is not running. */
  lemma {:induction false} FillCounter(run: seq<Request>, limit: int, delay: nat, r: Request, n: nat,
                                       first: nat, count: nat, lo: nat, hi: nat)
    returns (run': seq<Request>)
    requires Played(run, r.id, limit, delay, r.incr) && r.limit == limit && 0 < n <= limit
    requires r.read <= r.incr <= r.read + delay && !Live(Play(run), r.incr, CounterKey(r.id, Bucket(r.read)))
    ensures Played(run', r.id, limit, delay, r.incr)
    ensures Play(run') == Play(run)[CounterKey(r.id, Bucket(r.read)) := Entry(Count(n), r.incr + MINUTE)]
    ensures AdmittedFrom(run', r.id, first, count)
            == AdmittedFrom(run, r.id, first, count) + (if first <= Bucket(r.read) < first + count then n else 0)
    ensures AdmittedBetween(run', r.id, lo, hi)
            == AdmittedBetween(run, r.id, lo, hi) + (if lo <= r.read < hi then n else 0)
    decreases n
  {
    var before := run;
    if n > 1 {
      before := FillCounter(run, limit, delay, r, n - 1, first, count, lo, hi);
    }
    run' := before + [r];
    RunGrows(before, r.id, limit, delay, r);
    NextOfCounter(Play(before), r, n - 1);
    PlayGrows(before, r);
    CountsGrow(before, r, first, count, lo, hi);
  }

  /**
   The requests that open a minute's k-th counter: the first at its start, later ones having read as late as
   they may.
   */
  function Opening(id: nat, limit: int, b: nat, k: nat): Request {
    Request(id, if k == 0 then MINUTE * b else MINUTE * b + MINUTE - 1, MINUTE * b + MINUTE * k, limit)
  }

  lemma {:induction false} FillCounters(id: nat, limit: int, delay: nat, b: nat, k: nat) returns (run: seq<Request>)
    requires limit > 0 && k <= Lifetimes(delay)
    ensures Played(run, id, limit, delay, MINUTE * b + MINUTE * k)
    ensures AdmittedFrom(run, id, b, 1) == limit * k
    ensures !Live(Play(run), MINUTE * b + MINUTE * k, CounterKey(id, b))
    decreases k
  {
    run := [];
    if k > 0 {
      var before := FillCounters(id, limit, delay, b, k - 1);
      var r := Opening(id, limit, b, k - 1);
      assert Bucket(r.read) == b;
      run := FillCounter(before, limit, delay, r, limit, b, 1, 0, 0);
      assert limit * (k - 1) + limit == limit * k;
    }
  }

  /** For every limit and every delay some run fills a minute to the bound. */
  lemma BucketLimitIsReached(id: nat, limit: int, delay: nat, b: nat) returns (run: seq<Request>)
    requires limit > 0
    ensures WellTimed(run, id, limit, delay) && AdmittedFrom(run, id, b, 1) == limit * Lifetimes(delay)
  {
    run := FillCounters(id, limit, delay, b, Lifetimes(delay));
  }

  ghost predicate MinutesKeepLimit(id: nat, limit: int, delay: nat) {
    forall run, b: nat :: WellTimed(run, id, limit, delay) ==> AdmittedFrom(run, id, b, 1) <= limit
  }

  /** The limit of a minute holds in every run exactly when no INCR is delayed past the clock reading. */
  lemma LimitHoldsExactlyWithoutDelay(id: nat, limit: int, delay: nat)
    requires limit > 0
    ensures MinutesKeepLimit(id, limit, delay) <==> delay == 0
  {
    if delay == 0 {
      forall run, b: nat | WellTimed(run, id, limit, delay)
        ensures AdmittedFrom(run, id, b, 1) <= limit
      {
        AdmittedPerBucket(run, id, limit, delay, b);
      }
    } else {
      var run := BucketLimitIsReached(id, limit, delay, 0);
      MulMonotone(limit, 2, Lifetimes(delay));
    }
  }

  lemma OneTimesMore(k: nat, limit: int)
    ensures k * limit + limit == (k + 1) * limit
  {
  }

  /** A full counter in the last second of each of n minutes. */
  lemma {:induction false} FillMinutes(id: nat, limit: int, n: nat, lo: nat, hi: nat) returns (run: seq<Request>)
    requires limit > 0 && lo < MINUTE && MINUTE * n <= hi
    ensures Played(run, id, limit, 0, MINUTE * n)
    ensures forall b: nat :: b >= n ==> CounterKey(id, b) !in Play(run)
    ensures AdmittedBetween(run, id, lo, hi) == n * limit
    decreases n
  {
    run := [];
    if n > 0 {
      var before := FillMinutes(id, limit, n - 1, lo, hi);
      var r := Request(id, MINUTE * n - 1, MINUTE * n - 1, limit);
      assert Bucket(r.read) == n - 1;
      run := FillCounter(before, limit, 0, r, limit, 0, 0, lo, hi);
      forall b: nat | b >= n
        ensures CounterKey(id, b) !in Play(run)
      {
        OtherMinute(id, b, n - 1);
      }
      OneTimesMore(n - 1, limit);
    }
  }

  lemma OtherMinute(id: nat, b: nat, b': nat)
    requires b != b'
    ensures CounterKey(id, b) != CounterKey(id, b')
  {
    if CounterKey(id, b) == CounterKey(id, b') {
      CounterKeyInjective(id, b, id, b');
    }
  }

  /**
   For every limit and every number k of minutes some run without delay fills an interval of k minutes to
   (k + 1) * L.
   */
  lemma IntervalLimitIsReached(id: nat, limit: int, k: nat) returns (run: seq<Request>)
    requires limit > 0 && k > 0
    ensures WellTimed(run, id, limit, 0)
    ensures AdmittedBetween(run, id, MINUTE - 1, MINUTE - 1 + MINUTE * k) == (k + 1) * limit
  {
    var before := FillMinutes(id, limit, k, MINUTE - 1, MINUTE - 1 + MINUTE * k);
    var r := Request(id, MINUTE * k, MINUTE * k, limit);
    assert Bucket(r.read) == k;
    run := FillCounter(before, limit, 0, r, limit, 0, 0, MINUTE - 1, MINUTE - 1 + MINUTE * k);
    OneTimesMore(k, limit);
  }

  // ---------- One request ----------

  /**
   A key without a positive limit is always admitted and counts nothing. Any other request counts one in its own
   counter and no other, and is admitted up to the limit and limited beyond; it is unavailable only when the counter's
   key holds no number.
   */
  lemma RequestIs(t: Table, r: Request)
    ensures r.limit <= 0 ==> Checked(t, r) == (t, Admitted)
    ensures r.limit > 0 ==>
              var key := "rate_limit:api_key:" + Digits(r.id) + ":" + Digits(r.read / 60);
              var (t', verdict) := Checked(t, r);
              var live := Live(t, r.incr, key);
              var before := if live && t[key].value.Count? then t[key].value.n else 0;
              && (forall other :: other != key ==>
                    (other in t <==> other in t') && (other in t ==> t'[other] == t[other]))
              && (verdict == Unavailable <==> live && t[key].value.Text?)
              && (verdict == Admitted <==> !(live && t[key].value.Text?) && before + 1 <= r.limit)
              && (verdict != Unavailable ==> key in t' && t'[key].value == Count(before + 1))
              && (!live ==> t'[key].expiry == r.incr + 60)
              && (live && before >= 1 ==> t'[key].expiry == t[key].expiry)
  {
  }
}
