/** Counting events in half-open time windows. */
module Windows {

  /** How many of the instants lie in [lo, hi). */
  function CountIn(times: seq<nat>, lo: int, hi: int): nat {
    if times == [] then 0
    else
      var last := times[|times| - 1];
      CountIn(times[..|times| - 1], lo, hi) + (if lo <= last < hi then 1 else 0)
  }

  predicate Sorted(times: seq<nat>) {
    forall i, j :: 0 <= i < j < |times| ==> times[i] <= times[j]
  }

  /** The instants number i and i + bound, if there are that many, lie at least `width` apart. */
  predicate Spread(times: seq<nat>, bound: nat, width: nat, i: nat) {
    i + bound < |times| ==> times[i + bound] >= times[i] + width
  }

  lemma {:induction false} CountInConcat(a: seq<nat>, b: seq<nat>, lo: int, hi: int)
    ensures CountIn(a + b, lo, hi) == CountIn(a, lo, hi) + CountIn(b, lo, hi)
  {
    if b == [] {
      assert a + b == a;
    } else {
      CountInConcat(a, b[..|b| - 1], lo, hi);
      assert (a + b)[..|a + b| - 1] == a + b[..|b| - 1];
    }
  }

  lemma {:induction false} CountInBelow(times: seq<nat>, lo: int, hi: int)
    ensures CountIn(times, lo, hi) <= |times|
    ensures (forall i :: 0 <= i < |times| ==> times[i] < lo) ==> CountIn(times, lo, hi) == 0
  {
    if times != [] {
      CountInBelow(times[..|times| - 1], lo, hi);
    }
  }

  /** A window that holds the last instant. */
  lemma LastWindow(times: seq<nat>, bound: nat, lo: int, width: nat)
    requires Sorted(times) && times != [] && lo <= times[|times| - 1] < lo + width
    requires forall i: nat :: Spread(times, bound, width, i)
    ensures CountIn(times, lo, lo + width) <= bound
  {
    var n := |times|;
    var cut := if n < bound then 0 else n - bound;
    var early, late := times[..cut], times[cut..];
    forall i | 0 <= i < cut
      ensures early[i] < lo
    {
      assert Spread(times, bound, width, i);
      assert i + bound <= n - 1;
    }
    CountInBelow(early, lo, lo + width);
    CountInBelow(late, lo, lo + width);
    CountInConcat(early, late, lo, lo + width);
    assert times == early + late;
  }

  /**
   When any `bound` + 1 consecutive instants span at least `width`, no window of that width holds more than
   `bound`.
   */
  lemma {:induction false} WindowBound(times: seq<nat>, bound: nat, lo: int, width: nat)
    requires Sorted(times)
    requires forall i: nat :: Spread(times, bound, width, i)
    ensures CountIn(times, lo, lo + width) <= bound
  {
    if times != [] {
      if lo <= times[|times| - 1] < lo + width {
        LastWindow(times, bound, lo, width);
      } else {
        var init := times[..|times| - 1];
        forall i: nat
          ensures Spread(init, bound, width, i)
        {
          assert Spread(times, bound, width, i);
        }
        WindowBound(init, bound, lo, width);
      }
    }
  }
}
