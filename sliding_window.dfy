/** Feasibility test and sliding-window minimisation over the forecast, as
    both scheduler files do it once a job has been converted to slots.
    Costs are exact reals rather than Python floats. */
module SlidingWindow {

  /** Sum of a run of costs, added left to right from 0 as Python's `sum` does. */
  function Sum(s: seq<real>): real
  {
    if s == [] then 0.0 else Sum(s[..|s| - 1]) + s[|s| - 1]
  }

  /** Total cost of running for `k` slots from slot `start`. */
  function WindowSum(f: seq<real>, start: nat, k: nat): real
    requires start + k <= |f|
  {
    Sum(f[start..start + k])
  }

  /** The sum can be peeled from the front as well as from the back. */
  lemma {:induction false} SumFront(s: seq<real>)
    requires s != []
    ensures Sum(s) == s[0] + Sum(s[1..])
  {
    if |s| > 1 {
      SumFront(s[..|s| - 1]);
      assert s[..|s| - 1][1..] == s[1..][..|s| - 2];
    }
  }

  /** One step of the slide: drop the slot that leaves, add the one that enters. */
  lemma SlideStep(f: seq<real>, start: nat, k: nat)
    requires 1 <= start && start + k <= |f|
    ensures WindowSum(f, start, k) == WindowSum(f, start - 1, k) - f[start - 1] + f[start + k - 1]
  {
    var w := f[start - 1..start + k];
    assert w[..k] == f[start - 1..start - 1 + k];
    assert w[1..] == f[start..start + k];
    SumFront(w);
  }

  /** Outcome of the two feasibility checks on a job already in slots. */
  datatype Feasibility =
    | Feasible(earliest: nat, latestStart: nat)  // inclusive range of valid start slots
    | WindowTooShort                             // the window cannot hold one full run
    | OutOfForecastRange                         // the latest run would end past the forecast

  /** The checks made before the slide: first that the job's window can hold
      `k` slots, then that its end lies within the `n`-slot forecast. */
  function CheckFeasibility(earliest: nat, latestEnd: nat, k: nat, n: nat): (r: Feasibility)
    ensures r == WindowTooShort <==> earliest + k > latestEnd
    ensures r == OutOfForecastRange <==> earliest + k <= latestEnd && latestEnd > n
    ensures r.Feasible? <==> earliest + k <= latestEnd <= n
    ensures r.Feasible? ==> r.earliest == earliest && r.latestStart + k == latestEnd
  {
    var latestStart := latestEnd - k;
    if latestStart < earliest then WindowTooShort
    else if latestStart + k > n then OutOfForecastRange
    else Feasible(earliest, latestStart)
  }

  /** The cost of the first window, accumulated slot by slot
      (the explicit loop of `scheduler_alg.py`). */
  method InitialWindowCost(f: seq<real>, lo: nat, k: nat) returns (cost: real)
    requires lo + k <= |f|
    ensures cost == WindowSum(f, lo, k)
  {
    cost := 0.0;
    for i := 0 to k
      invariant cost == Sum(f[lo..lo + i])
    {
      assert f[lo..lo + i + 1][..i] == f[lo..lo + i];
      cost := cost + f[lo + i];
    }
  }

  /** `s` is a cheapest start in [lo, hi] and no earlier start is as cheap. */
  ghost predicate IsEarliestMinimiser(f: seq<real>, lo: nat, hi: nat, k: nat, s: int)
    requires hi + k <= |f|
  {
    && lo <= s <= hi
    && (forall t :: lo <= t <= hi ==> WindowSum(f, s, k) <= WindowSum(f, t, k))
    && (forall t :: lo <= t < s ==> WindowSum(f, s, k) < WindowSum(f, t, k))
  }

  /** Reference definition of the chosen start, by recursion on the range:
      the first start wins unless a later one is strictly cheaper. */
  function EarliestMinStart(f: seq<real>, lo: nat, hi: nat, k: nat): (s: nat)
    requires lo <= hi && hi + k <= |f|
    ensures IsEarliestMinimiser(f, lo, hi, k, s)
    decreases hi - lo
  {
    if lo == hi then lo
    else
      var rest := EarliestMinStart(f, lo + 1, hi, k);
      if WindowSum(f, lo, k) <= WindowSum(f, rest, k) then lo else rest
  }

  /** Optimality together with the earliest-start tie-break pins down one start. */
  lemma MinimiserUnique(f: seq<real>, lo: nat, hi: nat, k: nat, s1: int, s2: int)
    requires hi + k <= |f|
    requires IsEarliestMinimiser(f, lo, hi, k, s1) && IsEarliestMinimiser(f, lo, hi, k, s2)
    ensures s1 == s2
  {
    // each is at most as costly as the other, so neither can be strictly earlier
    assert WindowSum(f, s1, k) == WindowSum(f, s2, k);
  }

  /** The slide of both scheduler files: a running window cost updated in
      O(1) per step, with a strict `<` so that ties keep the earliest start. */
  method BestStart(f: seq<real>, lo: nat, hi: nat, k: nat, initialCost: real) returns (best: nat)
    requires lo <= hi && hi + k <= |f|
    requires initialCost == WindowSum(f, lo, k)
    ensures IsEarliestMinimiser(f, lo, hi, k, best)
    ensures best == EarliestMinStart(f, lo, hi, k)
  {
    var current := initialCost;
    var minCost := current;
    best := lo;
    for start := lo + 1 to hi + 1
      invariant current == WindowSum(f, start - 1, k)
      invariant lo <= best < start
      invariant minCost == WindowSum(f, best, k)
      invariant forall t :: lo <= t < start ==> minCost <= WindowSum(f, t, k)
      invariant forall t :: lo <= t < best ==> minCost < WindowSum(f, t, k)
    {
      var drop := f[start - 1];
      var add := f[start + k - 1];
      SlideStep(f, start, k);
      current := current - drop + add;
      if current < minCost {
        minCost := current;
        best := start;
      }
    }
    MinimiserUnique(f, lo, hi, k, best, EarliestMinStart(f, lo, hi, k));
  }

  /** When the window exactly fits the run, the only possible start is the earliest. */
  lemma ExactFitStartsAtEarliest(f: seq<real>, earliest: nat, k: nat)
    requires earliest + k <= |f|
    ensures CheckFeasibility(earliest, earliest + k, k, |f|) == Feasible(earliest, earliest)
    ensures EarliestMinStart(f, earliest, earliest, k) == earliest
  {
  }

  /** A run whose every cost is at least `c` costs at least `c` per slot,
      and strictly more when slot `j` costs more than `c`. */
  lemma {:induction false} SumAtLeast(s: seq<real>, c: real, j: int)
    requires forall i :: 0 <= i < |s| ==> s[i] >= c
    ensures Sum(s) >= |s| as real * c
    ensures 0 <= j < |s| && s[j] > c ==> Sum(s) > |s| as real * c
  {
    if s != [] {
      var init := s[..|s| - 1];
      SumAtLeast(init, c, j);
      assert |s| as real * c == |init| as real * c + c;
    }
  }

  /** A run whose every cost is `c` costs exactly `c` per slot. */
  lemma {:induction false} SumConstant(s: seq<real>, c: real)
    requires forall i :: 0 <= i < |s| ==> s[i] == c
    ensures Sum(s) == |s| as real * c
  {
    if s != [] {
      var init := s[..|s| - 1];
      SumConstant(init, c);
      assert |s| as real * c == |init| as real * c + c;
    }
  }

  /** A start whose whole run sits at the floor cost `c` of the range is
      chosen when every earlier start begins on a dearer slot. */
  lemma CheapestRunChosen(f: seq<real>, lo: nat, hi: nat, k: nat, s: nat, c: real)
    requires lo <= s <= hi && hi + k <= |f| && k >= 1
    requires forall i :: lo <= i < hi + k ==> f[i] >= c
    requires forall i :: s <= i < s + k ==> f[i] == c
    requires forall t :: lo <= t < s ==> f[t] > c
    ensures EarliestMinStart(f, lo, hi, k) == s
  {
    var floor := k as real * c;
    forall t | lo <= t <= hi
      ensures WindowSum(f, t, k) >= floor
      ensures t < s ==> WindowSum(f, t, k) > floor
    {
      WindowAtLeast(f, t, k, c);
    }
    WindowConstant(f, s, k, c);
    assert IsEarliestMinimiser(f, lo, hi, k, s);
    MinimiserUnique(f, lo, hi, k, s, EarliestMinStart(f, lo, hi, k));
  }

  /** `SumAtLeast` for the window of `k` slots from `t`. */
  lemma WindowAtLeast(f: seq<real>, t: nat, k: nat, c: real)
    requires t + k <= |f| && k >= 1
    requires forall i :: t <= i < t + k ==> f[i] >= c
    ensures WindowSum(f, t, k) >= k as real * c
    ensures f[t] > c ==> WindowSum(f, t, k) > k as real * c
  {
    var run := f[t..t + k];
    assert forall i :: 0 <= i < |run| ==> run[i] == f[t + i];
    SumAtLeast(run, c, 0);
    assert WindowSum(f, t, k) == Sum(run);
  }

  /** `SumConstant` for the window of `k` slots from `t`. */
  lemma WindowConstant(f: seq<real>, t: nat, k: nat, c: real)
    requires t + k <= |f|
    requires forall i :: t <= i < t + k ==> f[i] == c
    ensures WindowSum(f, t, k) == k as real * c
  {
    var run := f[t..t + k];
    assert forall i :: 0 <= i < |run| ==> run[i] == f[t + i];
    SumConstant(run, c);
    assert WindowSum(f, t, k) == Sum(run);
  }
}
