/** The `scheduler` entry point of both scheduler files: every job is
    converted to slots, checked for feasibility and placed on its cheapest
    run by the sliding window; the results are gathered into a dictionary
    from job name to start time, or to `None` when the job cannot run.
    The two files differ only in their conversion helpers and in the
    forecast length they accept, which `Policy` selects. */
module Scheduler {
  import opened Wrappers
  import opened SlotGrid
  import SchedulerAlg
  import SchedulerUtils
  import opened SlidingWindow

  /** Which scheduler file is modelled. */
  datatype Policy =
    | Strict    // scheduler_alg.py: aligned times, exact runtimes, 96 slots
    | Lenient   // scheduler_utils.py: nearest slot, runtime rounded up, any non-empty forecast

  /** The number of slots (48 hours) `scheduler_alg.py` insists on. */
  const StrictForecastSlots: nat := 96

  /** A job time after `datetime.fromisoformat`: seconds from the forecast
      start, or `Malformed` when no such offset exists (missing key, a string
      that is not ISO 8601, or a time that cannot be subtracted from the
      forecast start). */
  datatype Timestamp = At(offset: int) | Malformed

  /** One appliance entry of the input list; `name` is `None` when the entry
      has no 'name' key. */
  datatype Job = Job(name: Option<string>, runtimeMin: int, earliestStart: Timestamp, latestEnd: Timestamp)

  /** Why a job is left unscheduled (the source prints it and stores `None`). */
  datatype Reason =
    | MalformedTimestamp
    | ConversionError(error: GridError)
    | TooShort          // the window cannot hold the run
    | BeyondForecast    // the latest end lies past the forecast

  datatype Outcome = Scheduled(start: int) | Unschedulable(reason: Reason)
  {
    /** The dictionary value: the start time, or `None`. */
    function Entry(): Option<int>
    {
      if Scheduled? then Some(start) else None
    }
  }

  /** Errors that abort the whole call. */
  datatype ScheduleError =
    | WrongForecastLength(length: nat)  // scheduler_alg.py: the forecast is not 96 slots long
    | EmptyForecast                     // scheduler_utils.py: the forecast has no slots
    | MissingName                       // an entry without 'name', which is read outside the `try`

  /** The job converted to slots: its window [earliest, latestEnd) and its run length. */
  datatype JobSlots = JobSlots(earliest: nat, latestEnd: nat, runtime: nat)

  /** `_datetime_to_slot_index` of the selected file. */
  function SlotIndex(policy: Policy, offset: int): Result<nat, GridError>
  {
    match policy
    case Strict => SchedulerAlg.StrictSlotIndex(offset)
    case Lenient => Success(SchedulerUtils.NearestSlotIndex(offset))
  }

  /** `_minutes_to_slots` of the selected file. */
  function RuntimeSlots(policy: Policy, minutes: int): Result<nat, GridError>
  {
    match policy
    case Strict => SchedulerAlg.ExactRuntimeSlots(minutes)
    case Lenient => SchedulerUtils.CeilRuntimeSlots(minutes)
  }

  /** The forecast-length test made before the loop over jobs. */
  predicate ForecastAccepted(policy: Policy, length: nat)
  {
    match policy
    case Strict => length == StrictForecastSlots
    case Lenient => length != 0
  }

  /** The conversions at the top of the `try` block, in the source's order:
      both times are parsed, then converted to slots, then the runtime is. */
  function Normalize(policy: Policy, job: Job): (r: Result<JobSlots, Reason>)
    ensures r.Failure? && r.error == MalformedTimestamp <==> job.earliestStart.Malformed? || job.latestEnd.Malformed?
    ensures r.Success? ==> r.value.runtime >= 1
    ensures policy == Strict ==>
      (r.Success? <==> && job.earliestStart.At? && job.earliestStart.offset % SlotSeconds == 0
                       && job.latestEnd.At? && job.latestEnd.offset % SlotSeconds == 0
                       && job.runtimeMin > 0 && job.runtimeMin % SlotMinutes == 0)
    ensures policy == Lenient ==>
      (r.Success? <==> job.earliestStart.At? && job.latestEnd.At? && job.runtimeMin > 0)
  {
    if job.earliestStart.Malformed? || job.latestEnd.Malformed? then Failure(MalformedTimestamp)
    else
      match SlotIndex(policy, job.earliestStart.offset)
      case Failure(e) => Failure(ConversionError(e))
      case Success(earliest) =>
        match SlotIndex(policy, job.latestEnd.offset)
        case Failure(e) => Failure(ConversionError(e))
        case Success(latestEnd) =>
          match RuntimeSlots(policy, job.runtimeMin)
          case Failure(e) => Failure(ConversionError(e))
          case Success(runtime) => Success(JobSlots(earliest, latestEnd, runtime))
  }

  /** What the body of the loop over appliances decides for one job. */
  function JobOutcome(policy: Policy, job: Job, forecast: seq<real>): Outcome
  {
    match Normalize(policy, job)
    case Failure(reason) => Unschedulable(reason)
    case Success(slots) =>
      match CheckFeasibility(slots.earliest, slots.latestEnd, slots.runtime, |forecast|)
      case WindowTooShort => Unschedulable(TooShort)
      case OutOfForecastRange => Unschedulable(BeyondForecast)
      case Feasible(lo, hi) =>
        Scheduled(SlotToOffset(EarliestMinStart(forecast, lo, hi, slots.runtime)).value)
  }

  /** One pass of the loop over appliances: the `try` block with its early
      `continue`s, the initial window cost (an explicit loop in
      `scheduler_alg.py`, a slice `sum` in `scheduler_utils.py`) and the slide. */
  method ScheduleJob(policy: Policy, job: Job, forecast: seq<real>) returns (outcome: Outcome)
    ensures outcome == JobOutcome(policy, job, forecast)
  {
    var slots := Normalize(policy, job);
    if slots.Failure? {
      return Unschedulable(slots.error);
    }
    var k := slots.value.runtime;
    var feasibility := CheckFeasibility(slots.value.earliest, slots.value.latestEnd, k, |forecast|);
    if feasibility == WindowTooShort {
      return Unschedulable(TooShort);
    }
    if feasibility == OutOfForecastRange {
      return Unschedulable(BeyondForecast);
    }
    var lo, hi := feasibility.earliest, feasibility.latestStart;
    var cost: real;
    if policy == Strict {
      cost := InitialWindowCost(forecast, lo, k);
    } else {
      cost := Sum(forecast[lo..lo + k]);
    }
    var best := BestStart(forecast, lo, hi, k, cost);
    var start := SlotToOffset(best);
    outcome := Scheduled(start.value);
  }

  /** No name after position `x` and before `n` equals the name at `x`. */
  ghost predicate LastBefore(names: seq<string>, x: int, n: int)
    requires 0 <= x < n <= |names|
  {
    forall y :: x < y < n ==> names[y] != names[x]
  }

  /** `m` is the dictionary left by assigning `m[names[x]] = values[x]` for
      every `x < n` in order: it holds exactly those names, and each maps to
      the value of its last assignment. */
  ghost predicate Gathered<V>(names: seq<string>, values: seq<V>, m: map<string, V>, n: int)
    requires |names| == |values| && 0 <= n <= |names|
  {
    && (forall x :: 0 <= x < n ==> names[x] in m)
    && (forall name :: name in m ==> exists x :: 0 <= x < n && names[x] == name)
    && (forall x :: 0 <= x < n && LastBefore(names, x, n) ==> m[names[x]] == values[x])
  }

  /** One more dictionary assignment extends the gathered prefix by one:
      the new name wins, every other name keeps its value. */
  lemma GatherStep<V>(names: seq<string>, values: seq<V>, m: map<string, V>, n: int)
    requires |names| == |values| && 0 <= n < |names|
    requires Gathered(names, values, m, n)
    ensures Gathered(names, values, m[names[n] := values[n]], n + 1)
  {
    var m' := m[names[n] := values[n]];
    forall x | 0 <= x < n + 1 && LastBefore(names, x, n + 1)
      ensures m'[names[x]] == values[x]
    {
      if x < n {
        assert names[n] != names[x];
        assert LastBefore(names, x, n);
      }
    }
    forall name | name in m'
      ensures exists x :: 0 <= x < n + 1 && names[x] == name
    {
      if name != names[n] {
        var x :| 0 <= x < n && names[x] == name;
      }
    }
  }

  /** `GatherStep` for the assignment `m[name] = v` of the `n`th name and value. */
  lemma GatherJob<V>(names: seq<string>, values: seq<V>, m: map<string, V>, n: int, name: string, v: V)
    requires |names| == |values| && 0 <= n < |names|
    requires Gathered(names, values, m, n)
    requires names[n] == name && values[n] == v
    ensures Gathered(names, values, m[name := v], n + 1)
  {
    GatherStep(names, values, m, n);
  }

  /** Every entry of the input list carries a name. */
  ghost predicate AllNamed(jobs: seq<Job>)
  {
    forall x :: 0 <= x < |jobs| ==> jobs[x].name.Some?
  }

  /** The names of the jobs, in input order. */
  function Names(jobs: seq<Job>): (names: seq<string>)
    requires AllNamed(jobs)
    ensures |names| == |jobs| && forall x :: 0 <= x < |jobs| ==> names[x] == jobs[x].name.value
  {
    seq(|jobs|, x requires 0 <= x < |jobs| && AllNamed(jobs) => jobs[x].name.value)
  }

  /** No later job in the list has the same name as job `i`. */
  ghost predicate LastWithName(jobs: seq<Job>, i: int)
    requires AllNamed(jobs) && 0 <= i < |jobs|
  {
    LastBefore(Names(jobs), i, |jobs|)
  }

  /** `m` is the dictionary `scheduler` returns for `jobs`, all of them named:
      every name is a key, every key is a name, and the job that is last with
      its name decides its entry. */
  ghost predicate ScheduleOf(policy: Policy, jobs: seq<Job>, forecast: seq<real>, m: map<string, Option<int>>)
    requires AllNamed(jobs)
  {
    && (forall i :: 0 <= i < |jobs| ==> jobs[i].name.value in m)
    && (forall name :: name in m ==> exists i :: 0 <= i < |jobs| && jobs[i].name == Some(name))
    && (forall i :: 0 <= i < |jobs| && LastWithName(jobs, i) ==>
          m[jobs[i].name.value] == JobOutcome(policy, jobs[i], forecast).Entry())
  }

  /** The dictionary value each job would write, in input order. */
  function Entries(policy: Policy, jobs: seq<Job>, forecast: seq<real>): (entries: seq<Option<int>>)
    ensures |entries| == |jobs|
    ensures forall x :: 0 <= x < |jobs| ==> entries[x] == JobOutcome(policy, jobs[x], forecast).Entry()
  {
    seq(|jobs|, x requires 0 <= x < |jobs| => JobOutcome(policy, jobs[x], forecast).Entry())
  }

  /** A dictionary gathered from every job, read back per job: all names are
      keys, every key is a name, and each job that is last with its name
      decides its entry. */
  lemma GatheredJobs(policy: Policy, jobs: seq<Job>, forecast: seq<real>, m: map<string, Option<int>>)
    requires AllNamed(jobs)
    requires Gathered(Names(jobs), Entries(policy, jobs, forecast), m, |jobs|)
    ensures ScheduleOf(policy, jobs, forecast, m)
  {
    var names, entries := Names(jobs), Entries(policy, jobs, forecast);
    forall i | 0 <= i < |jobs|
      ensures jobs[i].name.value in m
    {
      assert names[i] in m;
    }
    forall name | name in m
      ensures exists i :: 0 <= i < |jobs| && jobs[i].name == Some(name)
    {
      var x :| 0 <= x < |jobs| && names[x] == name;
    }
    forall i | 0 <= i < |jobs| && LastWithName(jobs, i)
      ensures m[jobs[i].name.value] == JobOutcome(policy, jobs[i], forecast).Entry()
    {
      assert LastBefore(names, i, |jobs|);
      assert m[names[i]] == entries[i];
    }
  }

  /** One turn of the `scheduler` loop over a named job: the prefix stays
      named, and assigning the job's entry extends the gathered dictionary. */
  lemma ScheduleStep(policy: Policy, jobs: seq<Job>, forecast: seq<real>, names: seq<string>,
                     m: map<string, Option<int>>, i: int, outcome: Outcome)
    requires 0 <= i < |jobs| && |names| == |jobs|
    requires forall x :: 0 <= x < |jobs| ==> names[x] == jobs[x].name.GetOr("")
    requires AllNamed(jobs[..i]) && jobs[i].name.Some?
    requires Gathered(names, Entries(policy, jobs, forecast), m, i)
    requires outcome == JobOutcome(policy, jobs[i], forecast)
    ensures AllNamed(jobs[..i + 1])
    ensures Gathered(names, Entries(policy, jobs, forecast), m[jobs[i].name.value := outcome.Entry()], i + 1)
  {
    assert jobs[..i + 1] == jobs[..i] + [jobs[i]];
    GatherJob(names, Entries(policy, jobs, forecast), m, i, jobs[i].name.value, outcome.Entry());
  }

  /** `scheduler`: rejects an unacceptable forecast as a whole, and fails as a
      whole on an entry without a name; otherwise every name gets an entry,
      and the entry of a name is decided by the last job carrying it alone,
      so a failing job never disturbs another. */
  method Schedule(policy: Policy, jobs: seq<Job>, forecast: seq<real>)
    returns (r: Result<map<string, Option<int>>, ScheduleError>)
    ensures r.Failure? <==> !ForecastAccepted(policy, |forecast|) || !AllNamed(jobs)
    ensures !ForecastAccepted(policy, |forecast|) ==>
              r == Failure(if policy == Strict then WrongForecastLength(|forecast|) else EmptyForecast)
    ensures ForecastAccepted(policy, |forecast|) && !AllNamed(jobs) ==> r == Failure(MissingName)
    ensures r.Success? ==> AllNamed(jobs) && ScheduleOf(policy, jobs, forecast, r.value)
  {
    if policy == Strict && |forecast| != StrictForecastSlots {
      return Failure(WrongForecastLength(|forecast|));
    }
    if policy == Lenient && |forecast| == 0 {
      return Failure(EmptyForecast);
    }
    ghost var names := seq(|jobs|, x requires 0 <= x < |jobs| => jobs[x].name.GetOr(""));
    ghost var entries := Entries(policy, jobs, forecast);
    var schedule: map<string, Option<int>> := map[];
    for i := 0 to |jobs|
      invariant AllNamed(jobs[..i])
      invariant Gathered(names, entries, schedule, i)
    {
      if jobs[i].name.None? {
        assert !AllNamed(jobs);
        return Failure(MissingName);
      }
      var outcome := ScheduleJob(policy, jobs[i], forecast);
      ScheduleStep(policy, jobs, forecast, names, schedule, i, outcome);
      schedule := schedule[jobs[i].name.value := outcome.Entry()];
    }
    assert jobs[..|jobs|] == jobs;
    assert names == Names(jobs);
    GatheredJobs(policy, jobs, forecast, schedule);
    return Success(schedule);
  }

  /** Last write wins: when every job carries the same name, the dictionary
      holds that name alone, with the entry of the last job. */
  lemma SharedNameKeepsLastJob(policy: Policy, jobs: seq<Job>, forecast: seq<real>, m: map<string, Option<int>>, name: string)
    requires |jobs| > 0 && forall i :: 0 <= i < |jobs| ==> jobs[i].name == Some(name)
    requires AllNamed(jobs) && ScheduleOf(policy, jobs, forecast, m)
    ensures m == map[name := JobOutcome(policy, jobs[|jobs| - 1], forecast).Entry()]
  {
    assert LastWithName(jobs, |jobs| - 1);
    forall key | key in m ensures key == name {
      var i :| 0 <= i < |jobs| && jobs[i].name == Some(key);
    }
    assert m.Keys == {name};
  }

  // ---------------------------------------------------------------------
  // What a scheduled start means in terms of the request

  /** A scheduled job passed its conversions and both feasibility checks, and
      its start is the earliest cheapest slot of its window, as a time. */
  lemma ScheduledSlots(policy: Policy, job: Job, forecast: seq<real>, t: int)
    requires JobOutcome(policy, job, forecast) == Scheduled(t)
    ensures Normalize(policy, job).Success?
    ensures var n := Normalize(policy, job).value;
      && n.earliest + n.runtime <= n.latestEnd <= |forecast|
      && t >= 0 && t % SlotSeconds == 0
      && IsEarliestMinimiser(forecast, n.earliest, n.latestEnd - n.runtime, n.runtime, t / SlotSeconds)
  {
    var n := Normalize(policy, job).value;
    assert CheckFeasibility(n.earliest, n.latestEnd, n.runtime, |forecast|).Feasible?;
    var best := EarliestMinStart(forecast, n.earliest, n.latestEnd - n.runtime, n.runtime);
    assert t == best * SlotSeconds;
  }

  /** Under the strict policy a converted job is the request itself, in slots:
      aligned times convert exactly (or clamp to 0 before the start) and the
      runtime is a whole number of slots. */
  lemma StrictSlotsExact(job: Job)
    requires Normalize(Strict, job).Success?
    ensures job.earliestStart.At? && job.latestEnd.At?
    ensures var n := Normalize(Strict, job).value;
      && n.runtime * SlotMinutes == job.runtimeMin
      && (job.earliestStart.offset >= 0 ==> n.earliest * SlotSeconds == job.earliestStart.offset)
      && (job.earliestStart.offset < 0 ==> n.earliest == 0)
      && (job.latestEnd.offset >= 0 ==> n.latestEnd * SlotSeconds == job.latestEnd.offset)
      && (job.latestEnd.offset < 0 ==> n.latestEnd == 0)
  {
  }

  /** `scheduler_alg.py` honours the request exactly: the start is aligned,
      not before the earliest start, and the whole run ends by the latest end
      and within the forecast. */
  lemma StrictStartWithinRequest(job: Job, forecast: seq<real>, t: int)
    requires JobOutcome(Strict, job, forecast) == Scheduled(t)
    ensures job.earliestStart.At? && job.latestEnd.At?
    ensures job.runtimeMin > 0 && job.runtimeMin % SlotMinutes == 0
    ensures t >= 0 && t % SlotSeconds == 0
    ensures job.earliestStart.offset <= t
    ensures t + job.runtimeMin * 60 <= job.latestEnd.offset
    ensures t / SlotSeconds + job.runtimeMin / SlotMinutes <= |forecast|
  {
    ScheduledSlots(Strict, job, forecast, t);
    StrictSlotsExact(job);
  }

  /** The start `scheduler_alg.py` picks is optimal over the request: any
      aligned start `u` that the request allows costs at least as much, and
      strictly more if it is earlier. */
  lemma StrictStartIsCheapest(job: Job, forecast: seq<real>, t: int, u: int)
    requires JobOutcome(Strict, job, forecast) == Scheduled(t)
    requires job.earliestStart.At? && job.latestEnd.At?
    requires u >= 0 && u % SlotSeconds == 0 && job.earliestStart.offset <= u
    requires u + job.runtimeMin * 60 <= job.latestEnd.offset
    ensures var k := job.runtimeMin / SlotMinutes;
      && t >= 0 && t / SlotSeconds + k <= |forecast| && u / SlotSeconds + k <= |forecast|
      && WindowSum(forecast, t / SlotSeconds, k) <= WindowSum(forecast, u / SlotSeconds, k)
      && (u < t ==> WindowSum(forecast, t / SlotSeconds, k) < WindowSum(forecast, u / SlotSeconds, k))
  {
    ScheduledSlots(Strict, job, forecast, t);
    StrictSlotsExact(job);
    var n := Normalize(Strict, job).value;
    assert n.runtime == job.runtimeMin / SlotMinutes;
    var s := u / SlotSeconds;
    assert s * SlotSeconds == u;
    assert n.earliest <= s <= n.latestEnd - n.runtime;
  }

  /** Under the lenient policy each converted time is within half a slot of
      the requested one (or clamped to 0 before the start) and the run length
      covers the runtime with less than one slot to spare. */
  lemma LenientSlotsNear(job: Job)
    requires Normalize(Lenient, job).Success?
    ensures job.earliestStart.At? && job.latestEnd.At?
    ensures var n := Normalize(Lenient, job).value;
      && (n.runtime - 1) * SlotMinutes < job.runtimeMin <= n.runtime * SlotMinutes
      && (job.earliestStart.offset >= 0 ==> -SlotSeconds <= 2 * (n.earliest * SlotSeconds - job.earliestStart.offset) <= SlotSeconds)
      && (job.earliestStart.offset < 0 ==> n.earliest == 0)
      && (job.latestEnd.offset >= 0 ==> -SlotSeconds <= 2 * (n.latestEnd * SlotSeconds - job.latestEnd.offset) <= SlotSeconds)
      && (job.latestEnd.offset < 0 ==> n.latestEnd == 0)
  {
  }

  /** `scheduler_utils.py` honours the request up to rounding: the start is
      aligned and at most 15 minutes before the earliest start, and the slots
      it reserves cover the runtime, end at most 15 minutes after the latest
      end and lie within the forecast. */
  lemma LenientStartNearRequest(job: Job, forecast: seq<real>, t: int)
    requires JobOutcome(Lenient, job, forecast) == Scheduled(t)
    ensures job.earliestStart.At? && job.latestEnd.At? && job.runtimeMin > 0
    ensures t >= 0 && t % SlotSeconds == 0
    ensures 2 * (job.earliestStart.offset - t) <= SlotSeconds
    ensures var k := SchedulerUtils.CeilSlots(job.runtimeMin);
      && job.runtimeMin * 60 <= k * SlotSeconds
      && 2 * (t + k * SlotSeconds - job.latestEnd.offset) <= SlotSeconds
      && t / SlotSeconds + k <= |forecast|
  {
    ScheduledSlots(Lenient, job, forecast, t);
    LenientSlotsNear(job);
    var n := Normalize(Lenient, job).value;
    var best := t / SlotSeconds;
    assert best * SlotSeconds == t;
    RoundedRunBounds(job.earliestStart.offset, job.latestEnd.offset, job.runtimeMin,
                     n.earliest, n.latestEnd, n.runtime, best, |forecast|);
  }

  /** The arithmetic behind `LenientStartNearRequest`: a start slot between
      the rounded earliest slot and the rounded latest end, less the run. */
  lemma RoundedRunBounds(e: int, l: int, m: int, lo: nat, end: nat, k: nat, best: nat, n: nat)
    requires (k - 1) * SlotMinutes < m <= k * SlotMinutes && k >= 1
    requires e >= 0 ==> -SlotSeconds <= 2 * (lo * SlotSeconds - e) <= SlotSeconds
    requires e < 0 ==> lo == 0
    requires l >= 0 ==> -SlotSeconds <= 2 * (end * SlotSeconds - l) <= SlotSeconds
    requires l < 0 ==> end == 0
    requires lo <= best && best + k <= end <= n
    ensures 2 * (e - best * SlotSeconds) <= SlotSeconds
    ensures m * 60 <= k * SlotSeconds
    ensures 2 * (best * SlotSeconds + k * SlotSeconds - l) <= SlotSeconds
    ensures best + k <= n
  {
  }

  /** Rounding can move a start before the requested earliest start: a job
      asked to start 15 minutes in is placed at the forecast start. */
  lemma LenientCanStartEarly()
    ensures JobOutcome(Lenient, Job(Some("early"), 30, At(15 * 60), At(SlotSeconds)), [1.0]) == Scheduled(0)
  {
    var job := Job(Some("early"), 30, At(15 * 60), At(SlotSeconds));
    assert SchedulerUtils.NearestSlotIndex(15 * 60) == 0;
    assert SchedulerUtils.NearestSlotIndex(SlotSeconds) == 1;
    assert Normalize(Lenient, job) == Success(JobSlots(0, 1, 1));
    assert CheckFeasibility(0, 1, 1, 1) == Feasible(0, 0);
  }

  // ---------------------------------------------------------------------
  // The two policies compared

  /** On aligned times the two slot conversions agree. */
  lemma AlignedSlotIndexAgrees(offset: int)
    requires offset % SlotSeconds == 0
    ensures SlotIndex(Strict, offset) == SlotIndex(Lenient, offset)
  {
  }

  /** On whole-slot runtimes the two runtime conversions agree. */
  lemma WholeSlotRuntimeAgrees(minutes: int)
    requires minutes > 0 && minutes % SlotMinutes == 0
    ensures RuntimeSlots(Strict, minutes) == RuntimeSlots(Lenient, minutes)
  {
  }

  /** `scheduler_utils.py` decides every job that `scheduler_alg.py` gets past
      its conversions exactly as `scheduler_alg.py` does: the lenient file only
      differs on misaligned input. */
  lemma LenientAgreesWithStrictOnAlignedJobs(job: Job, forecast: seq<real>)
    requires Normalize(Strict, job).Success?
    ensures Normalize(Lenient, job) == Normalize(Strict, job)
    ensures JobOutcome(Lenient, job, forecast) == JobOutcome(Strict, job, forecast)
  {
    AlignedSlotIndexAgrees(job.earliestStart.offset);
    AlignedSlotIndexAgrees(job.latestEnd.offset);
    WholeSlotRuntimeAgrees(job.runtimeMin);
  }
}
