/** The worked example at the foot of `scheduler_alg.py`: a 48-hour forecast
    made of the same day twice, and five appliances asked for on day 1 from
    00:00. Times are seconds after that midnight. */
module Scenarios {
  import opened Wrappers
  import opened SlotGrid
  import opened SlidingWindow
  import opened Scheduler

  const Low: real := 20.0
  const Mid: real := 50.0
  const Peak: real := 100.0

  /** One day of half-hour costs: overnight low, morning peak, daytime,
      midday solar low, evening peak, late evening. */
  function DayPattern(): (p: seq<real>)
    ensures |p| == 48
  {
    seq(12, _ => Low) + seq(6, _ => Peak) + seq(8, _ => Mid)
      + seq(8, _ => Low) + seq(10, _ => Peak) + seq(4, _ => Mid)
  }

  /** The 96-slot forecast the strict scheduler insists on. */
  function TestForecast(): (f: seq<real>)
    ensures |f| == StrictForecastSlots
  {
    DayPattern() + DayPattern()
  }

  const Hour: int := 3600

  /** The appliances of the worked example. */
  const WashingMachine: Job := Job(Some("Washing Machine"), 120, At(9 * Hour), At(17 * Hour))
  const Dishwasher: Job := Job(Some("Dishwasher"), 90, At(18 * Hour), At(23 * Hour))
  const EvCharger: Job := Job(Some("EV Charger"), 240, At(0), At(6 * Hour))
  const ImpossibleJob: Job := Job(Some("Impossible Job"), 60, At(10 * Hour), At(10 * Hour + 30 * 60))
  const CrossDayJob: Job := Job(Some("Cross-Day Job"), 180, At(22 * Hour), At(32 * Hour))

  /** Slot `i` of the forecast, by block. */
  lemma ForecastCosts(i: int)
    requires 0 <= i < 96
    ensures TestForecast()[i] >= Low
    ensures i % 48 < 12 ==> TestForecast()[i] == Low
    ensures 12 <= i % 48 < 18 ==> TestForecast()[i] == Peak
    ensures 18 <= i % 48 < 26 ==> TestForecast()[i] == Mid
    ensures 26 <= i % 48 < 34 ==> TestForecast()[i] == Low
    ensures 34 <= i % 48 < 44 ==> TestForecast()[i] == Peak
    ensures 44 <= i % 48 ==> TestForecast()[i] == Mid
  {
    var d := DayPattern();
    assert TestForecast()[i] == d[i % 48];
  }

  /** "Washing Machine": two hours between 09:00 and 17:00. The daytime
      block costs 50 a slot and the midday block 20, so the run is placed at
      13:00, the first start whose four slots all cost 20. */
  lemma WashingMachineRunsAtOnePm(job: Job, f: seq<real>)
    requires job == WashingMachine && f == TestForecast()
    // job and forecast come in as parameters so the solver does not unfold
    // EarliestMinStart on literal arguments
    ensures JobOutcome(Strict, job, f)
         == Scheduled(13 * Hour)
  {
    assert Normalize(Strict, job) == Success(JobSlots(18, 34, 4));
    assert CheckFeasibility(18, 34, 4, |f|) == Feasible(18, 30);
    forall i | 18 <= i < 34 ensures f[i] >= Low && (i < 26 ==> f[i] > Low) && (26 <= i < 30 ==> f[i] == Low) {
      ForecastCosts(i);
    }
    CheapestRunChosen(f, 18, 30, 4, 26, Low);
  }

  /** Three costs add up in order. */
  lemma SumOfThree(a: real, b: real, c: real)
    ensures Sum([a, b, c]) == a + b + c
  {
    assert [a, b, c][..2] == [a, b];
    assert [a, b][..1] == [a];
    assert [a][..0] == [];
    assert Sum([a]) == a;
    assert Sum([a, b]) == a + b;
  }

  /** "Dishwasher": ninety minutes between 18:00 and 23:00. The evening peak
      lasts until 22:00, so the run is placed at 21:30, the start that keeps
      the most of it in the cheaper late-evening block. */
  lemma DishwasherRunsAtHalfPastNine(job: Job, f: seq<real>)
    requires job == Dishwasher && f == TestForecast()
    // job and forecast come in as parameters so the solver does not unfold
    // EarliestMinStart on literal arguments
    ensures JobOutcome(Strict, job, f)
         == Scheduled(21 * Hour + 30 * 60)
  {
    assert Normalize(Strict, job) == Success(JobSlots(36, 46, 3));
    assert CheckFeasibility(36, 46, 3, |f|) == Feasible(36, 43);
    forall i | 36 <= i < 46 ensures (i < 44 ==> f[i] == Peak) && (44 <= i ==> f[i] == Mid) {
      ForecastCosts(i);
    }
    forall t | 36 <= t <= 41 ensures WindowSum(f, t, 3) == 3.0 * Peak {
      WindowConstant(f, t, 3, Peak);
    }
    assert f[42..45] == [Peak, Peak, Mid];
    assert f[43..46] == [Peak, Mid, Mid];
    SumOfThree(Peak, Peak, Mid);
    SumOfThree(Peak, Mid, Mid);
    assert IsEarliestMinimiser(f, 36, 43, 3, 43);
    MinimiserUnique(f, 36, 43, 3, 43, EarliestMinStart(f, 36, 43, 3));
  }

  /** "EV Charger": four hours between 00:00 and 06:00, all of it in the
      overnight low block. Every start ties, and the earliest, 00:00, wins. */
  lemma EvChargerTieGoesToEarliest(job: Job, f: seq<real>)
    requires job == EvCharger && f == TestForecast()
    // job and forecast come in as parameters so the solver does not unfold
    // EarliestMinStart on literal arguments
    ensures JobOutcome(Strict, job, f)
         == Scheduled(0)
  {
    assert Normalize(Strict, job) == Success(JobSlots(0, 12, 8));
    assert CheckFeasibility(0, 12, 8, |f|) == Feasible(0, 4);
    forall i | 0 <= i < 12 ensures f[i] == Low {
      ForecastCosts(i);
    }
    CheapestRunChosen(f, 0, 4, 8, 0, Low);
  }

  /** "Impossible Job": one hour asked for in a half-hour window. */
  lemma ImpossibleJobIsUnschedulable(job: Job, f: seq<real>)
    requires job == ImpossibleJob && f == TestForecast()
    // job and forecast come in as parameters so the solver does not unfold
    // EarliestMinStart on literal arguments
    ensures JobOutcome(Strict, job, f)
         == Unschedulable(TooShort)
  {
    assert Normalize(Strict, job) == Success(JobSlots(20, 21, 2));
  }

  /** "Cross-Day Job": three hours between 22:00 on day 1 and 08:00 on day 2.
      The late-evening slots cost 50 and day 2 opens with its overnight low,
      so the run starts at midnight between the two days. */
  lemma CrossDayJobRunsAtMidnight(job: Job, f: seq<real>)
    requires job == CrossDayJob && f == TestForecast()
    // job and forecast come in as parameters so the solver does not unfold
    // EarliestMinStart on literal arguments
    ensures JobOutcome(Strict, job, f)
         == Scheduled(24 * Hour)
  {
    assert Normalize(Strict, job) == Success(JobSlots(44, 64, 6));
    assert CheckFeasibility(44, 64, 6, |f|) == Feasible(44, 58);
    forall i | 44 <= i < 64 ensures f[i] >= Low && (i < 48 ==> f[i] > Low) && (48 <= i < 54 ==> f[i] == Low) {
      ForecastCosts(i);
    }
    CheapestRunChosen(f, 44, 58, 6, 48, Low);
  }

  /** The same job under the lenient policy is placed identically, since all
      of its times are on slot boundaries. */
  lemma WashingMachineSameWhenLenient()
    ensures JobOutcome(Lenient, WashingMachine, TestForecast())
         == Scheduled(13 * Hour)
  {
    WashingMachineRunsAtOnePm(WashingMachine, TestForecast());
    LenientAgreesWithStrictOnAlignedJobs(WashingMachine, TestForecast());
  }

  /** The appliance list of the worked example, in its order. */
  function TestAppliances(): (jobs: seq<Job>)
    ensures |jobs| == 5
  {
    [ WashingMachine,
      Dishwasher,
      EvCharger,
      ImpossibleJob,
      CrossDayJob ]
  }

  /** The five names of the worked example are distinct, so each job is the
      last one with its name. */
  lemma TestNamesDistinct()
    ensures AllNamed(TestAppliances())
    ensures Names(TestAppliances()) == ["Washing Machine", "Dishwasher", "EV Charger", "Impossible Job", "Cross-Day Job"]
    ensures forall i :: 0 <= i < 5 ==> LastWithName(TestAppliances(), i)
  {
    var jobs := TestAppliances();
    assert AllNamed(jobs);
    var names := Names(jobs);
    assert names == ["Washing Machine", "Dishwasher", "EV Charger", "Impossible Job", "Cross-Day Job"];
  }

  /** The expected dictionary of the worked example. */
  function ExpectedSchedule(): map<string, Option<int>>
  {
    map[
      "Washing Machine" := Some(13 * Hour),
      "Dishwasher" := Some(21 * Hour + 30 * 60),
      "EV Charger" := Some(0),
      "Impossible Job" := None,
      "Cross-Day Job" := Some(24 * Hour)]
  }

  /** The start times the worked example expects, in the order of its list. */
  function ExpectedEntries(): seq<Option<int>>
  {
    [Some(13 * Hour), Some(21 * Hour + 30 * 60), Some(0), None, Some(24 * Hour)]
  }

  /** A dictionary holding exactly the five names, each with its expected
      entry, is the expected schedule. */
  lemma ExpectedScheduleByEntries(m: map<string, Option<int>>)
    requires forall x :: 0 <= x < 5 ==> Names(TestAppliances())[x] in m
    requires forall x :: 0 <= x < 5 ==> m[Names(TestAppliances())[x]] == ExpectedEntries()[x]
    requires forall name :: name in m ==> name in Names(TestAppliances())
    ensures m == ExpectedSchedule()
  {
    TestNamesDistinct();
    var names := Names(TestAppliances());
    var e := ExpectedSchedule();
    assert e.Keys == {names[0], names[1], names[2], names[3], names[4]};
    forall name | name in m ensures name in e {
      var x :| 0 <= x < 5 && names[x] == name;
    }
    assert forall x :: 0 <= x < 5 ==> m[names[x]] == e[names[x]];
    assert m.Keys == e.Keys;
  }

  /** The whole worked example through `scheduler`: the dictionary it returns,
      with `None` for the job whose window is too short. */
  method RunTestData() returns (r: Result<map<string, Option<int>>, ScheduleError>)
    ensures r == Success(ExpectedSchedule())
  {
    var jobs := TestAppliances();
    var f := TestForecast();
    TestNamesDistinct();
    r := Schedule(Strict, jobs, f);
    var m := r.value;
    var names := Names(jobs);
    forall x | 0 <= x < 5 ensures names[x] in m && m[names[x]] == ExpectedEntries()[x] {
      assert LastWithName(jobs, x);
      OutcomeOfTestAppliance(x, f);
    }
    forall name | name in m ensures name in names {
      var i :| 0 <= i < |jobs| && jobs[i].name == Some(name);
      assert name == names[i];
    }
    ExpectedScheduleByEntries(m);
  }

  /** What `scheduler_alg.py` decides for each appliance of the worked example. */
  lemma OutcomeOfTestAppliance(x: int, f: seq<real>)
    requires 0 <= x < 5 && f == TestForecast()
    ensures JobOutcome(Strict, TestAppliances()[x], f).Entry() == ExpectedEntries()[x]
  {
    if x == 0 {
      WashingMachineRunsAtOnePm(TestAppliances()[x], f);
    } else if x == 1 {
      DishwasherRunsAtHalfPastNine(TestAppliances()[x], f);
    } else if x == 2 {
      EvChargerTieGoesToEarliest(TestAppliances()[x], f);
    } else if x == 3 {
      ImpossibleJobIsUnschedulable(TestAppliances()[x], f);
    } else {
      CrossDayJobRunsAtMidnight(TestAppliances()[x], f);
    }
  }

  /** A name given twice keeps the entry of its later job, even when the
      earlier job could run and the later one cannot. */
  method DuplicateNameKeepsLastJob() returns (r: Result<map<string, Option<int>>, ScheduleError>)
    ensures r == Success(map["Dryer" := None])
  {
    var fits := Job(Some("Dryer"), 30, At(0), At(SlotSeconds));
    var tooLong := Job(Some("Dryer"), 60, At(0), At(SlotSeconds));
    var jobs := [fits, tooLong];
    r := Schedule(Lenient, jobs, [1.0]);
    assert Normalize(Lenient, tooLong) == Success(JobSlots(0, 1, 2));
    SharedNameKeepsLastJob(Lenient, jobs, [1.0], r.value, "Dryer");
  }
}
