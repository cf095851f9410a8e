# Carbon-aware appliance scheduler

A Dafny model of the GreenHome appliance scheduler. There are two versions
of it, and both are modelled.

- `src/backend/scheduler/scheduler_alg.py` is the strict version:
  - every time must fall on the half-hour grid;
  - every runtime must be a whole number of half-hours;
  - the carbon forecast must hold exactly 96 half-hour slots.
- `src/backend/scheduler/scheduler_utils.py` is the lenient version:
  - times are rounded to the nearest slot with Python's `round`;
  - runtimes are rounded up to whole slots;
  - any non-empty forecast is accepted.

The `scheduler` function works the same way in both versions. For each
appliance it:

1. converts the earliest start and the latest end to slot indices;
2. converts the runtime to a number of slots;
3. rejects a job whose window is too short, or whose window ends past the
   forecast;
4. slides a window of the run's length over the forecast and keeps the
   first start with the lowest total cost;
5. writes the start time, or `None`, under the appliance's name in the
   result dictionary.

An error inside an appliance's `try` block makes that appliance `None` and
does not affect the others; an appliance without a name aborts the whole
call.

Modelling conventions:

- A time is an integer number of seconds after the forecast start. A
  forecast is a `seq<real>` of per-slot costs.
- `Scheduler.Policy` selects the file: `Strict` is `scheduler_alg.py` and
  `Lenient` is `scheduler_utils.py`.
- The conversion helpers of each file are kept apart:
  - `SchedulerAlg` holds the strict helpers;
  - `SchedulerUtils` holds the lenient ones;
  - `SlotGrid` holds the slot-to-time helper, which both files define the
    same way.
- The feasibility test and the slide live in `SlidingWindow`. The
  feasibility test is specified by if-and-only-if conditions on the window
  and the forecast length. The slide is specified against a reference
  definition, `EarliestMinStart`, which is characterised by
  `IsEarliestMinimiser`.
- The per-appliance loop and the dictionary it fills are the method
  `Scheduler.Schedule`. The dictionary is a `map<string, Option<int>>`.
- `Scenarios` replays the worked example at the foot of `scheduler_alg.py`.

## Model

| member | source | states |
|---|---|---|
| SlotGrid.SlotToOffset | src/backend/scheduler/scheduler_alg.py:24-30 | Fails exactly on a negative slot index. Otherwise the time is a non-negative multiple of 30 minutes whose slot is the given index. `scheduler_utils.py:24-30` is the same helper. |
| SchedulerAlg.StrictSlotIndex | src/backend/scheduler/scheduler_alg.py:4-22 | Succeeds exactly when the offset is a whole number of slots; the alignment test runs before clamping. An aligned offset at or after the start gives slot × 30 min = offset. An aligned offset before the start gives slot 0. |
| SchedulerAlg.ExactRuntimeSlots | src/backend/scheduler/scheduler_alg.py:32-36 | Succeeds exactly when the runtime is a positive multiple of 30. Then slots × 30 = minutes and slots ≥ 1. |
| SchedulerAlg.TimeSlotTimeRoundTrip | src/backend/scheduler/scheduler_alg.py:4-30 | An aligned, non-negative time converts to a slot and back to the same time. |
| SchedulerAlg.SlotTimeSlotRoundTrip | src/backend/scheduler/scheduler_alg.py:4-30 | A non-negative slot converts to a time and back to the same slot. |
| SchedulerUtils.RoundHalfEven | src/backend/scheduler/scheduler_utils.py:16 | Python `round` of an exact quotient: within half a unit of n/d, and even on a tie. |
| SchedulerUtils.NearestSlotIndex | src/backend/scheduler/scheduler_utils.py:7-22 | Never fails. A time before the start gives slot 0. Otherwise the slot boundary is within 15 minutes of the time, and a tie rounded down lands on an even slot; `NearestTieIsEven` covers ties in both directions. |
| SchedulerUtils.CeilSlots | src/backend/scheduler/scheduler_utils.py:41 | Integer ceiling of minutes / 30: (r−1)·30 < minutes ≤ r·30. |
| SchedulerUtils.CeilRuntimeSlots | src/backend/scheduler/scheduler_utils.py:32-44 | Fails exactly on a non-positive runtime. Otherwise it returns the fewest whole slots covering the runtime, and at least 1. |
| SchedulerUtils.MinimumSlotFallbackUnreachable | src/backend/scheduler/scheduler_utils.py:41-43 | A positive integer runtime always rounds up to at least one slot, so the `slots == 0` fallback is dead. |
| SchedulerUtils.NearestTenAndTwentyMinutes | src/backend/scheduler/scheduler_utils.py:12-16 | 10 minutes past a boundary rounds to that slot. 20 minutes past rounds to the next slot. |
| SchedulerUtils.NearestTieIsEven | src/backend/scheduler/scheduler_utils.py:16 | At or after the start, a time exactly halfway between two boundaries goes to the even slot, whether that rounds it down or up. |
| SchedulerUtils.NearestTiesToEven | src/backend/scheduler/scheduler_utils.py:16 | 15 minutes gives slot 0 and 45 minutes gives slot 2 (ties to even). |
| SchedulerUtils.HundredMinutesNeedFourSlots | src/backend/scheduler/scheduler_utils.py:32-44 | 100 minutes needs 4 slots. |
| SchedulerUtils.NearestRoundTrip | src/backend/scheduler/scheduler_utils.py:7-30 | An aligned, non-negative time converts to its nearest slot and back to the same time. |
| SlidingWindow.SlideStep | src/backend/scheduler/scheduler_alg.py:105-111 | Dropping the slot that leaves and adding the slot that enters turns one window's sum into the next window's sum. |
| SlidingWindow.CheckFeasibility | src/backend/scheduler/scheduler_alg.py:74-89 | Too short exactly when earliest + k > latest end. Beyond the forecast exactly when the window fits but its end is past the forecast. Feasible exactly when earliest + k ≤ latest end ≤ n. The start range is [earliest, latest end − k]. |
| SlidingWindow.InitialWindowCost | src/backend/scheduler/scheduler_alg.py:95-99 | The accumulating loop returns the sum of the first window. |
| SlidingWindow.EarliestMinStart | src/backend/scheduler/scheduler_alg.py:101-115 | The reference start lies in the range. It is no dearer than any start in the range, and strictly cheaper than every earlier start. |
| SlidingWindow.MinimiserUnique | src/backend/scheduler/scheduler_alg.py:113-115 | Optimality plus the earliest tie-break determine the start uniquely. |
| SlidingWindow.BestStart | src/backend/scheduler/scheduler_alg.py:101-115 | The slide, with a running cost equal to the current window sum, returns the earliest cheapest start, which is `EarliestMinStart`. |
| SlidingWindow.ExactFitStartsAtEarliest | src/backend/scheduler/scheduler_alg.py:75-115 | When the window exactly fits the run, the job is feasible and starts at its earliest slot. |
| SlidingWindow.CheapestRunChosen | src/backend/scheduler/scheduler_alg.py:101-115 | The chosen start is s when both hold: the whole run at s sits at the lowest cost of the range, and every earlier start begins on a dearer slot. |
| Scheduler.Normalize | src/backend/scheduler/scheduler_alg.py:62-72 | A malformed time is reported as such. Under the strict policy, conversion succeeds exactly for aligned times and a positive multiple-of-30 runtime. Under the lenient policy, it succeeds exactly for present times and a positive runtime. The run length is at least 1. |
| Scheduler.ScheduleJob | src/backend/scheduler/scheduler_alg.py:62-125 | One appliance's `try` block, with its explicit initial-cost loop or its slice sum, equals `JobOutcome`: convert, check feasibility, then take the earliest cheapest start as a time. |
| Scheduler.GatherStep | src/backend/scheduler/scheduler_alg.py:81-125 | One dictionary assignment extends the invariant "every name seen is a key, every key is a name seen, and each name holds its last job's value". |
| Scheduler.GatheredJobs | src/backend/scheduler/scheduler_alg.py:57-127 | Once the loop has seen every job, the dictionary satisfies `ScheduleOf`. |
| Scheduler.Schedule | src/backend/scheduler/scheduler_alg.py:38-127 | Fails as a whole exactly when the forecast is rejected (not 96 slots under `Strict`, empty under `Lenient`) or an appliance has no name. Otherwise every name is a key and every key is a name. Each name maps to the outcome of the last job carrying it, computed from that job alone. `scheduler_utils.py:46-110` is the same loop, with an empty forecast as its only forecast rejection; it also reads the name outside the `try`. |
| Scheduler.SharedNameKeepsLastJob | src/backend/scheduler/scheduler_alg.py:59-125 | Last write wins: when every appliance has the same name, the dictionary is that one name with the last appliance's outcome. |
| Scheduler.ScheduledSlots | src/backend/scheduler/scheduler_alg.py:74-118 | A scheduled job passed conversion and both checks. Its start is a non-negative slot boundary and the earliest minimiser of its window. |
| Scheduler.StrictSlotsExact | src/backend/scheduler/scheduler_alg.py:4-36 | Strict conversion is exact: slots × 30 = runtime, and aligned times map to exactly their slots (clamped to 0 before the start). |
| Scheduler.StrictStartWithinRequest | src/backend/scheduler/scheduler_alg.py:64-121 | A strictly scheduled start is aligned and not before the earliest start. The run ends by the latest end and within the forecast. |
| Scheduler.StrictStartIsCheapest | src/backend/scheduler/scheduler_alg.py:92-121 | Compared with any aligned start the request allows, the strict start costs no more, and strictly less than any earlier one. |
| Scheduler.LenientSlotsNear | src/backend/scheduler/scheduler_utils.py:7-44 | Lenient conversion moves each time by at most 15 minutes (or clamps it to 0). The run covers the runtime with less than a slot to spare. |
| Scheduler.LenientStartNearRequest | src/backend/scheduler/scheduler_utils.py:63-104 | A leniently scheduled start is aligned and at most 15 minutes before the earliest start. Its reserved slots cover the runtime, end at most 15 minutes after the latest end, and stay within the forecast. |
| Scheduler.LenientCanStartEarly | src/backend/scheduler/scheduler_utils.py:12-22 | Rounding does move starts: a job asked for 15 minutes in is placed at the forecast start. |
| Scheduler.AlignedSlotIndexAgrees | src/backend/scheduler/scheduler_utils.py:7-22 | On aligned times, the strict and nearest slot conversions agree. |
| Scheduler.WholeSlotRuntimeAgrees | src/backend/scheduler/scheduler_utils.py:32-44 | On whole-slot runtimes, the exact and ceiling conversions agree. |
| Scheduler.LenientAgreesWithStrictOnAlignedJobs | src/backend/scheduler/scheduler_utils.py:57-104 | Every job the strict version accepts is decided identically by the lenient version. |
| Scenarios.TestForecast | src/backend/scheduler/scheduler_alg.py:177-191 | The example forecast is the 48-slot day pattern twice, 96 slots. |
| Scenarios.ForecastCosts | src/backend/scheduler/scheduler_alg.py:182-189 | The cost of each slot of the example forecast, by block. |
| Scenarios.WashingMachineRunsAtOnePm | src/backend/scheduler/scheduler_alg.py:145-150 | The washing machine (2 h, 09:00 to 17:00) is scheduled at 13:00. |
| Scenarios.DishwasherRunsAtHalfPastNine | src/backend/scheduler/scheduler_alg.py:151-156 | The dishwasher (1.5 h, 18:00 to 23:00) is scheduled at 21:30. |
| Scenarios.EvChargerTieGoesToEarliest | src/backend/scheduler/scheduler_alg.py:157-162 | The EV charger (4 h, 00:00 to 06:00) ties everywhere and is scheduled at 00:00. |
| Scenarios.ImpossibleJobIsUnschedulable | src/backend/scheduler/scheduler_alg.py:163-168 | One hour in a half-hour window is unschedulable because the window is too short. |
| Scenarios.CrossDayJobRunsAtMidnight | src/backend/scheduler/scheduler_alg.py:169-174 | The cross-day job (3 h, 22:00 to 08:00 the next day) is scheduled at midnight. |
| Scenarios.WashingMachineSameWhenLenient | src/backend/scheduler/scheduler_utils.py:57-104 | The lenient version places the washing machine at 13:00 too. |
| Scenarios.TestNamesDistinct | src/backend/scheduler/scheduler_alg.py:144-175 | The five example names are distinct, so each appliance decides its own entry. |
| Scenarios.OutcomeOfTestAppliance | src/backend/scheduler/scheduler_alg.py:144-175 | The dictionary value of each example appliance. |
| Scenarios.ExpectedScheduleByEntries | src/backend/scheduler/scheduler_alg.py:196 | A dictionary with exactly the five names and their expected values is the expected schedule. |
| Scenarios.RunTestData | src/backend/scheduler/scheduler_alg.py:135-196 | `scheduler` on the worked example returns 13:00, 21:30, 00:00, `None` and 00:00 the next day. |
| Scenarios.DuplicateNameKeepsLastJob | src/backend/scheduler/scheduler_utils.py:57-110 | Two appliances named alike leave one entry, from the later appliance, even though only the earlier one could run. |

## Left out

- Parsing and formatting of ISO 8601 strings (`datetime.fromisoformat`, `.isoformat()`) are not modelled. The model takes offsets in seconds and returns offsets in seconds. A missing time key, an unparsable string, or a naive time against an aware forecast start all raise inside the `try`. The model represents each of them as the `Malformed` timestamp, and the job becomes `None`.
- A missing or non-integer `runtime_min` is not modelled: the model takes integer minutes only. In the source a missing key raises inside the `try` and the job becomes `None`. A float runtime behaves differently in the two files. `scheduler_utils.py` rounds it up with `np.ceil` and schedules the job normally (45.5 minutes gives 2 slots). `scheduler_alg.py` turns 60.0 into 2.0 slots, which then fails at `range(runtime_slots)`, so the job becomes `None`.
- Python float arithmetic is not modelled. Costs are exact reals, so the running cost of the slide equals the window sum exactly. In the source, floating-point rounding could in principle reorder near-ties.
- `float('inf')` as the initial minimum is not modelled. It is overwritten before use in both files.
- `np.ceil` on a float is modelled as an integer ceiling.
- Time offsets are whole seconds. Sub-second offsets are not modelled, nor is float rounding of `total_seconds() / 60`.
- The `print` diagnostics and warnings are not modelled. `Reason` records which warning applies.
- `datetime` overflow when adding a huge slot index to the forecast start is not modelled.
- The `datetime.fromisoformat` failure for times outside its range is not modelled separately; it is part of `Malformed`.
- The lenient `_datetime_to_slot_index` uses Python `round`, which sends a time halfway between two boundaries to the even slot (15 minutes gives slot 0, 45 minutes gives slot 2). The model follows the code's `round`.
- SchedulerUtils.NearestSlotIndex: its own ensures states the even slot only for a tie rounded down. The round-up tie is stated by the lemma `SchedulerUtils.NearestTieIsEven`, because putting both directions in the function's contract makes `Scheduler.Schedule` too costly to verify.
- The key order of the result is not modelled. A Python dict keeps keys in first-insertion order, and `json.dumps` prints them in that order, so a repeated name keeps its first position while taking its last value. The model's `map<string, Option<int>>` has no order; nothing in the scheduler depends on it.
- The other parts of the repository are outside this model:
  - the carbon-intensity data collection and the XGBoost model;
  - the Django inference command, models, serializers, views and URLs;
  - the React front end.
