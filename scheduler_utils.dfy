/** The lenient conversion helpers of `scheduler_utils.py`: a timestamp is
    rounded to the nearest slot boundary with Python's `round` (ties go to the
    even slot) and a runtime is rounded up to whole slots. */
module SchedulerUtils {
  import opened Wrappers
  import opened SlotGrid

  /** Python's built-in `round` applied to the exact quotient n / d: the
      nearest integer, and on a tie the even one. */
  function RoundHalfEven(n: int, d: int): (r: int)
    requires d > 0
    ensures -d <= 2 * (n - r * d) <= d
    ensures 2 * (n - r * d) == d || 2 * (n - r * d) == -d ==> r % 2 == 0
  {
    var q, rem := n / d, n % d;
    assert n - q * d == rem && n - (q + 1) * d == rem - d by {
      assert (q + 1) * d == q * d + d;
    }
    if 2 * rem < d then q
    else if 2 * rem > d then q + 1
    else if q % 2 == 0 then q
    else q + 1
  }

  /** `_datetime_to_slot_index` (nearest): never fails; a time before the
      forecast start is clamped to slot 0. */
  function NearestSlotIndex(offset: int): (r: nat)
    ensures offset < 0 ==> r == 0
    ensures offset >= 0 ==> -SlotSeconds <= 2 * (offset - r * SlotSeconds) <= SlotSeconds
    ensures offset >= 0 && 2 * (offset - r * SlotSeconds) == SlotSeconds ==> r % 2 == 0
  {
    var slot := RoundHalfEven(offset, SlotSeconds);
    if slot < 0 then 0 else slot
  }

  /** `np.ceil(minutes / 30.0)` on an integer number of minutes. */
  function CeilSlots(minutes: int): (r: int)
    ensures (r - 1) * SlotMinutes < minutes <= r * SlotMinutes
  {
    (minutes + SlotMinutes - 1) / SlotMinutes
  }

  /** `_minutes_to_slots` (ceiling): the fewest whole slots that cover the
      runtime; only a non-positive runtime is an error. */
  function CeilRuntimeSlots(minutes: int): (r: Result<nat, GridError>)
    ensures r.Success? <==> minutes > 0
    ensures r.Failure? ==> r.error == NonPositiveRuntime
    ensures r.Success? ==> r.value >= 1 && (r.value - 1) * SlotMinutes < minutes <= r.value * SlotMinutes
  {
    if minutes <= 0 then Failure(NonPositiveRuntime)
    else
      var slots := CeilSlots(minutes);
      Success(if slots == 0 then 1 else slots)
  }

  /** The `slots == 0` fallback of `_minutes_to_slots` is never taken: a
      positive integer runtime always rounds up to at least one slot. */
  lemma MinimumSlotFallbackUnreachable(minutes: int)
    requires minutes > 0
    ensures CeilSlots(minutes) >= 1
  {
  }

  /** Python's `round` sends a time exactly halfway between two slot
      boundaries, whichever way it goes, to the even slot. */
  lemma NearestTieIsEven(offset: int)
    requires offset >= 0
    requires 2 * (offset - NearestSlotIndex(offset) * SlotSeconds) == SlotSeconds
          || 2 * (offset - NearestSlotIndex(offset) * SlotSeconds) == -SlotSeconds
    ensures NearestSlotIndex(offset) % 2 == 0
  {
  }

  /** 10 minutes past a boundary rounds back to that boundary, 20 minutes
      past rounds on to the next one. */
  lemma NearestTenAndTwentyMinutes(slot: nat)
    ensures NearestSlotIndex(slot * SlotSeconds + 10 * 60) == slot
    ensures NearestSlotIndex(slot * SlotSeconds + 20 * 60) == slot + 1
  {
  }

  /** Ties go to the even slot: 15 minutes gives slot 0, 45 minutes slot 2. */
  lemma NearestTiesToEven()
    ensures NearestSlotIndex(15 * 60) == 0
    ensures NearestSlotIndex(45 * 60) == 2
  {
  }

  /** A 100-minute runtime needs 4 slots: 90 minutes fall short and 120 cover it. */
  lemma HundredMinutesNeedFourSlots()
    ensures CeilRuntimeSlots(100) == Success(4)
  {
  }

  /** An aligned time at or after the start survives the trip to a slot and back. */
  lemma NearestRoundTrip(offset: int)
    requires offset >= 0 && offset % SlotSeconds == 0
    ensures SlotToOffset(NearestSlotIndex(offset)) == Success(offset)
  {
  }
}
