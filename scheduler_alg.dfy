/** The strict conversion helpers of `scheduler_alg.py`: a timestamp must lie
    exactly on a slot boundary and a runtime must be a positive multiple of
    30 minutes, otherwise the helper raises. */
module SchedulerAlg {
  import opened Wrappers
  import opened SlotGrid

  /** `_datetime_to_slot_index` (strict): the alignment test comes first, so a
      misaligned time before the forecast start is an error too; an aligned
      time before the start is clamped to slot 0. */
  function StrictSlotIndex(offset: int): (r: Result<nat, GridError>)
    ensures r.Success? <==> offset % SlotSeconds == 0
    ensures r.Failure? ==> r.error == MisalignedTimestamp
    ensures r.Success? && offset >= 0 ==> r.value * SlotSeconds == offset
    ensures r.Success? && offset < 0 ==> r.value == 0
  {
    if offset % SlotSeconds != 0 then Failure(MisalignedTimestamp)
    else
      // Python's `//` floors, as Dafny's `/` does for a positive divisor
      var slot := offset / SlotSeconds;
      if slot < 0 then Success(0) else Success(slot)
  }

  /** `_minutes_to_slots` (exact): the runtime as a whole number of slots. */
  function ExactRuntimeSlots(minutes: int): (r: Result<nat, GridError>)
    ensures r.Success? <==> minutes > 0 && minutes % SlotMinutes == 0
    ensures r.Failure? ==> r.error == MisalignedRuntime
    ensures r.Success? ==> r.value >= 1 && r.value * SlotMinutes == minutes
  {
    if minutes <= 0 || minutes % SlotMinutes != 0 then Failure(MisalignedRuntime)
    else Success(minutes / SlotMinutes)
  }

  /** An aligned time at or after the forecast start survives the trip to a
      slot index and back. */
  lemma TimeSlotTimeRoundTrip(offset: int)
    requires offset >= 0 && offset % SlotSeconds == 0
    ensures StrictSlotIndex(offset).Success?
    ensures SlotToOffset(StrictSlotIndex(offset).value) == Success(offset)
  {
  }

  /** Every non-negative slot index survives the trip to a time and back. */
  lemma SlotTimeSlotRoundTrip(slot: int)
    requires slot >= 0
    ensures SlotToOffset(slot).Success?
    ensures StrictSlotIndex(SlotToOffset(slot).value) == Success(slot)
  {
  }
}
