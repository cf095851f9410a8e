/** The 30-minute slot grid shared by both scheduler variants.
    A point in time is an integer number of seconds from the forecast start;
    slot `i` covers the half-open interval [i * SlotSeconds, (i + 1) * SlotSeconds). */
module SlotGrid {
  import opened Wrappers

  /** Length of one forecast slot, in minutes and in seconds. */
  const SlotMinutes: int := 30
  const SlotSeconds: int := 1800  // 30 * 60

  /** The `ValueError`s raised by the conversion helpers. */
  datatype GridError =
    | MisalignedTimestamp   // strict policy: offset is not a whole number of slots
    | MisalignedRuntime     // exact policy: runtime is not a positive multiple of 30 minutes
    | NonPositiveRuntime    // ceiling policy: runtime is zero or negative
    | NegativeSlotIndex     // a negative slot index was converted back to a time

  /** `_slot_index_to_datetime`: the start of a slot, as an offset in seconds.
      Both scheduler files define this helper identically. */
  function SlotToOffset(slot: int): (r: Result<int, GridError>)
    ensures r.Failure? <==> slot < 0
    ensures r.Failure? ==> r.error == NegativeSlotIndex
    ensures r.Success? ==> r.value >= 0 && r.value % SlotSeconds == 0 && r.value / SlotSeconds == slot
  {
    if slot < 0 then Failure(NegativeSlotIndex)
    else Success(slot * SlotMinutes * 60)
  }
}
