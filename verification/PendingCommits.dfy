/** One held-back commit per slot. A hold is known by its place in the trace, and so is the timer it starts. */
module PendingCommits {
  import opened Slots

  datatype Entry = Entry(index: int, hold: nat)

  /** ran is history: the holds whose commit has run, in order. */
  datatype State = State(
    entries: map<int, Entry>,  // what each slot holds back
    timers: map<nat, int>,     // the live timers and the slot each would apply
    ran: seq<nat>,
    next: nat)

  datatype Op =
    | Hold(slot: int, index: int)
    | ApplyNow(slot: int)
    | Drop(slot: int)
    | SlotChanged(slot: int)
    | Elapse(timer: nat)

  const INITIAL := State(map[], map[], [], 0)

  /** Removing the entry drops its timer. */
  function Forget(s: State, slot: int): State {
    if slot in s.entries then s.(entries := s.entries - {slot}, timers := s.timers - {s.entries[slot].hold}) else s
  }

  function DoApply(s: State, slot: int): State {
    if slot in s.entries then Forget(s, slot).(ran := s.ran + [s.entries[slot].hold]) else s
  }

  function DoHold(s: State, slot: int, index: int): State {
    var s := if slot in s.entries && s.entries[slot].index == index then Forget(s, slot) else DoApply(s, slot);
    s.(entries := s.entries[slot := Entry(index, s.next)], timers := s.timers[s.next := slot])
  }

  function Do(s: State, op: Op): State {
    match op
    case Hold(slot, index) => if IsValidSlot(slot) then DoHold(s, slot, index) else s
    case ApplyNow(slot) => DoApply(s, slot)
    case Drop(slot) => Forget(s, slot)
    case SlotChanged(slot) => Forget(s, slot)
    case Elapse(timer) => if timer in s.timers then DoApply(s, s.timers[timer]) else s
  }

  function Apply(s: State, op: Op): State {
    Do(s, op).(next := s.next + 1)
  }

  function After(ops: seq<Op>): State {
    if ops == [] then INITIAL else Apply(After(ops[..|ops| - 1]), ops[|ops| - 1])
  }
}
