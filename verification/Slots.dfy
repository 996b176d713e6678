/** Player slots, and the optional value the models share. */
module Slots {

  const MAX_PLAYERS := 64
  const EVERYONE_SLOT := -1

  predicate IsValidSlot(slot: int) {
    0 <= slot < MAX_PLAYERS
  }

  datatype Option<+T> = None | Some(value: T)
}
