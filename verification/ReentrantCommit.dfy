/** The held commits of a component that its own commits call back into, as the class that keeps them. */
module ReentrantCommit {
  import opened Slots
  import opened CommitTrees

  class Pending {
    var entries: map<int, Entry>
    var next: nat
    ghost var ran: seq<nat>
    ghost var replaced: seq<nat>
    ghost var dropped: seq<nat>
    ghost var lost: seq<nat>

    ghost function View(): State
      reads this
    {
      State(entries, next, ran, replaced, dropped, lost)
    }

    constructor ()
      ensures View() == INITIAL
    {
      entries, next := map[], 0;
      ran, replaced, dropped, lost := [], [], [], [];
    }

    /** Hold: another row's commit runs first, and the entry is then written over whatever that has left. */
    method HoldCommit(slot: int, index: int, commit: Calls)
      modifies this
      ensures View() == Held(old(View()), slot, index, commit)
      decreases Weight(View()), 1
    {
      if !IsValidSlot(slot) {
        return;
      }
      if slot !in entries || entries[slot].index != index {
        ApplyCommit(slot);
      } else {
        replaced := replaced + [entries[slot].hold];
        entries := entries - {slot};
      }
      WriteEntry(slot, index, commit);
    }

    method WriteEntry(slot: int, index: int, commit: Calls)
      requires IsValidSlot(slot)
      modifies this
      ensures View() == Put(old(View()), slot, index, commit)
    {
      if slot in entries {
        lost := lost + [entries[slot].hold];
        assert entries[slot := Entry(index, next, commit)] == (entries - {slot})[slot := Entry(index, next, commit)];
      }
      entries := entries[slot := Entry(index, next, commit)];
      next := next + 1;
    }

    method ApplyCommit(slot: int)
      modifies this
      ensures View() == Applied(old(View()), slot)
      decreases Weight(View()), 0
    {
      if IsValidSlot(slot) && slot in entries {
        var taken := entries[slot];
        ghost var rest := Taken(View(), slot);
        entries := entries - {slot};
        ran := ran + [taken.hold];
        assert View() == rest.(ran := ran);
        Run(taken.commit);
      }
    }

    method DropCommit(slot: int)
      modifies this
      ensures View() == Dropped(old(View()), slot)
    {
      if IsValidSlot(slot) && slot in entries {
        dropped := dropped + [entries[slot].hold];
        entries := entries - {slot};
      }
    }

    /** What a commit calls, in order. */
    method Run(calls: Calls)
      modifies this
      ensures View() == AllMade(old(View()), calls)
      decreases Weight(View()) + Size(calls), 3
    {
      if calls.Then? {
        match calls.call {
          case Hold(slot, index, commit) => HoldCommit(slot, index, commit);
          case ApplyNow(slot) => ApplyCommit(slot);
          case Drop(slot) => DropCommit(slot);
        }
        assert View() == Made(old(View()), calls.call);
        Run(calls.rest);
      }
    }
  }
}
