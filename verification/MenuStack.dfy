/** The held commits and the menu stack with their fields changed in place. */
module MenuStack {
  import opened Slots
  import PC = PendingCommits
  import MS = MenuStacks

  class PendingCommit {
    var entries: map<int, PC.Entry>
    var timers: map<nat, int>  // the scheduler's live timers
    var next: nat
    ghost var ran: seq<nat>

    ghost function View(): PC.State
      reads this
    {
      PC.State(entries, timers, ran, next)
    }

    constructor ()
      ensures View() == PC.INITIAL
    {
      entries, timers, next := map[], map[], 0;
      ran := [];
    }

    /** Runs what the slot holds, if anything; the entry goes first. */
    method RunHeld(slot: int)
      modifies this
      ensures View() == PC.DoApply(old(View()), slot)
    {
      if slot in entries {
        var taken := entries[slot];
        entries := entries - {slot};
        ran := ran + [taken.hold];
        timers := timers - {taken.hold};
      }
    }

    method ForgetHeld(slot: int)
      modifies this
      ensures View() == PC.Forget(old(View()), slot)
    {
      if slot in entries {
        timers := timers - {entries[slot].hold};
        entries := entries - {slot};
      }
    }

    method Hold(slot: int, index: int)
      modifies this
      ensures View() == PC.Apply(old(View()), PC.Hold(slot, index))
    {
      if IsValidSlot(slot) {
        if slot in entries && entries[slot].index == index {
          ForgetHeld(slot);
        } else {
          RunHeld(slot);
        }
        entries := entries[slot := PC.Entry(index, next)];
        timers := timers[next := slot];
      }
      next := next + 1;
    }

    method ApplyHeld(slot: int)
      modifies this
      ensures View() == PC.Apply(old(View()), PC.ApplyNow(slot))
    {
      RunHeld(slot);
      next := next + 1;
    }

    method DropHeld(slot: int)
      modifies this
      ensures View() == PC.Apply(old(View()), PC.Drop(slot))
    {
      ForgetHeld(slot);
      next := next + 1;
    }

    method OnSlotChanged(slot: int)
      modifies this
      ensures View() == PC.Apply(old(View()), PC.SlotChanged(slot))
    {
      ForgetHeld(slot);
      next := next + 1;
    }

    method OnTimer(timer: nat)
      modifies this
      ensures View() == PC.Apply(old(View()), PC.Elapse(timer))
    {
      if timer in timers {
        RunHeld(timers[timer]);
      }
      next := next + 1;
    }

    function Index(slot: int): int
      reads this
    {
      if slot in entries then entries[slot].index else -1
    }
  }

  class Stack {
    var menus: map<int, seq<nat>>
    const pending: PendingCommit
    ghost var ops: seq<PC.Op>
    ghost var steppedOn: map<nat, nat>

    ghost function View(): MS.State
      reads this, pending
    {
      MS.State(menus, pending.View(), ops, steppedOn)
    }

    constructor ()
      ensures View() == MS.INITIAL && fresh(pending)
    {
      var held := new PendingCommit();
      pending := held;
      menus := map[];
      ops, steppedOn := [], map[];
    }

    function MenusOf(slot: int): seq<nat>
      reads this
    {
      if slot in menus then menus[slot] else []
    }

    method PushMenu(slot: int, menu: nat)
      modifies this
      ensures View() == MS.Apply(old(View()), MS.Push(slot, menu))
    {
      if IsValidSlot(slot) {
        menus := menus[slot := MenusOf(slot) + [menu]];
      }
    }

    method Flush(slot: int)
      modifies this, pending
      ensures View() == MS.Apply(old(View()), MS.ApplyPending(slot))
    {
      pending.ApplyHeld(slot);
      ops := ops + [PC.ApplyNow(slot)];
    }

    method PopMenu(slot: int)
      modifies this, pending
      ensures View() == MS.Apply(old(View()), MS.Pop(slot))
    {
      if !IsValidSlot(slot) || MenusOf(slot) == [] {
        return;
      }
      Flush(slot);
      menus := menus[slot := MenusOf(slot)[..|MenusOf(slot)| - 1]];
    }

    method ClearMenus(slot: int)
      modifies this, pending
      ensures View() == MS.Apply(old(View()), MS.Clear(slot))
    {
      if !IsValidSlot(slot) {
        return;
      }
      Flush(slot);
      menus := menus[slot := []];
    }

    method PopToRootMenu(slot: int)
      modifies this, pending
      ensures View() == MS.Apply(old(View()), MS.PopToRoot(slot))
    {
      if !IsValidSlot(slot) || MenusOf(slot) == [] {
        return;
      }
      Flush(slot);
      menus := menus[slot := MenusOf(slot)[..1]];
    }

    /** Activate up to the row's own handler. */
    method BeginActivate(slot: int, index: int)
      modifies this, pending
      ensures View() == MS.Apply(old(View()), MS.Activate(slot, index))
    {
      if !IsValidSlot(slot) {
        return;
      }
      if index >= 0 && pending.Index(slot) == index {
        pending.DropHeld(slot);
        ops := ops + [PC.Drop(slot)];
      } else {
        pending.ApplyHeld(slot);
        ops := ops + [PC.ApplyNow(slot)];
      }
    }

    /** The end of Step for a row that carries a commit. */
    method FinishStep(slot: int, index: int, held: nat)
      modifies this, pending
      ensures View() == MS.Apply(old(View()), MS.StepDone(slot, index, held))
    {
      if IsValidSlot(slot) && index >= 0 && MenusOf(slot) != [] && MenusOf(slot)[|MenusOf(slot)| - 1] == held {
        steppedOn := steppedOn[pending.next := held];
        pending.Hold(slot, index);
        ops := ops + [PC.Hold(slot, index)];
      }
    }

    method OnSlotChanged(slot: int)
      modifies this, pending
      ensures View() == MS.Apply(old(View()), MS.SlotChanged(slot))
    {
      menus := menus[slot := []];
      pending.OnSlotChanged(slot);
      ops := ops + [PC.SlotChanged(slot)];
    }

    method OnTimer(timer: nat)
      modifies this, pending
      ensures View() == MS.Apply(old(View()), MS.Elapse(timer))
    {
      pending.OnTimer(timer);
      ops := ops + [PC.Elapse(timer)];
    }
  }
}
