/** The menu stack above the held commits: which menu calls flush, drop or hold, and on which menu. */
module MenuStacks {
  import opened Slots
  import PC = PendingCommits
  import CF = CommitFates

  /** ops and steppedOn are history: what was asked of the held commits, and the menu each hold was made on. */
  datatype State = State(
    menus: map<int, seq<nat>>,
    pending: PC.State,
    ops: seq<PC.Op>,
    steppedOn: map<nat, nat>)

  /** StepDone is the end of Step, after the row's own handler ran; held is the menu Step began on, and the
      row carries a commit. Activate is its flush; what its handler calls are later events. */
  datatype Event =
    | Push(slot: int, menu: nat)
    | Pop(slot: int)
    | Clear(slot: int)
    | PopToRoot(slot: int)
    | Activate(slot: int, index: int)
    | StepDone(slot: int, index: int, held: nat)
    | ApplyPending(slot: int)
    | SlotChanged(slot: int)
    | Elapse(timer: nat)

  const INITIAL := State(map[], PC.INITIAL, [], map[])

  function MenusOf(s: State, slot: int): seq<nat> {
    if slot in s.menus then s.menus[slot] else []
  }

  predicate IsPending(s: State, slot: int, index: int) {
    index >= 0 && slot in s.pending.entries && s.pending.entries[slot].index == index
  }

  predicate IsCurrent(s: State, slot: int, menu: nat) {
    MenusOf(s, slot) != [] && MenusOf(s, slot)[|MenusOf(s, slot)| - 1] == menu
  }

  predicate Holds(s: State, e: Event) {
    e.StepDone? && IsValidSlot(e.slot) && e.index >= 0 && IsCurrent(s, e.slot, e.held)
  }

  /** What an event asks of the held commits, if anything. */
  function Asks(s: State, e: Event): Option<PC.Op> {
    match e
    case Push(_, _) => None
    case Pop(slot) => if IsValidSlot(slot) && MenusOf(s, slot) != [] then Some(PC.ApplyNow(slot)) else None
    case Clear(slot) => if IsValidSlot(slot) then Some(PC.ApplyNow(slot)) else None
    case PopToRoot(slot) => if IsValidSlot(slot) && MenusOf(s, slot) != [] then Some(PC.ApplyNow(slot)) else None
    case Activate(slot, index) =>
      if !IsValidSlot(slot) then None
      else if IsPending(s, slot, index) then Some(PC.Drop(slot)) else Some(PC.ApplyNow(slot))
    case StepDone(slot, index, _) => if Holds(s, e) then Some(PC.Hold(slot, index)) else None
    case ApplyPending(slot) => Some(PC.ApplyNow(slot))
    case SlotChanged(slot) => Some(PC.SlotChanged(slot))
    case Elapse(timer) => Some(PC.Elapse(timer))
  }

  function Restacked(s: State, e: Event): map<int, seq<nat>> {
    match e
    case Push(slot, menu) => if IsValidSlot(slot) then s.menus[slot := MenusOf(s, slot) + [menu]] else s.menus
    case Pop(slot) =>
      if IsValidSlot(slot) && MenusOf(s, slot) != []
      then s.menus[slot := MenusOf(s, slot)[..|MenusOf(s, slot)| - 1]] else s.menus
    case Clear(slot) => if IsValidSlot(slot) then s.menus[slot := []] else s.menus
    case PopToRoot(slot) =>
      if IsValidSlot(slot) && MenusOf(s, slot) != [] then s.menus[slot := MenusOf(s, slot)[..1]] else s.menus
    case SlotChanged(slot) => s.menus[slot := []]
    case _ => s.menus
  }

  function Apply(s: State, e: Event): State {
    var asked := Asks(s, e);
    State(Restacked(s, e),
          if asked.Some? then PC.Apply(s.pending, asked.value) else s.pending,
          if asked.Some? then s.ops + [asked.value] else s.ops,
          if Holds(s, e) then s.steppedOn[s.pending.next := e.held] else s.steppedOn)
  }

  function After(events: seq<Event>): State {
    if events == [] then INITIAL else Apply(After(events[..|events| - 1]), events[|events| - 1])
  }

  // ---- What every event keeps ----

  /** The held state is the run of what was asked. */
  ghost predicate IsRun(s: State) {
    s.pending == PC.After(s.ops) && s.pending.next == |s.ops|
  }

  /** A held commit belongs to an open menu of a valid slot. */
  ghost predicate Anchored(s: State) {
    && (forall slot | slot in s.pending.entries ::
          && IsValidSlot(slot) && MenusOf(s, slot) != []
          && s.pending.entries[slot].index >= 0 && s.pending.entries[slot].hold in s.steppedOn)
    && (forall hold | hold in s.steppedOn :: hold < s.pending.next)
  }

  lemma StepKeepsAnchored(s: State, e: Event)
    requires Anchored(s)
    ensures Anchored(Apply(s, e))
  {
  }

  lemma {:induction false} EveryRunIsAnchored(events: seq<Event>)
    ensures IsRun(After(events)) && Anchored(After(events)) && CF.TimersMatch(After(events).pending)
  {
    if events != [] {
      EveryRunIsAnchored(events[..|events| - 1]);
      StepKeepsAnchored(After(events[..|events| - 1]), events[|events| - 1]);
    }
    CF.LiveTimersAreCurrent(After(events).ops);
    CF.EveryRunAgrees(After(events).ops);
  }

  // ---- Main results ----

  /** Every way out of a menu settles what the slot held: nothing is pending afterwards, on an empty stack
      either. */
  lemma {:induction false} LeavingSettles(events: seq<Event>, e: Event)
    requires e.Pop? || e.Clear? || e.PopToRoot? || e.Activate? || e.ApplyPending? || e.SlotChanged?
    ensures e.slot !in Apply(After(events), e).pending.entries
  {
    EveryRunIsAnchored(events);
  }

  /** Only activating the very row that is held, or the slot changing hands, discards a commit; every other
      way out of the row runs it. */
  lemma {:induction false} LeavingRunsUnlessActivated(events: seq<Event>, e: Event, slot: int)
    requires slot in After(events).pending.entries && slot !in Apply(After(events), e).pending.entries
    ensures var s, t := After(events), Apply(After(events), e);
            var entry := s.pending.entries[slot];
            t.pending.ran
            == if (e.Activate? && e.slot == slot && e.index == entry.index) || (e.SlotChanged? && e.slot == slot)
               then s.pending.ran else s.pending.ran + [entry.hold]
  {
    EveryRunIsAnchored(events);
    VanishedRanUnlessActivated(After(events), e, slot);
  }

  lemma VanishedRanUnlessActivated(s: State, e: Event, slot: int)
    requires Anchored(s) && CF.TimersMatch(s.pending)
    requires slot in s.pending.entries && slot !in Apply(s, e).pending.entries
    ensures var entry := s.pending.entries[slot];
            Apply(s, e).pending.ran
            == if (e.Activate? && e.slot == slot && e.index == entry.index) || (e.SlotChanged? && e.slot == slot)
               then s.pending.ran else s.pending.ran + [entry.hold]
  {
  }

  /** Every hold the menus make meets the fate the trace gives it. */
  lemma EveryCommitMeetsItsFate(events: seq<Event>, hold: nat)
    requires CF.IsHold(After(events).ops, hold)
    ensures var s := After(events);
            multiset(s.pending.ran)[hold] == if CF.FateOf(s.ops, hold) == CF.Ran then 1 else 0
  {
    EveryRunIsAnchored(events);
    CF.EachHoldMeetsItsFate(After(events).ops, hold);
  }

  // ---- Rows of different menus ----

  /** What is held was stepped on the menu the slot is looking at. */
  ghost predicate HeldOnCurrent(s: State) {
    forall slot | slot in s.pending.entries && s.pending.entries[slot].hold in s.steppedOn ::
      IsCurrent(s, slot, s.steppedOn[s.pending.entries[slot].hold])
  }

  /** A menu is pushed over another one while a commit of that one is held. */
  predicate PushesOverPending(s: State, e: Event) {
    e.Push? && IsValidSlot(e.slot) && e.slot in s.pending.entries && !IsCurrent(s, e.slot, e.menu)
  }

  /** A step keeps held commits on the current menu if and only if it does not push over one. */
  lemma HeldOnCurrentUnlessPushedOver(events: seq<Event>, e: Event)
    requires HeldOnCurrent(After(events))
    ensures HeldOnCurrent(Apply(After(events), e)) <==> !PushesOverPending(After(events), e)
  {
    EveryRunIsAnchored(events);
    var s := After(events);
    if PushesOverPending(s, e) {
      PushedOver(s, e);
    } else if e.Push? {
      PushedOnTheSame(s, e);
    } else {
      OtherEventsKeepHeld(s, e);
    }
  }

  lemma PushedOver(s: State, e: Event)
    requires Anchored(s) && HeldOnCurrent(s) && PushesOverPending(s, e)
    ensures !HeldOnCurrent(Apply(s, e))
  {
    var hold := s.pending.entries[e.slot].hold;
    var t := Apply(s, e);
    assert IsCurrent(s, e.slot, s.steppedOn[hold]);
    assert MenusOf(t, e.slot) == MenusOf(s, e.slot) + [e.menu];
    assert t.pending == s.pending && t.steppedOn == s.steppedOn;
    assert !IsCurrent(t, e.slot, t.steppedOn[hold]);
  }

  lemma PushedOnTheSame(s: State, e: Event)
    requires HeldOnCurrent(s) && e.Push? && !PushesOverPending(s, e)
    ensures HeldOnCurrent(Apply(s, e))
  {
  }

  lemma OtherEventsKeepHeld(s: State, e: Event)
    requires Anchored(s) && HeldOnCurrent(s) && !e.Push?
    ensures HeldOnCurrent(Apply(s, e))
  {
  }

  ghost predicate NeverPushesOver(events: seq<Event>) {
    forall i | 0 <= i < |events| :: !PushesOverPending(After(events[..i]), events[i])
  }

  lemma {:induction false} HeldStaysOnCurrent(events: seq<Event>)
    requires NeverPushesOver(events)
    ensures HeldOnCurrent(After(events))
  {
    if events != [] {
      var before := events[..|events| - 1];
      forall i | 0 <= i < |before| ensures !PushesOverPending(After(before[..i]), before[i]) {
        assert before[..i] == events[..i];
      }
      HeldStaysOnCurrent(before);
      HeldOnCurrentUnlessPushedOver(before, events[|events| - 1]);
    }
  }

  /** Where menus are only pushed with nothing held, as Activate does, a commit is superseded only by another
      step on the same row of the same menu. */
  lemma {:induction false} SupersededOnlyByTheSameRow(events: seq<Event>, e: Event)
    requires NeverPushesOver(events) && Holds(After(events), e) && IsPending(After(events), e.slot, e.index)
    ensures var s := After(events);
            var hold := s.pending.entries[e.slot].hold;
            hold in s.steppedOn && s.steppedOn[hold] == e.held
  {
    HeldStaysOnCurrent(events);
    EveryRunIsAnchored(events);
  }

  /** Likewise, what activating a row discards is a commit of that very row of the menu looked at; a commit
      of any other row runs first. */
  lemma {:induction false} ActivateDiscardsOnlyItsOwnRow(events: seq<Event>, e: Event)
    requires NeverPushesOver(events) && e.Activate? && e.slot in After(events).pending.entries
    ensures var s, t := After(events), Apply(After(events), e);
            var entry := s.pending.entries[e.slot];
            && e.slot !in t.pending.entries
            && t.pending.ran == (if e.index == entry.index then s.pending.ran else s.pending.ran + [entry.hold])
            && entry.hold in s.steppedOn && IsCurrent(s, e.slot, s.steppedOn[entry.hold])
  {
    HeldStaysOnCurrent(events);
    EveryRunIsAnchored(events);
  }

  /** A push over a held commit can lose it: a step on the row of the same number in the new menu takes its
      place, and it never runs. */
  lemma PushOverPendingLosesACommit(s: State, menu: nat, other: nat)
    requires Anchored(s) && s.pending.entries == map[] && CF.TimersMatch(s.pending) && menu != other
    ensures var onMenu := Apply(Apply(s, Push(0, menu)), StepDone(0, 2, menu));
            var onOther := Apply(Apply(onMenu, Push(0, other)), StepDone(0, 2, other));
            var left := Apply(onOther, Clear(0));
            var first, second := s.pending.next, s.pending.next + 1;
            && left.steppedOn[first] == menu && left.steppedOn[second] == other
            && left.pending.entries == map[] && left.pending.ran == s.pending.ran + [second]
  {
    var pushed := Apply(s, Push(0, menu));
    assert IsCurrent(pushed, 0, menu);
    var onMenu := Apply(pushed, StepDone(0, 2, menu));
    assert onMenu.pending.entries == map[0 := PC.Entry(2, s.pending.next)];
    var over := Apply(onMenu, Push(0, other));
    assert IsCurrent(over, 0, other);
    var onOther := Apply(over, StepDone(0, 2, other));
    assert onOther.pending.entries == map[0 := PC.Entry(2, s.pending.next + 1)];
  }

  // ---- The stacks themselves ----

  /** A pushed menu is the one looked at, and popping it brings back what was there. */
  lemma PopUndoesPush(s: State, slot: int, menu: nat)
    requires IsValidSlot(slot)
    ensures var pushed := Apply(s, Push(slot, menu));
            && IsCurrent(pushed, slot, menu)
            && MenusOf(Apply(pushed, Pop(slot)), slot) == MenusOf(s, slot)
  {
    assert (MenusOf(s, slot) + [menu])[..|MenusOf(s, slot)|] == MenusOf(s, slot);
  }

  /** Going back to the root leaves the menu opened first; clearing the stack, or the slot changing hands, leaves
      none; and no event touches another slot's stack. */
  lemma StacksFollowTheirEvents(s: State, e: Event, slot: int)
    requires e.Elapse? || e.slot != slot || IsValidSlot(slot)
    ensures var before, after := MenusOf(s, slot), MenusOf(Apply(s, e), slot);
            if e.Elapse? || e.slot != slot then after == before
            else if e.PopToRoot? then (if before == [] then after == [] else after == [before[0]])
            else if e.Clear? || e.SlotChanged? then after == []
            else !e.Push? && !e.Pop? ==> after == before
  {
  }

  /** A step on the menu looked at leaves its row's commit held, and its timer, when it runs out, runs it. */
  lemma StepHoldsUntilItsTimer(events: seq<Event>, slot: int, index: int, menu: nat)
    requires IsValidSlot(slot) && index >= 0 && IsCurrent(After(events), slot, menu)
    ensures var s := After(events);
            var hold := s.pending.next;
            var held := Apply(s, StepDone(slot, index, menu));
            var run := Apply(held, Elapse(hold));
            && held.pending.entries == s.pending.entries[slot := PC.Entry(index, hold)]
            && held.steppedOn == s.steppedOn[hold := menu]
            && run.pending.entries == s.pending.entries - {slot}
            && run.pending.ran == held.pending.ran + [hold]
  {
    EveryRunIsAnchored(events);
    var s := After(events);
    var held := Apply(s, StepDone(slot, index, menu));
    assert held.pending.entries == s.pending.entries[slot := PC.Entry(index, s.pending.next)];
    assert held.pending.timers[s.pending.next] == slot;
    assert held.pending.entries - {slot} == s.pending.entries - {slot};
  }
}
