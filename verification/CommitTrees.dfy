/** Held commits that call back into the component that holds them. A commit's behaviour is the finite tree of
    calls it makes. A timer that runs out is an ApplyNow, a slot that changes hands a Drop. */
module CommitTrees {
  import opened Slots

  datatype Call = Hold(slot: int, index: int, commit: Calls) | ApplyNow(slot: int) | Drop(slot: int)

  datatype Calls = NoCalls | Then(call: Call, rest: Calls)

  datatype Entry = Entry(index: int, hold: nat, commit: Calls)

  /** Holds are numbered as they are put in. What became of those no longer held is history: run, replaced by
      the same row, dropped, or overwritten by a hold that had looked at the slot before. */
  datatype State = State(
    entries: map<int, Entry>,
    next: nat,
    ran: seq<nat>,
    replaced: seq<nat>,
    dropped: seq<nat>,
    lost: seq<nat>)

  const INITIAL := State(map[], 0, [], [], [], [])

  // ---- Sums over the slots ----

  function Sum(entries: map<int, Entry>, f: Entry -> nat, n: nat): nat {
    if n == 0 then 0 else Sum(entries, f, n - 1) + if n - 1 in entries then f(entries[n - 1]) else 0
  }

  lemma {:induction false} SumWithout(entries: map<int, Entry>, f: Entry -> nat, slot: nat, n: nat)
    requires slot in entries
    ensures Sum(entries, f, n) == Sum(entries - {slot}, f, n) + if slot < n then f(entries[slot]) else 0
  {
    if n > 0 {
      SumWithout(entries, f, slot, n - 1);
    }
  }

  lemma SumWith(entries: map<int, Entry>, f: Entry -> nat, slot: nat, e: Entry, n: nat)
    requires slot !in entries && slot < n
    ensures Sum(entries[slot := e], f, n) == Sum(entries, f, n) + f(e)
  {
    SumWithout(entries[slot := e], f, slot, n);
    assert entries[slot := e] - {slot} == entries;
  }

  function Size(calls: Calls): nat {
    if calls.NoCalls? then 0 else CallSize(calls.call) + Size(calls.rest)
  }

  function CallSize(call: Call): nat {
    if call.Hold? then 2 + Size(call.commit) else 1
  }

  function EntrySize(): Entry -> nat {
    (e: Entry) => 1 + Size(e.commit)
  }

  function IsHold(id: nat): Entry -> nat {
    (e: Entry) => if e.hold == id then 1 else 0
  }

  /** All that the held commits could still call. */
  function Weight(s: State): nat {
    Sum(s.entries, EntrySize(), MAX_PLAYERS)
  }

  // ---- The operations ----

  function Taken(s: State, slot: int): (t: State)
    requires IsValidSlot(slot) && slot in s.entries
    ensures Weight(t) + 1 + Size(s.entries[slot].commit) == Weight(s)
  {
    SumWithout(s.entries, EntrySize(), slot, MAX_PLAYERS);
    s.(entries := s.entries - {slot})
  }

  /** Removed before it is run: the commit may hold another. */
  function Applied(s: State, slot: int): (t: State)
    ensures Weight(t) <= Weight(s)
    decreases Weight(s), 0
  {
    if !IsValidSlot(slot) || slot !in s.entries then s else
    var e := s.entries[slot];
    AllMade(Taken(s, slot).(ran := s.ran + [e.hold]), e.commit)
  }

  /** The entry is overwritten, whatever it is by now. */
  function Put(s: State, slot: int, index: int, commit: Calls): (t: State)
    requires IsValidSlot(slot)
    ensures Weight(t) <= Weight(s) + 1 + Size(commit)
  {
    var free := if slot in s.entries then Taken(s, slot).(lost := s.lost + [s.entries[slot].hold]) else s;
    SumWith(free.entries, EntrySize(), slot, Entry(index, s.next, commit), MAX_PLAYERS);
    free.(entries := free.entries[slot := Entry(index, s.next, commit)], next := s.next + 1)
  }

  function Held(s: State, slot: int, index: int, commit: Calls): (t: State)
    ensures Weight(t) <= Weight(s) + 1 + Size(commit)
    decreases Weight(s), 1
  {
    if !IsValidSlot(slot) then s
    else if slot in s.entries && s.entries[slot].index == index then
      Put(Taken(s, slot).(replaced := s.replaced + [s.entries[slot].hold]), slot, index, commit)
    else Put(Applied(s, slot), slot, index, commit)
  }

  function Dropped(s: State, slot: int): (t: State)
    ensures Weight(t) <= Weight(s)
  {
    if IsValidSlot(slot) && slot in s.entries
    then Taken(s, slot).(dropped := s.dropped + [s.entries[slot].hold]) else s
  }

  function Made(s: State, call: Call): (t: State)
    ensures Weight(t) < Weight(s) + CallSize(call)
    decreases Weight(s) + CallSize(call), 2
  {
    match call
    case Hold(slot, index, commit) => Held(s, slot, index, commit)
    case ApplyNow(slot) => Applied(s, slot)
    case Drop(slot) => Dropped(s, slot)
  }

  function AllMade(s: State, calls: Calls): (t: State)
    ensures Weight(t) <= Weight(s) + Size(calls)
    decreases Weight(s) + Size(calls), 3
  {
    if calls.NoCalls? then s else AllMade(Made(s, calls.call), calls.rest)
  }

  // ---- Every hold is in one place ----

  /** In how many places a hold is. */
  function Places(s: State, id: nat): nat {
    Sum(s.entries, IsHold(id), MAX_PLAYERS)
    + multiset(s.ran)[id] + multiset(s.replaced)[id] + multiset(s.dropped)[id] + multiset(s.lost)[id]
  }

  ghost predicate Conserved(s: State) {
    && (forall slot | slot in s.entries :: IsValidSlot(slot) && s.entries[slot].hold < s.next)
    && forall id: nat :: Places(s, id) == if id < s.next then 1 else 0
  }

  ghost predicate Grows(s: State, t: State) {
    s.next <= t.next && s.ran <= t.ran && s.replaced <= t.replaced && s.dropped <= t.dropped && s.lost <= t.lost
  }

  lemma AddedOnce(ids: seq<nat>, added: nat, id: nat)
    ensures multiset(ids + [added])[id] == multiset(ids)[id] + if id == added then 1 else 0
  {
  }

  /** Taking an entry out leaves its hold to be put somewhere. */
  lemma TakenPlaces(s: State, slot: int, id: nat)
    requires IsValidSlot(slot) && slot in s.entries
    ensures Places(Taken(s, slot), id) + (if id == s.entries[slot].hold then 1 else 0) == Places(s, id)
  {
    SumWithout(s.entries, IsHold(id), slot, MAX_PLAYERS);
  }

  lemma TakenThenKept(s: State, slot: int, t: State)
    requires Conserved(s) && IsValidSlot(slot) && slot in s.entries
    requires var taken, hold := Taken(s, slot), s.entries[slot].hold;
             || t == taken.(ran := s.ran + [hold]) || t == taken.(replaced := s.replaced + [hold])
             || t == taken.(dropped := s.dropped + [hold]) || t == taken.(lost := s.lost + [hold])
    ensures Conserved(t) && Grows(s, t) && slot !in t.entries
  {
    var hold := s.entries[slot].hold;
    forall id: nat ensures Places(t, id) == Places(s, id) {
      TakenPlaces(s, slot, id);
      AddedOnce(s.ran, hold, id);
      AddedOnce(s.replaced, hold, id);
      AddedOnce(s.dropped, hold, id);
      AddedOnce(s.lost, hold, id);
    }
  }

  lemma PutConserves(s: State, slot: int, index: int, commit: Calls)
    requires Conserved(s) && IsValidSlot(slot)
    ensures Conserved(Put(s, slot, index, commit)) && Grows(s, Put(s, slot, index, commit))
  {
    var free := if slot in s.entries then Taken(s, slot).(lost := s.lost + [s.entries[slot].hold]) else s;
    if slot in s.entries {
      TakenThenKept(s, slot, free);
    }
    var t := Put(s, slot, index, commit);
    forall id: nat ensures Places(t, id) == if id < t.next then 1 else 0 {
      SumWith(free.entries, IsHold(id), slot, Entry(index, s.next, commit), MAX_PLAYERS);
      assert Places(free, id) == if id < s.next then 1 else 0;
    }
  }

  lemma {:induction false} AppliedConserves(s: State, slot: int)
    requires Conserved(s)
    ensures Conserved(Applied(s, slot)) && Grows(s, Applied(s, slot))
    decreases Weight(s), 0
  {
    if slot in s.entries {
      var e := s.entries[slot];
      var taken := Taken(s, slot).(ran := s.ran + [e.hold]);
      TakenThenKept(s, slot, taken);
      AllConserve(taken, e.commit);
    }
  }

  lemma {:induction false} HeldConserves(s: State, slot: int, index: int, commit: Calls)
    requires Conserved(s)
    ensures Conserved(Held(s, slot, index, commit)) && Grows(s, Held(s, slot, index, commit))
    decreases Weight(s), 1
  {
    if IsValidSlot(slot) {
      if slot in s.entries && s.entries[slot].index == index {
        var taken := Taken(s, slot).(replaced := s.replaced + [s.entries[slot].hold]);
        TakenThenKept(s, slot, taken);
        PutConserves(taken, slot, index, commit);
      } else {
        AppliedConserves(s, slot);
        PutConserves(Applied(s, slot), slot, index, commit);
      }
    }
  }

  lemma {:induction false} CallConserves(s: State, call: Call)
    requires Conserved(s)
    ensures Conserved(Made(s, call)) && Grows(s, Made(s, call))
    decreases Weight(s) + CallSize(call), 2
  {
    match call {
      case Hold(slot, index, commit) => HeldConserves(s, slot, index, commit);
      case ApplyNow(slot) => AppliedConserves(s, slot);
      case Drop(slot) =>
        if slot in s.entries {
          TakenThenKept(s, slot, Dropped(s, slot));
        }
    }
  }

  lemma {:induction false} AllConserve(s: State, calls: Calls)
    requires Conserved(s)
    ensures Conserved(AllMade(s, calls)) && Grows(s, AllMade(s, calls))
    decreases Weight(s) + Size(calls), 3
  {
    if calls.Then? {
      CallConserves(s, calls.call);
      AllConserve(Made(s, calls.call), calls.rest);
    }
  }

  lemma {:induction false} NothingHeld(f: Entry -> nat, n: nat)
    ensures Sum(map[], f, n) == 0
  {
    if n > 0 {
      NothingHeld(f, n - 1);
    }
  }

  lemma NewIsConserved()
    ensures Conserved(INITIAL)
  {
    forall id: nat ensures Places(INITIAL, id) == 0 {
      NothingHeld(IsHold(id), MAX_PLAYERS);
    }
  }

  // ---- Main results ----

  /** Under any finite tree of calls, every hold ever made is held, run, replaced by its own row, dropped or lost,
      and one of these only: a commit runs at most once, and a lost one never, whatever is called next. */
  lemma {:induction false} EachHoldHasOneFate(calls: Calls, more: Calls, id: nat)
    ensures var s := AllMade(INITIAL, calls);
            && Sum(s.entries, IsHold(id), MAX_PLAYERS) + multiset(s.ran)[id] + multiset(s.replaced)[id]
               + multiset(s.dropped)[id] + multiset(s.lost)[id] == (if id < s.next then 1 else 0)
            && (id in s.lost ==> id !in AllMade(s, more).ran)
  {
    NewIsConserved();
    AllConserve(INITIAL, calls);
    var s := AllMade(INITIAL, calls);
    AllConserve(s, more);
    assert Places(s, id) == if id < s.next then 1 else 0;
    var t := AllMade(s, more);
    assert Places(t, id) == if id < t.next then 1 else 0;
    if id in s.lost {
      assert id in t.lost;
    }
  }

  /** What a hold overwrites: nothing, unless another row was held and its commit, run by the flush, has left the
      slot held. Then it is a hold made in the course of that commit. */
  lemma {:induction false} HoldLosesExactlyWhen(s: State, slot: int, index: int, commit: Calls)
    requires Conserved(s) && IsValidSlot(slot)
    ensures var flushed, t := Applied(s, slot), Held(s, slot, index, commit);
            var sameRow := slot in s.entries && s.entries[slot].index == index;
            && (sameRow ==> t.lost == s.lost)
            && (!sameRow ==>
                  && t.lost == flushed.lost + (if slot in flushed.entries then [flushed.entries[slot].hold] else [])
                  && (slot in flushed.entries ==> slot in s.entries && flushed.entries[slot].hold >= s.next))
  {
    AppliedConserves(s, slot);
    var flushed := Applied(s, slot);
    assert flushed.lost + [] == flushed.lost;
    if slot in s.entries {
      var e := s.entries[slot];
      var taken := Taken(s, slot).(ran := s.ran + [e.hold]);
      TakenThenKept(s, slot, taken);
      AllAreLater(taken, e.commit, slot);
    }
  }

  /** What a slot holds later was there before, or is a later hold. */
  ghost predicate SameOrLater(s: State, t: State, slot: int) {
    && s.next <= t.next
    && (slot in t.entries ==>
          t.entries[slot].hold >= s.next || (slot in s.entries && s.entries[slot].hold == t.entries[slot].hold))
  }

  lemma {:induction false} AppliedIsLater(s: State, other: int, slot: int)
    ensures SameOrLater(s, Applied(s, other), slot)
    decreases Weight(s), 0
  {
    if IsValidSlot(other) && other in s.entries {
      var e := s.entries[other];
      AllAreLater(Taken(s, other).(ran := s.ran + [e.hold]), e.commit, slot);
    }
  }

  lemma {:induction false} CallIsLater(s: State, call: Call, slot: int)
    ensures SameOrLater(s, Made(s, call), slot)
    decreases Weight(s) + CallSize(call), 2
  {
    if !call.Drop? {
      AppliedIsLater(s, call.slot, slot);
    }
  }

  lemma {:induction false} AllAreLater(s: State, calls: Calls, slot: int)
    ensures SameOrLater(s, AllMade(s, calls), slot)
    decreases Weight(s) + Size(calls), 3
  {
    if calls.Then? {
      CallIsLater(s, calls.call, slot);
      AllAreLater(Made(s, calls.call), calls.rest, slot);
    }
  }

  /** Such a commit: flushed by a hold of the third row, it holds the second, which is lost. */
  lemma {:induction false} CommitThatHoldsCanLoseIt(s: State, slot: int, a: int, b: int, c: int)
    requires IsValidSlot(slot) && slot !in s.entries && a != c
    ensures var first := Held(s, slot, a, Then(Hold(slot, b, NoCalls), NoCalls));
            var t := Held(first, slot, c, NoCalls);
            && t.ran == s.ran + [s.next] && t.lost == s.lost + [s.next + 1]
            && t.entries == s.entries[slot := Entry(c, s.next + 2, NoCalls)]
  {
    var commit := Then(Hold(slot, b, NoCalls), NoCalls);
    var first := Held(s, slot, a, commit);
    assert Applied(s, slot) == s;
    assert first == s.(entries := s.entries[slot := Entry(a, s.next, commit)], next := s.next + 1);
    var taken := Taken(first, slot).(ran := s.ran + [s.next]);
    assert taken.entries == s.entries;
    assert Applied(taken, slot) == taken;
    var nested := Put(taken, slot, b, NoCalls);
    assert Made(taken, Hold(slot, b, NoCalls)) == Held(taken, slot, b, NoCalls) == nested;
    assert nested == taken.(entries := s.entries[slot := Entry(b, s.next + 1, NoCalls)], next := s.next + 2);
    assert Applied(first, slot) == AllMade(taken, commit) == AllMade(nested, NoCalls) == nested;
  }

  // ---- Commits that hold nothing ----

  /** No commit in the calls makes a hold. */
  predicate Holdless(calls: Calls) {
    calls.Then? ==> !calls.call.Hold? && Holdless(calls.rest)
  }

  predicate CommitsHoldless(calls: Calls) {
    calls.Then? ==> (calls.call.Hold? ==> Holdless(calls.call.commit)) && CommitsHoldless(calls.rest)
  }

  ghost predicate EntriesHoldless(s: State) {
    forall slot | slot in s.entries :: Holdless(s.entries[slot].commit)
  }

  lemma {:induction false} HoldlessOnlyTakes(s: State, calls: Calls)
    requires EntriesHoldless(s) && Holdless(calls)
    ensures var t := AllMade(s, calls);
            t.lost == s.lost && EntriesHoldless(t) && forall slot | slot in t.entries :: slot in s.entries
    decreases Weight(s) + Size(calls), 3
  {
    if calls.Then? {
      if calls.call.ApplyNow? {
        FlushOnlyTakes(s, calls.call.slot);
      }
      HoldlessOnlyTakes(Made(s, calls.call), calls.rest);
    }
  }

  lemma {:induction false} FlushOnlyTakes(s: State, slot: int)
    requires EntriesHoldless(s)
    ensures var t := Applied(s, slot);
            && t.lost == s.lost && EntriesHoldless(t) && (forall other | other in t.entries :: other in s.entries)
            && (IsValidSlot(slot) ==> slot !in t.entries)
    decreases Weight(s), 0
  {
    if IsValidSlot(slot) && slot in s.entries {
      HoldlessOnlyTakes(Taken(s, slot).(ran := s.ran + [s.entries[slot].hold]), s.entries[slot].commit);
    }
  }

  /** While no commit makes a hold, whatever else it calls, nothing is ever lost. */
  lemma {:induction false} HoldlessCommitsLoseNothing(calls: Calls)
    requires CommitsHoldless(calls)
    ensures AllMade(INITIAL, calls).lost == []
  {
    HoldlessRun(INITIAL, calls);
  }

  lemma {:induction false} HoldlessRun(s: State, calls: Calls)
    requires EntriesHoldless(s) && CommitsHoldless(calls)
    ensures AllMade(s, calls).lost == s.lost && EntriesHoldless(AllMade(s, calls))
    decreases calls
  {
    if calls.Then? {
      match calls.call {
        case Hold(slot, index, commit) => HoldlessHold(s, slot, index, commit);
        case ApplyNow(slot) => FlushOnlyTakes(s, slot);
        case Drop(_) =>
      }
      HoldlessRun(Made(s, calls.call), calls.rest);
    }
  }

  lemma HoldlessHold(s: State, slot: int, index: int, commit: Calls)
    requires EntriesHoldless(s) && Holdless(commit)
    ensures Held(s, slot, index, commit).lost == s.lost && EntriesHoldless(Held(s, slot, index, commit))
  {
    if IsValidSlot(slot) {
      if slot in s.entries && s.entries[slot].index == index {
        PutHoldless(Taken(s, slot).(replaced := s.replaced + [s.entries[slot].hold]), slot, index, commit);
      } else {
        FlushOnlyTakes(s, slot);
        PutHoldless(Applied(s, slot), slot, index, commit);
      }
    }
  }

  lemma PutHoldless(s: State, slot: int, index: int, commit: Calls)
    requires EntriesHoldless(s) && Holdless(commit) && IsValidSlot(slot) && slot !in s.entries
    ensures Put(s, slot, index, commit).lost == s.lost && EntriesHoldless(Put(s, slot, index, commit))
  {
  }

  // ---- What each call runs ----

  /** Only a flush and a hold of another row run a commit: the one that was held, before any it makes. Dropping it,
      or holding the same row again, runs nothing. */
  lemma {:induction false} OnlyFlushesRun(s: State, slot: int, index: int, commit: Calls)
    requires Conserved(s) && slot in s.entries
    ensures var held := s.entries[slot];
            var dropped, flushed := Made(s, Drop(slot)), Made(s, ApplyNow(slot));
            var t := Made(s, Hold(slot, index, commit));
            && dropped.ran == s.ran && dropped.entries == s.entries - {slot}
            && s.ran + [held.hold] <= flushed.ran
            && if index == held.index
               then t.ran == s.ran && t.entries == s.entries[slot := Entry(index, s.next, commit)]
               else t.ran == flushed.ran && t.entries == flushed.entries[slot := Entry(index, flushed.next, commit)]
  {
    var taken := Taken(s, slot).(ran := s.ran + [s.entries[slot].hold]);
    TakenThenKept(s, slot, taken);
    AllConserve(taken, s.entries[slot].commit);
    assert Applied(s, slot) == AllMade(taken, s.entries[slot].commit);
    var flushed := Applied(s, slot);
    assert (flushed.entries - {slot})[slot := Entry(index, flushed.next, commit)]
        == flushed.entries[slot := Entry(index, flushed.next, commit)];
  }

  function Append(calls: Calls, more: Calls): Calls {
    if calls.NoCalls? then more else Then(calls.call, Append(calls.rest, more))
  }

  /** Calls are made one after the other, each on what the ones before it left, commits they ran included. */
  lemma {:induction false} CallsAreMadeInOrder(s: State, calls: Calls, call: Call)
    ensures AllMade(s, Append(calls, Then(call, NoCalls))) == Made(AllMade(s, calls), call)
    decreases calls
  {
    if calls.Then? {
      CallsAreMadeInOrder(Made(s, calls.call), calls.rest, call);
    }
  }
}
