/** The query table and the service over it, as the classes that update them. */
module ClientConVars {
  import opened Slots
  import opened ConVarQueries

  class PendingQueries {
    const slots: array<seq<Query>>
    var cookieCounter: nat
    ghost var ticks: nat
    ghost var issued: map<(int, int), nat>

    constructor ()
      ensures fresh(slots) && slots.Length == MAX_PLAYERS && slots[..] == NoQueries()
      ensures cookieCounter == 0 && ticks == 0 && issued == map[]
    {
      slots := new seq<Query>[MAX_PLAYERS](_ => []);
      cookieCounter := 0;
      ticks, issued := 0, map[];
    }

    ghost predicate Valid() {
      slots.Length == MAX_PLAYERS
    }

    method Prune(slot: int, now: real)
      requires Valid()
      modifies slots
      ensures slots[..] == if IsValidSlot(slot) then old(slots[..])[slot := Pruned(old(slots[slot]), now)]
                           else old(slots[..])
    {
      if !IsValidSlot(slot) {
        return;
      }
      var queries, kept := slots[slot], [];
      for i := 0 to |queries|
        invariant kept == Pruned(queries[..i], now)
      {
        assert queries[..i + 1][..i] == queries[..i];
        if !(now - queries[i].sentAt >= TIMEOUT_SECONDS) {
          kept := kept + [queries[i]];
        }
      }
      assert queries[..|queries|] == queries;
      slots[slot] := kept;
    }

    /** The place of the query for name in the slot. */
    method Find(slot: int, name: string) returns (found: Option<nat>)
      requires Valid()
      ensures found ==
              if IsValidSlot(slot) && FindName(slots[slot], name, 0) < |slots[slot]|
              then Some(FindName(slots[slot], name, 0)) else None
    {
      if !IsValidSlot(slot) {
        return None;
      }
      var queries, i := slots[slot], 0;
      while i < |queries| && queries[i].name != name
        invariant i <= |queries| && FindName(queries, name, 0) == FindName(queries, name, i)
      {
        i := i + 1;
      }
      found := if i < |queries| then Some(i) else None;
    }

    method Full(slot: int) returns (full: bool)
      requires Valid()
      ensures full <==> IsValidSlot(slot) && |slots[slot]| >= MAX_PENDING
    {
      full := (if IsValidSlot(slot) then |slots[slot]| else 0) >= MAX_PENDING;
    }

    method NextCookie(slot: int) returns (cookie: int)
      requires Valid()
      modifies `cookieCounter, `ticks
      ensures !IsValidSlot(slot) ==> cookie == -1 && cookieCounter == old(cookieCounter) && ticks == old(ticks)
      ensures IsValidSlot(slot) ==>
                var n := Attempts(slots[slot], old(cookieCounter), 0);
                && cookieCounter == AdvanceBy(old(cookieCounter), n) && ticks == old(ticks) + n
                && cookie == if Uses(slots[slot], cookieCounter) then -1 else cookieCounter
    {
      if !IsValidSlot(slot) {
        return -1;
      }
      var queries, attempt := slots[slot], 0;
      ghost var start := cookieCounter;
      while attempt <= MAX_PENDING
        invariant attempt <= MAX_PENDING + 1
        invariant cookieCounter == AdvanceBy(start, attempt) && ticks == old(ticks) + attempt
        invariant attempt <= MAX_PENDING ==> Attempts(queries, start, 0) == Attempts(queries, start, attempt)
        invariant attempt > MAX_PENDING ==> Attempts(queries, start, 0) == attempt && Uses(queries, cookieCounter)
      {
        cookieCounter := cookieCounter + 1;
        ticks := ticks + 1;
        if cookieCounter > MAX_COOKIE {
          cookieCounter := 1;
        }
        if !Uses(queries, cookieCounter) {
          return cookieCounter;
        }
        attempt := attempt + 1;
      }
      cookie := -1;
    }

    method Add(slot: int, cookie: int, name: string, callback: nat, now: real)
      requires Valid()
      modifies slots, `issued
      ensures if IsValidSlot(slot) && cookie >= 0 then
                && slots[..] == old(slots[..])[slot := old(slots[slot]) + [Query(name, callback, now, cookie)]]
                && issued == old(issued)[(slot, cookie) := ticks]
              else slots[..] == old(slots[..]) && issued == old(issued)
    {
      if !IsValidSlot(slot) || cookie < 0 {
        return;
      }
      slots[slot] := slots[slot] + [Query(name, callback, now, cookie)];
      issued := issued[(slot, cookie) := ticks];
    }

    /** Removes and returns the query the cookie belongs to, when it asked for that name. */
    method Take(slot: int, cookie: int, name: string) returns (taken: Option<Query>)
      requires Valid()
      modifies slots
      ensures var i := if IsValidSlot(slot) then FindCookie(old(slots[slot]), cookie, 0) else 0;
              if !IsValidSlot(slot) || i == |old(slots[slot])| || old(slots[slot])[i].name != name
              then taken == None && slots[..] == old(slots[..])
              else && taken == Some(old(slots[slot])[i])
                   && slots[..] == old(slots[..])[slot := old(slots[slot])[..i] + old(slots[slot])[i + 1..]]
    {
      if !IsValidSlot(slot) {
        return None;
      }
      var queries, i := slots[slot], 0;
      while i < |queries| && queries[i].cookie != cookie
        invariant i <= |queries| && FindCookie(queries, cookie, 0) == FindCookie(queries, cookie, i)
      {
        i := i + 1;
      }
      if i == |queries| || queries[i].name != name {
        return None;
      }
      taken := Some(queries[i]);
      slots[slot] := queries[..i] + queries[i + 1..];
    }

    method Clear(slot: int)
      requires Valid()
      modifies slots
      ensures slots[..] == if IsValidSlot(slot) then old(slots[..])[slot := []] else old(slots[..])
    {
      if IsValidSlot(slot) {
        slots[slot] := [];
      }
    }

    method ClearAll()
      requires Valid()
      modifies slots
      ensures slots[..] == NoQueries()
    {
      for i := 0 to MAX_PLAYERS
        invariant forall k | 0 <= k < i :: slots[k] == []
      {
        slots[i] := [];
      }
    }
  }

  class Service {
    const pending: PendingQueries
    ghost var callbacks: nat
    ghost var epochs: seq<nat>
    ghost var homes: map<nat, Home>
    ghost var invoked: seq<Invocation>

    constructor ()
      ensures Valid() && fresh(pending) && fresh(pending.slots) && View() == INITIAL
    {
      pending := new PendingQueries();
      callbacks, epochs, homes, invoked := 0, NoChanges(), map[], [];
    }

    ghost predicate Valid()
      reads this
    {
      pending.Valid() && |epochs| == MAX_PLAYERS
    }

    ghost function View(): (s: State)
      requires Valid()
      reads this, pending, pending.slots
      ensures Shaped(s)
    {
      State(pending.slots[..], pending.cookieCounter, pending.ticks, pending.issued, callbacks, epochs, homes, invoked)
    }

    /** Callers' callbacks are numbered as they come. */
    method Ask(slot: int, name: string, callback: nat, now: real, sends: bool) returns (accepted: bool)
      requires Valid() && callback == callbacks
      modifies this, pending, pending.slots
      ensures Valid()
      ensures View() == Apply(old(View()), Event.Ask(slot, name, now, sends))
      ensures accepted == DoAsk(old(View()), slot, name, now, sends).1
    {
      callbacks := callbacks + 1;
      if !IsValidSlot(slot) || name == "" {
        return false;
      }
      ghost var s := old(View());
      pending.Prune(slot, now);
      ghost var queries := Pruned(s.table[slot], now);
      ghost var pruned := WithQueries(s, slot, queries);
      assert View() == Refused(pruned);
      var inFlight := pending.Find(slot, name);
      if inFlight.Some? {
        var i := inFlight.value;
        pending.slots[slot] := pending.slots[slot][i := pending.slots[slot][i].(callback := callback)];
        homes := homes[callback := Home(slot, epochs[slot])];
        assert View() == Registered(pruned, slot, queries[i := queries[i].(callback := callback)]);
        return true;
      }
      var full := pending.Full(slot);
      if full {
        return false;
      }
      assert DoAsk(s, slot, name, now, sends).0 ==
             (var counted := Counted(pruned, Attempts(queries, s.counter, 0));
              if Uses(queries, counted.counter) || !sends then Refused(counted)
              else Registered(Issued(counted, slot), slot, queries + [Query(name, callback, now, counted.counter)]));
      accepted := SendNew(slot, name, callback, now, sends);
    }

    /** The tail of Query: a variable that is not in flight, on a slot with room. */
    method SendNew(slot: int, name: string, callback: nat, now: real, sends: bool) returns (accepted: bool)
      requires Valid() && IsValidSlot(slot)
      modifies this, pending, pending.slots
      ensures Valid()
      ensures var queries := old(View()).table[slot];
              var counted := Counted(old(View()), Attempts(queries, old(View()).counter, 0));
              if Uses(queries, counted.counter) || !sends then !accepted && View() == counted
              else && accepted
                   && View() == WithQueries(Issued(counted, slot), slot,
                                            queries + [Query(name, callback, now, counted.counter)])
                                .(homes := counted.homes[callback := Home(slot, counted.epochs[slot])])
    {
      var cookie := pending.NextCookie(slot);
      if cookie < 0 || !sends {
        return false;
      }
      pending.Add(slot, cookie, name, callback, now);
      homes := homes[callback := Home(slot, epochs[slot])];
      accepted := true;
    }

    /** The callback that runs, if any. */
    method OnRespond(slot: int, cookie: int, name: string) returns (ran: Option<nat>)
      requires Valid()
      modifies this, pending, pending.slots
      ensures Valid()
      ensures ran.Some? <==> |invoked| > |old(invoked)|
      ensures ran.Some? ==>
                IsValidSlot(slot) && invoked == old(invoked) + [Invocation(ran.value, Home(slot, old(epochs)[slot]))]
      ensures View() == Apply(old(View()), Answer(slot, cookie, name))
    {
      if !IsValidSlot(slot) {
        return None;
      }
      var query := pending.Take(slot, cookie, name);
      if query.None? {
        ran := None;
      } else {
        ran := Some(query.value.callback);
        invoked := invoked + [Invocation(query.value.callback, Home(slot, epochs[slot]))];
      }
    }

    method OnSlotChanged(slot: int)
      requires Valid()
      modifies this, pending, pending.slots
      ensures Valid()
      ensures View() == Apply(old(View()), SlotChanged(slot))
    {
      pending.Clear(slot);
      if IsValidSlot(slot) {
        epochs := epochs[slot := epochs[slot] + 1];
      }
    }

    method OnServerStartup()
      requires Valid()
      modifies this, pending, pending.slots
      ensures Valid()
      ensures View() == Apply(old(View()), ServerStartup)
    {
      pending.ClearAll();
    }
  }
}
