/** What the roster promises over every run. */
module RosterRuns {
  import opened Roster

  // ---- Main results ----

  /** From an empty roster, under any finite tree of re-entrant calls, the roster is consistent after every
      call and whenever any subscriber of any event is entered: the view is the slot map in strict slot order,
      and each index entry is a connected human with that id. */
  lemma {:induction false} EveryHandlerFindsAConsistentRoster(calls: Calls)
    ensures var s := RunAll(EMPTY, calls);
            Valid(s.core) && forall i | 0 <= i < |s.log| && s.log[i].Entered? :: Valid(s.log[i].core)
  {
    RunAllIsGood(EMPTY, calls);
    var s := RunAll(EMPTY, calls);
    forall i | 0 <= i < |s.log| && s.log[i].Entered? ensures Valid(s.log[i].core) {
      assert GoodMoment(s.log, i);
    }
  }

  /** A subscriber told of a player finds them in the roster exactly when no call begun since drops their slot:
      since the raise began, for Disconnected; since the player was put in, for Connected. */
  lemma {:induction false} HandlerFindsItsPlayerExactlyWhen(calls: Calls, i: nat)
    requires i < |RunAll(EMPTY, calls).log| && RunAll(EMPTY, calls).log[i].Entered?
    requires !RunAll(EMPTY, calls).log[i].event.SlotChanged?
    ensures var log := RunAll(EMPTY, calls).log;
            var p := log[i].event.player;
            && log[i].since <= i
            && (IsConnected(log[i].core, p) <==>
                forall k | log[i].since <= k < i && log[k].Called? :: !log[k].call.Clear? && log[k].call.slot != p.slot)
  {
    RunAllIsGood(EMPTY, calls);
    var log := RunAll(EMPTY, calls).log;
    assert GoodMoment(log, i);
    var p := log[i].event.player;
    assert forall k | log[i].since <= k < i :: DropsSlot(log[k], p.slot) <==>
             log[k].Called? && (log[k].call.Clear? || log[k].call.slot == p.slot);
  }

  /** The first subscriber of a Disconnected raise always finds its player. */
  lemma {:induction false} FirstSubscriberFindsItsPlayer(s: State, slot: int, handlers: Handlers)
    requires Good(s) && slot in s.core.bySlot && handlers.Handler?
    ensures var log := Drop(s, slot, handlers).log;
            && |s.log| < |log| && log[|s.log|] == Entered(Disconnected(s.core.bySlot[slot]), |s.log|, s.core)
            && IsConnected(s.core, s.core.bySlot[slot])
  {
    var event := Disconnected(s.core.bySlot[slot]);
    var entered := Note(s, Entered(event, |s.log|, s.core));
    var ran := RunAll(entered, handlers.calls);
    assert Grows(ran, Tell(ran, event, |s.log|, handlers.later));
    assert entered.log[|s.log|] == Entered(event, |s.log|, s.core);
  }

  /** A first subscriber that removes the slot, and a second that does nothing. */
  function RemoveThenLook(slot: int): Handlers {
    Handler(Then(Remove(slot, NoHandlers, NoHandlers), NoCalls), Handler(NoCalls, NoHandlers))
  }

  lemma {:induction false} RemovingSubscriberLeavesNobody(s: State, event: Event, since: nat, slot: int)
    requires slot in s.core.bySlot
    ensures var log := Tell(s, event, since, RemoveThenLook(slot)).log;
            && |log| == |s.log| + 3 && log[|s.log| + 2].Entered? && log[|s.log| + 2].event == event
            && slot !in log[|s.log| + 2].core.bySlot
  {
    var remove := Remove(slot, NoHandlers, NoHandlers);
    var first := Note(s, Entered(event, since, s.core));
    var begun := Note(first, Called(remove));
    var gone := EraseAt(begun, slot);
    assert Exec(first, remove) == gone by {
      assert Drop(begun, slot, NoHandlers) == gone;
    }
    assert RunAll(first, Then(remove, NoCalls)) == RunAll(gone, NoCalls) == gone;
    var second := Note(gone, Entered(event, since, gone.core));
    var look := Handler(NoCalls, NoHandlers);
    assert Tell(gone, event, since, look) == Tell(RunAll(second, NoCalls), event, since, NoHandlers) == second;
    assert Tell(s, event, since, RemoveThenLook(slot)) == Tell(gone, event, since, look);
  }

  /** A later one may not: wherever a player is dropped, a first subscriber that removes the slot leaves the
      second one told of a player who is gone. */
  lemma {:induction false} SecondSubscriberCanMissItsPlayer(s: State, slot: int)
    requires slot in s.core.bySlot
    ensures var p := s.core.bySlot[slot];
            var log := Drop(s, slot, RemoveThenLook(slot)).log;
            && |log| == |s.log| + 3 && log[|s.log| + 2].Entered? && log[|s.log| + 2].event == Disconnected(p)
            && slot !in log[|s.log| + 2].core.bySlot
  {
    RemovingSubscriberLeavesNobody(s, Disconnected(s.core.bySlot[slot]), |s.log|, slot);
  }

  /** Nor may a Connected subscriber: a slot-change subscriber that removes the slot leaves it told of a player
      who is gone. */
  lemma {:induction false} ConnectedCanNameADepartedPlayer(steamId: int)
    ensures var call := Add(0, steamId, NoHandlers, RemoveThenLook(0), Handler(NoCalls, NoHandlers));
            var log := Exec(EMPTY, call).log;
            && |log| == 5 && log[4].Entered? && log[4].event == Connected(Player(0, 0, steamId))
            && 0 !in log[4].core.bySlot
  {
    var call := Add(0, steamId, NoHandlers, RemoveThenLook(0), Handler(NoCalls, NoHandlers));
    var begun := Note(EMPTY, Called(call));
    var added := InsertAt(begun, 0, steamId);
    assert 0 in added.core.bySlot;
    RemovingSubscriberLeavesNobody(added, SlotChanged(0), |added.log|, 0);
    var told := Tell(added, SlotChanged(0), |added.log|, RemoveThenLook(0));
    assert 0 !in told.core.bySlot;
    var event := Connected(Player(0, 0, steamId));
    var entered := Note(told, Entered(event, |added.log|, told.core));
    assert Tell(told, event, |added.log|, Handler(NoCalls, NoHandlers))
        == Tell(RunAll(entered, NoCalls), event, |added.log|, NoHandlers) == entered;
  }

  /** A connected human is found by SteamID exactly when nobody was added under that id after them; in
      particular always, while no two humans share an id. */
  lemma {:induction false} FoundExactlyWhenNewest(calls: Calls, p: Player)
    requires IsConnected(RunAll(EMPTY, calls).core, p) && !IsBot(p)
    ensures var c := RunAll(EMPTY, calls).core;
            (p.steamId in c.bySteamId && c.bySteamId[p.steamId] == p)
            <==> (p.steamId in c.newest && c.newest[p.steamId] == p)
    ensures var c := RunAll(EMPTY, calls).core;
            p.steamId in c.newest && c.newest[p.steamId].id >= p.id
  {
    RunAllIsGood(EMPTY, calls);
  }

  // ---- What a call does when nobody calls back ----

  /** The events raised, in order, once for each subscriber entered. */
  function EventsIn(log: seq<Moment>): seq<Event> {
    if log == [] then [] else
    var last := log[|log| - 1];
    EventsIn(log[..|log| - 1]) + if last.Entered? then [last.event] else []
  }

  /** One subscriber, which calls nothing. */
  const QUIET := Handler(NoCalls, NoHandlers)

  lemma QuietTell(s: State, event: Event, since: nat)
    ensures var t := Tell(s, event, since, QUIET);
            t.core == s.core && EventsIn(t.log) == EventsIn(s.log) + [event]
  {
    var entered := Note(s, Entered(event, since, s.core));
    assert RunAll(entered, NoCalls) == entered && Tell(entered, event, since, NoHandlers) == entered;
    assert entered.log[..|s.log|] == s.log;
  }

  lemma QuietErase(s: State, slot: int)
    requires slot in s.core.bySlot
    ensures var t := Drop(s, slot, QUIET);
            && t.core.bySlot == s.core.bySlot - {slot} && t.core.nextId == s.core.nextId
            && EventsIn(t.log) == EventsIn(s.log) + [Disconnected(s.core.bySlot[slot])]
  {
    QuietTell(s, Disconnected(s.core.bySlot[slot]), |s.log|);
  }

  function Leaver(s: State, slot: int): seq<Event> {
    if slot in s.core.bySlot then [Disconnected(s.core.bySlot[slot])] else []
  }

  lemma QuietBegins(s: State, call: Call)
    ensures EventsIn(Note(s, Called(call)).log) == EventsIn(s.log)
  {
    assert Note(s, Called(call)).log[..|s.log|] == s.log;
  }

  /** What follows once the slot is free. */
  lemma QuietInsert(dropped: State, slot: int, steamId: int)
    ensures var added, p := InsertAt(dropped, slot, steamId), Player(dropped.core.nextId, slot, steamId);
            var told := Tell(added, SlotChanged(slot), |added.log|, QUIET);
            var t := Tell(told, Connected(p), |added.log|, QUIET);
            && t.core.bySlot == dropped.core.bySlot[slot := p]
            && EventsIn(t.log) == EventsIn(dropped.log) + [SlotChanged(slot), Connected(p)]
  {
    var added, p := InsertAt(dropped, slot, steamId), Player(dropped.core.nextId, slot, steamId);
    QuietTell(added, SlotChanged(slot), |added.log|);
    QuietTell(Tell(added, SlotChanged(slot), |added.log|, QUIET), Connected(p), |added.log|);
    assert EventsIn(dropped.log) + [SlotChanged(slot)] + [Connected(p)]
        == EventsIn(dropped.log) + [SlotChanged(slot), Connected(p)];
  }

  /** Adding a player puts them in their slot and no other, after whoever held it has been said to leave, and then
      says that the slot changed and that they came. */
  lemma {:induction false} AddSaysWhoLeftAndWhoCame(s: State, slot: int, steamId: int)
    ensures var t, p := Exec(s, Add(slot, steamId, QUIET, QUIET, QUIET)), Player(s.core.nextId, slot, steamId);
            && t.core.bySlot == s.core.bySlot[slot := p]
            && EventsIn(t.log) == EventsIn(s.log) + Leaver(s, slot) + [SlotChanged(slot), Connected(p)]
  {
    var call := Add(slot, steamId, QUIET, QUIET, QUIET);
    var begun := Note(s, Called(call));
    QuietBegins(s, call);
    FreedOfItsPlayer(begun, slot);
    QuietInsert(Drop(begun, slot, QUIET), slot, steamId);
    PutBack(s.core.bySlot, slot, Player(s.core.nextId, slot, steamId));
  }

  lemma PutBack(bySlot: map<int, Player>, slot: int, p: Player)
    ensures (bySlot - {slot})[slot := p] == bySlot[slot := p]
  {
  }

  lemma FreedOfItsPlayer(s: State, slot: int)
    ensures var t := Drop(s, slot, QUIET);
            && t.core.nextId == s.core.nextId && t.core.bySlot == s.core.bySlot - {slot}
            && EventsIn(t.log) == EventsIn(s.log) + Leaver(s, slot)
  {
    if slot in s.core.bySlot {
      QuietErase(s, slot);
    } else {
      assert EventsIn(s.log) + Leaver(s, slot) == EventsIn(s.log);
    }
  }

  lemma ThenSaysTheSlotChanged(dropped: State, slot: int, before: seq<Event>, p: Player)
    requires EventsIn(dropped.log) == before + [Disconnected(p)]
    ensures var t := Tell(dropped, SlotChanged(slot), |dropped.log|, QUIET);
            t.core == dropped.core && EventsIn(t.log) == before + [Disconnected(p), SlotChanged(slot)]
  {
    QuietTell(dropped, SlotChanged(slot), |dropped.log|);
    assert before + [Disconnected(p)] + [SlotChanged(slot)] == before + [Disconnected(p), SlotChanged(slot)];
  }

  /** Removing one takes them out and no other, and says that they left and then that the slot changed; an empty
      slot is left alone. */
  lemma {:induction false} RemoveSaysWhoLeft(s: State, slot: int)
    ensures var t := Exec(s, Remove(slot, QUIET, QUIET));
            && t.core.bySlot == s.core.bySlot - {slot}
            && EventsIn(t.log)
               == EventsIn(s.log)
                  + if slot in s.core.bySlot then [Disconnected(s.core.bySlot[slot]), SlotChanged(slot)] else []
  {
    var call := Remove(slot, QUIET, QUIET);
    QuietBegins(s, call);
    if slot in s.core.bySlot {
      var begun := Note(s, Called(call));
      QuietErase(begun, slot);
      ThenSaysTheSlotChanged(Drop(begun, slot, QUIET), slot, EventsIn(s.log), s.core.bySlot[slot]);
    } else {
      assert Exec(s, call) == Note(s, Called(call));
      assert s.core.bySlot - {slot} == s.core.bySlot;
    }
  }

  function QuietEach(n: nat): Raises {
    if n == 0 then NoRaises else Raise(QUIET, QuietEach(n - 1))
  }

  function Leavings(players: seq<Player>): seq<Event> {
    seq(|players|, i requires 0 <= i < |players| => Disconnected(players[i]))
  }

  function Changes(players: seq<Player>): seq<Event> {
    seq(|players|, i requires 0 <= i < |players| => SlotChanged(players[i].slot))
  }

  /** Each of them is connected, and no two in one slot. */
  ghost predicate AreApart(bySlot: map<int, Player>, players: seq<Player>) {
    && (forall i | 0 <= i < |players| :: players[i].slot in bySlot && bySlot[players[i].slot] == players[i])
    && forall i, j | 0 <= i < j < |players| :: players[i].slot != players[j].slot
  }

  lemma OthersAreApart(bySlot: map<int, Player>, players: seq<Player>)
    requires players != [] && AreApart(bySlot, players)
    ensures AreApart(bySlot - {players[0].slot}, players[1..])
  {
  }

  lemma QuietDropsFirst(s: State, players: seq<Player>)
    requires players != []
    ensures DropEach(s, SlotsInOrder(players), QuietEach(|players|))
         == DropEach(Drop(s, players[0].slot, QUIET), SlotsInOrder(players[1..]), QuietEach(|players| - 1))
  {
    assert SlotsInOrder(players)[1..] == SlotsInOrder(players[1..]);
  }

  lemma LeavingsOfFirst(before: seq<Event>, players: seq<Player>)
    requires players != []
    ensures before + [Disconnected(players[0])] + Leavings(players[1..]) == before + Leavings(players)
  {
  }

  lemma {:induction false} QuietDropEach(s: State, players: seq<Player>)
    requires AreApart(s.core.bySlot, players)
    ensures EventsIn(DropEach(s, SlotsInOrder(players), QuietEach(|players|)).log)
         == EventsIn(s.log) + Leavings(players)
    decreases |players|
  {
    if players == [] {
      assert EventsIn(s.log) + Leavings(players) == EventsIn(s.log);
    } else {
      QuietDropsFirst(s, players);
      OthersAreApart(s.core.bySlot, players);
      QuietErase(s, players[0].slot);
      QuietDropEach(Drop(s, players[0].slot, QUIET), players[1..]);
      LeavingsOfFirst(EventsIn(s.log), players);
    }
  }

  lemma QuietTellsFirst(s: State, players: seq<Player>)
    requires players != []
    ensures TellEach(s, SlotsInOrder(players), QuietEach(|players|))
         == TellEach(Tell(s, SlotChanged(players[0].slot), |s.log|, QUIET), SlotsInOrder(players[1..]),
                     QuietEach(|players| - 1))
  {
    assert SlotsInOrder(players)[1..] == SlotsInOrder(players[1..]);
  }

  lemma ChangesOfFirst(before: seq<Event>, players: seq<Player>)
    requires players != []
    ensures before + [SlotChanged(players[0].slot)] + Changes(players[1..]) == before + Changes(players)
  {
  }

  lemma {:induction false} QuietTellEach(s: State, players: seq<Player>)
    ensures var t := TellEach(s, SlotsInOrder(players), QuietEach(|players|));
            t.core == s.core && EventsIn(t.log) == EventsIn(s.log) + Changes(players)
    decreases |players|
  {
    if players == [] {
      assert EventsIn(s.log) + Changes(players) == EventsIn(s.log);
    } else {
      QuietTellsFirst(s, players);
      QuietTell(s, SlotChanged(players[0].slot), |s.log|);
      QuietTellEach(Tell(s, SlotChanged(players[0].slot), |s.log|, QUIET), players[1..]);
      ChangesOfFirst(EventsIn(s.log), players);
    }
  }

  /** Clearing the roster says of everyone, in slot order, that they left, and then of every slot that it changed;
      nobody is left. */
  lemma {:induction false} ClearSaysEveryoneLeft(s: State)
    requires Valid(s.core)
    ensures var everyone := s.core.ordered;
            var t := Exec(s, Clear(QuietEach(|everyone|), QuietEach(|everyone|)));
            && t.core.bySlot == map[] && t.core.bySteamId == map[] && t.core.ordered == []
            && EventsIn(t.log) == EventsIn(s.log) + Leavings(everyone) + Changes(everyone)
  {
    var everyone := s.core.ordered;
    var call := Clear(QuietEach(|everyone|), QuietEach(|everyone|));
    var begun := Note(s, Called(call));
    QuietBegins(s, call);
    QuietDropEach(begun, everyone);
    QuietTellEach(Cleared(begun, QuietEach(|everyone|)), everyone);
  }
}
