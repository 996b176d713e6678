/** The roster's fields, changed in place around the events that let handlers call back in. */
module PlayerManager {
  import opened Roster

  class Players {
    var bySlot: map<int, Player>
    var bySteamId: map<int, Player>
    var ordered: seq<Player>
    var nextId: nat
    ghost var newest: map<int, Player>
    ghost var log: seq<Moment>

    ghost function View(): State
      reads this
    {
      State(Core(bySlot, bySteamId, ordered, nextId, newest), log)
    }

    constructor ()
      ensures View() == EMPTY && Good(View())
    {
      bySlot, bySteamId, ordered, nextId := map[], map[], [], 0;
      newest, log := map[], [];
    }

    /** The slot map walked in some order, then sorted by slot. */
    method InSlotOrder() returns (players: seq<Player>)
      requires forall slot | slot in bySlot :: bySlot[slot].slot == slot
      ensures players == Ordered(bySlot)
    {
      players := [];
      var left := bySlot.Keys;
      ghost var done: map<int, Player> := map[];
      while exists slot :: slot in left
        invariant left <= bySlot.Keys
        invariant done == map slot | slot in bySlot && slot !in left :: bySlot[slot]
        invariant IsSortedView(players, done)
        decreases |left|
      {
        var slot :| slot in left;
        players := InsertBySlot(players, bySlot[slot], done);
        left := left - {slot};
        done := done[slot := bySlot[slot]];
      }
      assert done == bySlot;
      OrderedIsSorted(bySlot);
      SortedViewIsUnique(players, Ordered(bySlot), bySlot);
    }

    method Reindex()
      requires forall slot | slot in bySlot :: bySlot[slot].slot == slot
      modifies this
      ensures View() == old(View()).(core := Reindexed(old(View()).core))
    {
      ordered := InSlotOrder();
    }

    method IndexBySteamId(p: Player)
      modifies this
      ensures View() == old(View()).(core := Indexed(old(View()).core, p))
    {
      if !IsBot(p) {
        bySteamId := bySteamId[p.steamId := p];
        newest := newest[p.steamId := p];
      }
    }

    method UnindexBySteamId(p: Player)
      modifies this
      ensures View() == old(View()).(core := Unindexed(old(View()).core, p))
    {
      if IsBot(p) {
        return;
      }
      if p.steamId in bySteamId && bySteamId[p.steamId] == p {
        bySteamId := bySteamId - {p.steamId};
      }
    }

    ghost method Record(moment: Moment)
      modifies this`log
      ensures View() == Note(old(View()), moment)
    {
      log := log + [moment];
    }

    ghost method BeginCall(call: Call)
      requires Good(View())
      modifies this`log
      ensures View() == Note(old(View()), Called(call)) && Good(View())
    {
      NoteIsGood(View(), Called(call));
      Record(Called(call));
    }

    /** One raise: its subscribers run in order. */
    method RaiseEvent(event: Event, ghost since: nat, handlers: Handlers)
      requires Good(View()) && since <= |log|
      requires event.SlotChanged? || Tracks(View(), event.player, since)
      modifies this
      ensures View() == Tell(old(View()), event, since, handlers)
      decreases handlers, 1
    {
      if handlers.NoHandlers? {
        return;
      }
      EnterSubscriber(event, since, handlers.calls);
      RaiseEvent(event, since, handlers.later);
    }

    method EnterSubscriber(event: Event, ghost since: nat, calls: Calls)
      requires Good(View()) && since <= |log|
      requires event.SlotChanged? || Tracks(View(), event.player, since)
      modifies this
      ensures View() == RunAll(Note(old(View()), Entered(event, since, old(View()).core)), calls)
      ensures Good(View()) && since <= |log|
      ensures event.SlotChanged? || Tracks(View(), event.player, since)
      decreases calls, 1
    {
      ghost var moment := Entered(event, since, View().core);
      NoteIsGood(View(), moment);
      if !event.SlotChanged? {
        NoteTracks(View(), moment, event.player, since);
        RunAllTracks(Note(View(), moment), calls, event.player, since);
      }
      RunAllIsGood(Note(View(), moment), calls);
      Record(moment);
      RunHandlers(calls);
    }

    method DropSlot(slot: int, handlers: Handlers)
      requires Good(View())
      modifies this
      ensures View() == Drop(old(View()), slot, handlers) && Good(View())
      decreases handlers, 2
    {
      DropIsGood(View(), slot, handlers);
      if slot !in bySlot {
        return;
      }
      TellIsGood(View(), Disconnected(bySlot[slot]), |log|, handlers);
      RaiseEvent(Disconnected(bySlot[slot]), |log|, handlers);
      EraseSlot(slot);
    }

    /** Drop after its event: the slot is looked up again. */
    method EraseSlot(slot: int)
      requires SlotsMatch(View().core)
      modifies this
      ensures View() == EraseAt(old(View()), slot)
    {
      if slot !in bySlot {
        return;
      }
      UnindexBySteamId(bySlot[slot]);
      bySlot := bySlot - {slot};
      Reindex();
    }

    method RunHandlers(calls: Calls)
      requires Good(View())
      modifies this
      ensures View() == RunAll(old(View()), calls)
      decreases calls, 0
    {
      if calls.Then? {
        ExecIsGood(View(), calls.first);
        Perform(calls.first);
        RunHandlers(calls.rest);
      }
    }

    method Perform(call: Call)
      requires Good(View())
      modifies this
      ensures View() == Exec(old(View()), call)
      decreases call, 2
    {
      match call {
        case Add(slot, steamId, onDrop, onSlot, onConnect) => AddPlayer(call);
        case Remove(slot, onDrop, onSlot) => RemovePlayer(call);
        case Clear(onDrops, onSlots) => ClearPlayers(call);
      }
    }

    /** AddPlayer between the two events. */
    method InsertPlayer(slot: int, steamId: int) returns (p: Player)
      requires SlotsMatch(View().core)
      modifies this
      ensures p == Player(old(nextId), slot, steamId)
      ensures View() == InsertAt(old(View()), slot, steamId)
    {
      p := Player(nextId, slot, steamId);
      nextId := nextId + 1;
      bySlot := bySlot[slot := p];
      IndexBySteamId(p);
      Reindex();
    }

    method AddPlayer(call: Call)
      requires call.Add? && Good(View())
      modifies this
      ensures View() == Exec(old(View()), call)
      decreases call, 0
    {
      BeginCall(call);
      DropSlot(call.slot, call.onDrop);
      InsertIsGood(View(), call.slot, call.steamId);
      var p := InsertPlayer(call.slot, call.steamId);
      ghost var since := |log|;
      TellIsGood(View(), SlotChanged(call.slot), since, call.onSlot);
      TellTracks(View(), SlotChanged(call.slot), since, call.onSlot, p, since);
      RaiseEvent(SlotChanged(call.slot), since, call.onSlot);
      RaiseEvent(Connected(p), since, call.onConnect);
    }

    method RemovePlayer(call: Call)
      requires call.Remove? && Good(View())
      modifies this
      ensures View() == Exec(old(View()), call)
      decreases call, 0
    {
      BeginCall(call);
      if call.slot !in bySlot {
        return;
      }
      DropSlot(call.slot, call.onDrop);
      RaiseEvent(SlotChanged(call.slot), |log|, call.onSlot);
    }

    method ClearPlayers(call: Call)
      requires call.Clear? && Good(View())
      modifies this
      ensures View() == Exec(old(View()), call)
      decreases call, 1
    {
      BeginCall(call);
      ClearSlots(call);
    }

    method ClearSlots(call: Call)
      requires call.Clear? && Good(View())
      modifies this
      ensures View() == TellEach(Cleared(old(View()), call.onDrops), SlotsInOrder(old(ordered)), call.onSlots)
      decreases call, 0
    {
      var slots := DropEveryone(call.onDrops);
      RaiseSlots(slots, call.onSlots);
    }

    method DropEveryone(raises: Raises) returns (slots: seq<int>)
      requires Good(View())
      modifies this
      ensures slots == SlotsInOrder(old(ordered)) && Good(View())
      ensures View() == Cleared(old(View()), raises)
      decreases raises
    {
      slots := OccupiedSlots();
      DropSlots(slots, raises);
      EmptyRoster();
    }

    /** Whoever a Disconnected handler added goes without a second raise. */
    method EmptyRoster()
      requires Good(View())
      modifies this
      ensures View() == old(View()).(core := Emptied(old(View()).core)) && Good(View())
    {
      EmptiedIsValid(View().core);
      bySlot, bySteamId, ordered := map[], map[], [];
    }

    method OccupiedSlots() returns (slots: seq<int>)
      requires Valid(View().core)
      ensures slots == SlotsInOrder(ordered)
    {
      var players := InSlotOrder();
      OrderedIsSorted(bySlot);
      SortedViewIsUnique(players, ordered, bySlot);
      slots := SlotsInOrder(players);
    }

    method DropSlots(slots: seq<int>, raises: Raises)
      requires Good(View())
      modifies this
      ensures View() == DropEach(old(View()), slots, raises) && Good(View())
      decreases raises, |slots|
    {
      if slots == [] {
        return;
      }
      if raises.NoRaises? {
        EraseIsGood(View(), slots[0]);
        EraseSlot(slots[0]);
        DropSlots(slots[1..], NoRaises);
      } else {
        DropSlot(slots[0], raises.handlers);
        DropSlots(slots[1..], raises.others);
      }
    }

    method RaiseSlots(slots: seq<int>, raises: Raises)
      requires Good(View())
      modifies this
      ensures View() == TellEach(old(View()), slots, raises)
      decreases raises, |slots|
    {
      if slots == [] || raises.NoRaises? {
        return;
      }
      TellIsGood(View(), SlotChanged(slots[0]), |log|, raises.handlers);
      RaiseEvent(SlotChanged(slots[0]), |log|, raises.handlers);
      RaiseSlots(slots[1..], raises.others);
    }

    /** The connected player with this SteamID; bots are never found. */
    method BySteamId(steamId: int) returns (found: bool, p: Player)
      requires Good(View())
      ensures found <==> steamId in newest && IsConnected(View().core, newest[steamId])
      ensures found ==> p == newest[steamId] && p.steamId == steamId != 0
    {
      found, p := false, Player(0, 0, 0);
      if steamId in bySteamId {
        found, p := true, bySteamId[steamId];
      }
    }
  }

  /** Insertion into a view sorted by slot. */
  method InsertBySlot(players: seq<Player>, p: Player, ghost seen: map<int, Player>) returns (result: seq<Player>)
    requires IsSortedView(players, seen) && p.slot !in seen
    ensures IsSortedView(result, seen[p.slot := p])
  {
    var i := 0;
    while i < |players| && players[i].slot < p.slot
      invariant 0 <= i <= |players|
      invariant forall k | 0 <= k < i :: players[k].slot < p.slot
    {
      i := i + 1;
    }
    result := players[..i] + [p] + players[i..];
    InsertedView(players, p, seen, i);
  }

  lemma InsertedView(players: seq<Player>, p: Player, seen: map<int, Player>, i: nat)
    requires IsSortedView(players, seen) && p.slot !in seen && i <= |players|
    requires forall k | 0 <= k < i :: players[k].slot < p.slot
    requires i < |players| ==> p.slot < players[i].slot
    ensures IsSortedView(players[..i] + [p] + players[i..], seen[p.slot := p])
  {
    var result := players[..i] + [p] + players[i..];
    var all := seen[p.slot := p];
    forall k | 0 <= k < |result|
      ensures result[k] == if k < i then players[k] else if k == i then p else players[k - 1]
      ensures result[k].slot in all && all[result[k].slot] == result[k]
      ensures (k < i ==> result[k].slot < p.slot) && (k > i ==> p.slot < result[k].slot)
    {
      assert k > i ==> players[i].slot <= players[k - 1].slot;
    }
    forall slot | slot in all ensures all[slot] in result {
      if slot == p.slot {
        assert result[i] == p;
      } else {
        StillListed(players, p, seen, i, slot);
      }
    }
  }

  lemma StillListed(players: seq<Player>, p: Player, seen: map<int, Player>, i: nat, slot: int)
    requires IsSortedView(players, seen) && i <= |players| && slot in seen
    ensures seen[slot] in players[..i] + [p] + players[i..]
  {
    assert seen[slot] in players;
    var k :| 0 <= k < |players| && players[k] == seen[slot];
    assert (players[..i] + [p] + players[i..])[if k < i then k else k + 1] == seen[slot];
  }
}
