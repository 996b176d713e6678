/** The player roster under handlers that call back into it. A handler's behaviour is the finite tree of calls
    it makes, so every terminating execution is one of these trees. */
module Roster {

  /** id is the object's identity: no two connections share one. */
  datatype Player = Player(id: nat, slot: int, steamId: int)

  /** newest is history: the last human ever added under each SteamID. */
  datatype Core = Core(
    bySlot: map<int, Player>,
    bySteamId: map<int, Player>,
    ordered: seq<Player>,
    nextId: nat,
    newest: map<int, Player>)

  datatype Event = Disconnected(player: Player) | SlotChanged(slot: int) | Connected(player: Player)

  /** History: each call as it begins, and the roster each subscriber of an event is entered on. since is where
      in the history a Disconnected raise began, or where a Connected player was put in. */
  datatype Moment = Called(call: Call) | Entered(event: Event, since: nat, core: Core)

  datatype State = State(core: Core, log: seq<Moment>)

  const EMPTY := State(Core(map[], map[], [], 0, map[]), [])

  /** A call, and what the subscribers of each event it raises call in turn; Clear raises one event per slot. */
  datatype Call =
    | Add(slot: int, steamId: int, onDrop: Handlers, onSlot: Handlers, onConnect: Handlers)
    | Remove(slot: int, onDrop: Handlers, onSlot: Handlers)
    | Clear(onDrops: Raises, onSlots: Raises)

  datatype Calls = NoCalls | Then(first: Call, rest: Calls)

  /** The subscribers one raise enters, in order. */
  datatype Handlers = NoHandlers | Handler(calls: Calls, later: Handlers)

  datatype Raises = NoRaises | Raise(handlers: Handlers, others: Raises)

  predicate IsBot(p: Player) {
    p.steamId == 0
  }

  predicate IsConnected(c: Core, p: Player) {
    p.slot in c.bySlot && c.bySlot[p.slot] == p
  }

  // ---- The slot-ordered view ----

  ghost predicate IsSortedView(ordered: seq<Player>, bySlot: map<int, Player>) {
    && (forall i, j | 0 <= i < j < |ordered| :: ordered[i].slot < ordered[j].slot)
    && (forall i | 0 <= i < |ordered| :: ordered[i].slot in bySlot && bySlot[ordered[i].slot] == ordered[i])
    && (forall slot {:trigger bySlot[slot] in ordered} | slot in bySlot :: bySlot[slot] in ordered)
  }

  ghost predicate IsLeast(keys: set<int>, least: int) {
    least in keys && forall k | k in keys :: least <= k
  }

  lemma {:induction false} LeastExists(keys: set<int>, one: int)
    requires one in keys
    ensures exists least :: IsLeast(keys, least)
    decreases |keys|
  {
    var others := keys - {one};
    if other :| other in others {
      LeastExists(others, other);
      var least :| IsLeast(others, least);
      forall k | k in keys ensures (if one < least then one else least) <= k {
        assert k == one || k in others;
      }
      assert IsLeast(keys, if one < least then one else least);
    } else {
      forall k | k in keys ensures k == one {
        assert k == one || k in others;
      }
      assert IsLeast(keys, one);
    }
  }

  /** The players from the least slot up, as walking the slot map in order finds them. */
  ghost function Ordered(bySlot: map<int, Player>): seq<Player>
    decreases bySlot.Keys
  {
    if least :| IsLeast(bySlot.Keys, least) then [bySlot[least]] + Ordered(bySlot - {least}) else []
  }

  lemma {:induction false} OrderedIsSorted(bySlot: map<int, Player>)
    requires forall slot | slot in bySlot :: bySlot[slot].slot == slot
    ensures IsSortedView(Ordered(bySlot), bySlot)
    decreases bySlot.Keys
  {
    if slot :| slot in bySlot.Keys {
      LeastExists(bySlot.Keys, slot);
      var least :| IsLeast(bySlot.Keys, least);
      var rest := bySlot - {least};
      OrderedIsSorted(rest);
      PrependLeast(Ordered(rest), bySlot, least);
    }
  }

  lemma PrependLeast(tail: seq<Player>, bySlot: map<int, Player>, least: int)
    requires forall slot | slot in bySlot :: bySlot[slot].slot == slot
    requires least in bySlot && forall slot | slot in bySlot :: least <= slot
    requires IsSortedView(tail, bySlot - {least})
    ensures IsSortedView([bySlot[least]] + tail, bySlot)
  {
    var all := [bySlot[least]] + tail;
    forall i | 0 <= i < |all|
      ensures all[i].slot in bySlot && bySlot[all[i].slot] == all[i] && (i > 0 ==> least < all[i].slot)
    {
      if i > 0 {
        assert all[i] == tail[i - 1];
      }
    }
    forall i, j | 0 <= i < j < |all| ensures all[i].slot < all[j].slot {
      if i > 0 {
        assert tail[i - 1].slot < tail[j - 1].slot;
      }
    }
    forall slot | slot in bySlot ensures bySlot[slot] in all {
      if slot != least {
        var rest := bySlot - {least};
        assert slot in rest && rest[slot] in tail;
      }
    }
  }

  /** There is only one sorted view, whatever order the map is walked in. */
  lemma SortedViewIsUnique(a: seq<Player>, b: seq<Player>, bySlot: map<int, Player>)
    requires IsSortedView(a, bySlot) && IsSortedView(b, bySlot)
    ensures a == b
  {
    NoLonger(a, b, bySlot);
    NoLonger(b, a, bySlot);
    SamePlayers(a, b, bySlot, |a|);
  }

  /** Where b holds the k-th player of a, once the two agree before k. */
  lemma NotBefore(a: seq<Player>, b: seq<Player>, bySlot: map<int, Player>, k: nat) returns (i: nat)
    requires IsSortedView(a, bySlot) && IsSortedView(b, bySlot) && k < |a|
    requires forall m | 0 <= m < k && m < |b| :: a[m] == b[m]
    ensures k <= i < |b| && b[i] == a[k]
  {
    assert bySlot[a[k].slot] in b;
    i :| 0 <= i < |b| && b[i] == a[k];
  }

  lemma NoLonger(a: seq<Player>, b: seq<Player>, bySlot: map<int, Player>)
    requires IsSortedView(a, bySlot) && IsSortedView(b, bySlot)
    ensures |a| <= |b|
  {
    if |b| < |a| {
      SamePlayers(a, b, bySlot, |b|);
      var i := NotBefore(a, b, bySlot, |b|);
    }
  }

  lemma {:induction false} SamePlayers(a: seq<Player>, b: seq<Player>, bySlot: map<int, Player>, n: nat)
    requires IsSortedView(a, bySlot) && IsSortedView(b, bySlot) && n <= |a| && n <= |b|
    ensures forall m | 0 <= m < n :: a[m] == b[m]
  {
    if n > 0 {
      SamePlayers(a, b, bySlot, n - 1);
      var i := NotBefore(a, b, bySlot, n - 1);
      var j := NotBefore(b, a, bySlot, n - 1);
    }
  }

  // ---- The operations ----

  ghost function Reindexed(c: Core): Core {
    c.(ordered := Ordered(c.bySlot))
  }

  function Unindexed(c: Core, p: Player): Core {
    if !IsBot(p) && p.steamId in c.bySteamId && c.bySteamId[p.steamId] == p
    then c.(bySteamId := c.bySteamId - {p.steamId}) else c
  }

  ghost function Erased(c: Core, slot: int): Core
    requires slot in c.bySlot
  {
    Reindexed(Unindexed(c, c.bySlot[slot]).(bySlot := c.bySlot - {slot}))
  }

  function Indexed(c: Core, p: Player): Core {
    if IsBot(p) then c
    else c.(bySteamId := c.bySteamId[p.steamId := p], newest := c.newest[p.steamId := p])
  }

  ghost function Inserted(c: Core, slot: int, steamId: int): Core {
    var p := Player(c.nextId, slot, steamId);
    Reindexed(Indexed(c.(bySlot := c.bySlot[slot := p], nextId := c.nextId + 1), p))
  }

  function Emptied(c: Core): Core {
    c.(bySlot := map[], bySteamId := map[], ordered := [])
  }

  ghost predicate Grows(s: State, t: State) {
    s.log <= t.log && s.core.nextId <= t.core.nextId
  }

  function Note(s: State, moment: Moment): State {
    s.(log := s.log + [moment])
  }

  /** One raise: each subscriber is entered on what the earlier ones left. */
  ghost function Tell(s: State, event: Event, since: nat, handlers: Handlers): (t: State)
    ensures Grows(s, t)
    decreases handlers, 1
  {
    if handlers.NoHandlers? then s else
    var entered := Note(s, Entered(event, since, s.core));
    Tell(RunAll(entered, handlers.calls), event, since, handlers.later)
  }

  ghost function EraseAt(s: State, slot: int): (t: State)
    ensures Grows(s, t) && slot !in t.core.bySlot
  {
    if slot !in s.core.bySlot then s else s.(core := Erased(s.core, slot))
  }

  ghost function Drop(s: State, slot: int, handlers: Handlers): (t: State)
    ensures Grows(s, t) && slot !in t.core.bySlot
    decreases handlers, 2
  {
    if slot !in s.core.bySlot then s
    else EraseAt(Tell(s, Disconnected(s.core.bySlot[slot]), |s.log|, handlers), slot)
  }

  ghost function RunAll(s: State, calls: Calls): (t: State)
    ensures Grows(s, t)
    decreases calls, 0
  {
    if calls.NoCalls? then s else RunAll(Exec(s, calls.first), calls.rest)
  }

  ghost function InsertAt(s: State, slot: int, steamId: int): (t: State)
    ensures Grows(s, t)
  {
    s.(core := Inserted(s.core, slot, steamId))
  }

  ghost function Exec(s: State, call: Call): (t: State)
    ensures Grows(Note(s, Called(call)), t)
    decreases call, 0
  {
    var s := Note(s, Called(call));
    match call
    case Add(slot, steamId, onDrop, onSlot, onConnect) =>
      var dropped := Drop(s, slot, onDrop);
      var added := InsertAt(dropped, slot, steamId);
      var told := Tell(added, SlotChanged(slot), |added.log|, onSlot);
      Tell(told, Connected(Player(dropped.core.nextId, slot, steamId)), |added.log|, onConnect)
    case Remove(slot, onDrop, onSlot) =>
      if slot !in s.core.bySlot then s else
      var dropped := Drop(s, slot, onDrop);
      Tell(dropped, SlotChanged(slot), |dropped.log|, onSlot)
    case Clear(onDrops, onSlots) =>
      TellEach(Cleared(s, onDrops), SlotsInOrder(s.core.ordered), onSlots)
  }

  /** Clear before its slot changes: everyone listed is dropped, and whoever a handler added goes unheard. */
  ghost function Cleared(s: State, onDrops: Raises): (t: State)
    ensures Grows(s, t)
    decreases onDrops
  {
    var dropped := DropEach(s, SlotsInOrder(s.core.ordered), onDrops);
    dropped.(core := Emptied(dropped.core))
  }

  function SlotsInOrder(ordered: seq<Player>): (slots: seq<int>)
    ensures |slots| == |ordered| && forall i | 0 <= i < |slots| :: slots[i] == ordered[i].slot
  {
    seq(|ordered|, i requires 0 <= i < |ordered| => ordered[i].slot)
  }

  ghost function DropEach(s: State, slots: seq<int>, raises: Raises): (t: State)
    ensures Grows(s, t)
    decreases raises, |slots|
  {
    if slots == [] then s
    else if raises.NoRaises? then DropEach(EraseAt(s, slots[0]), slots[1..], NoRaises)
    else DropEach(Drop(s, slots[0], raises.handlers), slots[1..], raises.others)
  }

  ghost function TellEach(s: State, slots: seq<int>, raises: Raises): (t: State)
    ensures Grows(s, t)
    decreases raises, |slots|
  {
    if slots == [] || raises.NoRaises? then s
    else TellEach(Tell(s, SlotChanged(slots[0]), |s.log|, raises.handlers), slots[1..], raises.others)
  }

  // ---- What the roster keeps ----

  ghost predicate SlotsMatch(c: Core) {
    forall slot | slot in c.bySlot :: c.bySlot[slot].slot == slot && c.bySlot[slot].id < c.nextId
  }

  /** Every index entry is a connected human with that id. */
  ghost predicate IndexIsSound(c: Core) {
    forall k | k in c.bySteamId :: k != 0 && c.bySteamId[k].steamId == k && IsConnected(c, c.bySteamId[k])
  }

  /** The index finds an id exactly while the last human added under it is connected. */
  ghost predicate IndexIsExact(c: Core) {
    && (forall k | k in c.bySteamId :: k in c.newest && c.newest[k] == c.bySteamId[k])
    && (forall k | k in c.newest && IsConnected(c, c.newest[k]) :: k in c.bySteamId)
  }

  /** Every connected human was added, no later than the newest with that id. */
  ghost predicate NewestIsNewest(c: Core) {
    && (forall k | k in c.newest :: k != 0 && c.newest[k].steamId == k && c.newest[k].id < c.nextId)
    && (forall slot | slot in c.bySlot && !IsBot(c.bySlot[slot]) ::
          c.bySlot[slot].steamId in c.newest && c.bySlot[slot].id <= c.newest[c.bySlot[slot].steamId].id)
  }

  ghost predicate Valid(c: Core) {
    SlotsMatch(c) && IsSortedView(c.ordered, c.bySlot) && IndexIsSound(c) && IndexIsExact(c) && NewestIsNewest(c)
  }

  lemma InsertedIsValid(c: Core, slot: int, steamId: int)
    requires Valid(c) && slot !in c.bySlot
    ensures Valid(Inserted(c, slot, steamId))
  {
    var p := Player(c.nextId, slot, steamId);
    var d := Inserted(c, slot, steamId);
    assert d.bySlot == c.bySlot[slot := p];
    assert SlotsMatch(d);
    OrderedIsSorted(d.bySlot);
    InsertKeepsIndex(c, d, p);
  }

  lemma InsertKeepsIndex(c: Core, d: Core, p: Player)
    requires IndexIsSound(c) && IndexIsExact(c) && NewestIsNewest(c) && p.slot !in c.bySlot && p.id == c.nextId
    requires d.bySlot == c.bySlot[p.slot := p] && d.nextId == c.nextId + 1
    requires if IsBot(p) then d.bySteamId == c.bySteamId && d.newest == c.newest
             else d.bySteamId == c.bySteamId[p.steamId := p] && d.newest == c.newest[p.steamId := p]
    ensures IndexIsSound(d) && IndexIsExact(d) && NewestIsNewest(d)
  {
    assert forall q: Player | q.slot != p.slot :: IsConnected(c, q) == IsConnected(d, q);
    if !IsBot(p) {
      assert IndexIsSound(d);
      assert NewestIsNewest(d);
    }
  }

  lemma ErasedIsValid(c: Core, slot: int)
    requires Valid(c) && slot in c.bySlot
    ensures Valid(Erased(c, slot))
  {
    var d := Erased(c, slot);
    assert SlotsMatch(d);
    OrderedIsSorted(d.bySlot);
    EraseKeepsIndex(c, d, c.bySlot[slot]);
  }

  lemma EraseKeepsIndex(c: Core, d: Core, p: Player)
    requires IndexIsSound(c) && IndexIsExact(c) && NewestIsNewest(c) && IsConnected(c, p)
    requires d.bySlot == c.bySlot - {p.slot} && d.nextId == c.nextId && d.newest == c.newest
    requires d.bySteamId == Unindexed(c, p).bySteamId
    ensures IndexIsSound(d) && IndexIsExact(d) && NewestIsNewest(d)
  {
  }

  lemma EmptiedIsValid(c: Core)
    requires Valid(c)
    ensures Valid(Emptied(c))
  {
  }

  // ---- Who stays connected ----

  /** The moment a call starts that drops whoever holds the slot. */
  predicate DropsSlot(m: Moment, slot: int) {
    m.Called? && (m.call.Clear? || m.call.slot == slot)
  }

  /** No call begun in that stretch of history drops the slot. */
  ghost predicate Untouched(log: seq<Moment>, from: nat, to: nat, slot: int) {
    forall k | from <= k < to && k < |log| :: !DropsSlot(log[k], slot)
  }

  /** p is connected exactly while no call since has dropped its slot. */
  ghost predicate Tracks(s: State, p: Player, since: nat) {
    && since <= |s.log| && p.id < s.core.nextId
    && (IsConnected(s.core, p) <==> Untouched(s.log, since, |s.log|, p.slot))
  }

  lemma NoteTracks(s: State, m: Moment, p: Player, since: nat)
    requires Tracks(s, p, since) && !DropsSlot(m, p.slot)
    ensures Tracks(Note(s, m), p, since)
  {
    var t := Note(s, m);
    assert forall k | 0 <= k < |s.log| :: t.log[k] == s.log[k];
    if !Untouched(s.log, since, |s.log|, p.slot) {
      var k :| since <= k < |s.log| && DropsSlot(s.log[k], p.slot);
      assert DropsSlot(t.log[k], p.slot);
    }
  }

  /** A state grown from one whose history drops the slot tracks anyone who is not connected. */
  lemma GoneTracks(s: State, t: State, p: Player, since: nat, k: nat)
    requires since <= k < |s.log| && DropsSlot(s.log[k], p.slot) && p.id < s.core.nextId
    requires Grows(s, t) && !IsConnected(t.core, p)
    ensures Tracks(t, p, since)
  {
    assert DropsSlot(t.log[k], p.slot);
  }

  lemma {:induction false} TellTracks(s: State, event: Event, at: nat, handlers: Handlers, p: Player, since: nat)
    requires Tracks(s, p, since)
    ensures Tracks(Tell(s, event, at, handlers), p, since)
    decreases handlers, 1
  {
    if handlers.Handler? {
      var entered := Note(s, Entered(event, at, s.core));
      NoteTracks(s, Entered(event, at, s.core), p, since);
      RunAllTracks(entered, handlers.calls, p, since);
      TellTracks(RunAll(entered, handlers.calls), event, at, handlers.later, p, since);
    }
  }

  lemma {:induction false} RunAllTracks(s: State, calls: Calls, p: Player, since: nat)
    requires Tracks(s, p, since)
    ensures Tracks(RunAll(s, calls), p, since)
    decreases calls, 0
  {
    if calls.Then? {
      ExecTracks(s, calls.first, p, since);
      RunAllTracks(Exec(s, calls.first), calls.rest, p, since);
    }
  }

  lemma {:induction false} DropTracks(s: State, slot: int, handlers: Handlers, p: Player, since: nat)
    requires Tracks(s, p, since) && slot != p.slot
    ensures Tracks(Drop(s, slot, handlers), p, since)
    decreases handlers, 2
  {
    if slot in s.core.bySlot {
      TellTracks(s, Disconnected(s.core.bySlot[slot]), |s.log|, handlers, p, since);
    }
  }

  lemma {:induction false} ExecTracks(s: State, call: Call, p: Player, since: nat)
    requires Tracks(s, p, since)
    ensures Tracks(Exec(s, call), p, since)
    decreases call, 0
  {
    var begun := Note(s, Called(call));
    if DropsSlot(Called(call), p.slot) {
      DroppingTracks(s, call, p, since);
    } else {
      NoteTracks(s, Called(call), p, since);
      DropTracks(begun, call.slot, call.onDrop, p, since);
      var dropped := Drop(begun, call.slot, call.onDrop);
      match call {
        case Add(slot, steamId, _, onSlot, onConnect) =>
          var added := InsertAt(dropped, slot, steamId);
          TellTracks(added, SlotChanged(slot), |added.log|, onSlot, p, since);
          var told := Tell(added, SlotChanged(slot), |added.log|, onSlot);
          TellTracks(told, Connected(Player(dropped.core.nextId, slot, steamId)), |added.log|, onConnect, p, since);
        case Remove(slot, _, onSlot) =>
          TellTracks(dropped, SlotChanged(slot), |dropped.log|, onSlot, p, since);
      }
    }
  }

  /** A call on the slot leaves p gone, whoever the handlers put there meanwhile. */
  lemma {:induction false} DroppingTracks(s: State, call: Call, p: Player, since: nat)
    requires Tracks(s, p, since) && DropsSlot(Called(call), p.slot)
    ensures Tracks(Exec(s, call), p, since)
    decreases call, 0, 0
  {
    var begun := Note(s, Called(call));
    assert begun.log[|s.log|] == Called(call);
    match call {
      case Add(slot, steamId, onDrop, onSlot, onConnect) =>
        var dropped := Drop(begun, slot, onDrop);
        var added := InsertAt(dropped, slot, steamId);
        GoneTracks(begun, added, p, since, |s.log|);
        TellTracks(added, SlotChanged(slot), |added.log|, onSlot, p, since);
        var told := Tell(added, SlotChanged(slot), |added.log|, onSlot);
        TellTracks(told, Connected(Player(dropped.core.nextId, slot, steamId)), |added.log|, onConnect, p, since);
      case Remove(slot, onDrop, onSlot) =>
        var dropped := Drop(begun, slot, onDrop);
        GoneTracks(begun, dropped, p, since, |s.log|);
        TellTracks(dropped, SlotChanged(slot), |dropped.log|, onSlot, p, since);
      case Clear(onDrops, onSlots) =>
        var slots := SlotsInOrder(begun.core.ordered);
        var dropped := DropEach(begun, slots, onDrops);
        var emptied := dropped.(core := Emptied(dropped.core));
        GoneTracks(begun, emptied, p, since, |s.log|);
        TellEachTracks(emptied, slots, onSlots, p, since);
    }
  }

  lemma {:induction false} TellEachTracks(s: State, slots: seq<int>, raises: Raises, p: Player, since: nat)
    requires Tracks(s, p, since)
    ensures Tracks(TellEach(s, slots, raises), p, since)
    decreases raises, |slots|
  {
    if slots != [] && raises.Raise? {
      TellTracks(s, SlotChanged(slots[0]), |s.log|, raises.handlers, p, since);
      TellEachTracks(Tell(s, SlotChanged(slots[0]), |s.log|, raises.handlers), slots[1..], raises.others, p, since);
    }
  }

  // ---- What every subscriber finds ----

  /** A subscriber is entered on a valid roster, and finds the player it is told of exactly when no call of an
      earlier subscriber has dropped its slot. */
  ghost predicate GoodMoment(log: seq<Moment>, i: nat)
    requires i < |log|
  {
    log[i].Entered? ==>
      && Valid(log[i].core) && log[i].since <= i
      && (!log[i].event.SlotChanged? ==>
            var p := log[i].event.player;
            IsConnected(log[i].core, p) <==> Untouched(log, log[i].since, i, p.slot))
  }

  ghost predicate Good(s: State) {
    Valid(s.core) && forall i | 0 <= i < |s.log| :: GoodMoment(s.log, i)
  }

  lemma NoteIsGood(s: State, m: Moment)
    requires Good(s)
    requires m.Entered? ==> m.core == s.core && m.since <= |s.log|
    requires m.Entered? && !m.event.SlotChanged? ==> Tracks(s, m.event.player, m.since)
    ensures Good(Note(s, m))
  {
    var t := Note(s, m);
    forall i | 0 <= i < |t.log| ensures GoodMoment(t.log, i) {
      assert forall k | 0 <= k < |s.log| :: t.log[k] == s.log[k];
      if i < |s.log| {
        assert GoodMoment(s.log, i);
        if t.log[i].Entered? && !t.log[i].event.SlotChanged? {
          SameStretch(s.log, t.log, t.log[i].since, i, t.log[i].event.player.slot);
        }
      } else if m.Entered? && !m.event.SlotChanged? {
        SameStretch(s.log, t.log, m.since, i, m.event.player.slot);
      }
    }
  }

  lemma SameStretch(log: seq<Moment>, longer: seq<Moment>, from: nat, to: nat, slot: int)
    requires log <= longer && to <= |log|
    ensures Untouched(log, from, to, slot) <==> Untouched(longer, from, to, slot)
  {
    assert forall k | from <= k < to :: DropsSlot(log[k], slot) == DropsSlot(longer[k], slot);
  }

  lemma {:induction false} TellIsGood(s: State, event: Event, since: nat, handlers: Handlers)
    requires Good(s) && since <= |s.log|
    requires event.SlotChanged? || Tracks(s, event.player, since)
    ensures Good(Tell(s, event, since, handlers))
    decreases handlers, 1
  {
    if handlers.Handler? {
      var m := Entered(event, since, s.core);
      NoteIsGood(s, m);
      RunAllIsGood(Note(s, m), handlers.calls);
      var t := RunAll(Note(s, m), handlers.calls);
      if !event.SlotChanged? {
        NoteTracks(s, m, event.player, since);
        RunAllTracks(Note(s, m), handlers.calls, event.player, since);
      }
      TellIsGood(t, event, since, handlers.later);
    }
  }

  lemma EraseIsGood(s: State, slot: int)
    requires Good(s)
    ensures Good(EraseAt(s, slot))
  {
    if slot in s.core.bySlot {
      ErasedIsValid(s.core, slot);
    }
  }

  lemma {:induction false} DropIsGood(s: State, slot: int, handlers: Handlers)
    requires Good(s)
    ensures Good(Drop(s, slot, handlers))
    decreases handlers, 2
  {
    if slot in s.core.bySlot {
      TellIsGood(s, Disconnected(s.core.bySlot[slot]), |s.log|, handlers);
      EraseIsGood(Tell(s, Disconnected(s.core.bySlot[slot]), |s.log|, handlers), slot);
    }
  }

  lemma {:induction false} RunAllIsGood(s: State, calls: Calls)
    requires Good(s)
    ensures Good(RunAll(s, calls))
    decreases calls, 0
  {
    if calls.Then? {
      ExecIsGood(s, calls.first);
      RunAllIsGood(Exec(s, calls.first), calls.rest);
    }
  }

  lemma InsertIsGood(s: State, slot: int, steamId: int)
    requires Good(s) && slot !in s.core.bySlot
    ensures Good(InsertAt(s, slot, steamId))
    ensures Tracks(InsertAt(s, slot, steamId), Player(s.core.nextId, slot, steamId), |s.log|)
  {
    InsertedIsValid(s.core, slot, steamId);
  }

  lemma {:induction false} ExecIsGood(s: State, call: Call)
    requires Good(s)
    ensures Good(Exec(s, call))
    decreases call, 0
  {
    var begun := Note(s, Called(call));
    NoteIsGood(s, Called(call));
    match call {
      case Add(slot, steamId, onDrop, onSlot, onConnect) =>
        DropIsGood(begun, slot, onDrop);
        var dropped := Drop(begun, slot, onDrop);
        InsertIsGood(dropped, slot, steamId);
        var added := InsertAt(dropped, slot, steamId);
        var p := Player(dropped.core.nextId, slot, steamId);
        TellIsGood(added, SlotChanged(slot), |added.log|, onSlot);
        TellTracks(added, SlotChanged(slot), |added.log|, onSlot, p, |added.log|);
        TellIsGood(Tell(added, SlotChanged(slot), |added.log|, onSlot), Connected(p), |added.log|, onConnect);
      case Remove(slot, onDrop, onSlot) =>
        if slot in s.core.bySlot {
          DropIsGood(begun, slot, onDrop);
          var dropped := Drop(begun, slot, onDrop);
          TellIsGood(dropped, SlotChanged(slot), |dropped.log|, onSlot);
        }
      case Clear(onDrops, onSlots) =>
        var slots := SlotsInOrder(begun.core.ordered);
        DropEachIsGood(begun, slots, onDrops);
        var dropped := DropEach(begun, slots, onDrops);
        EmptiedIsValid(dropped.core);
        TellEachIsGood(dropped.(core := Emptied(dropped.core)), slots, onSlots);
    }
  }

  lemma {:induction false} DropEachIsGood(s: State, slots: seq<int>, raises: Raises)
    requires Good(s)
    ensures Good(DropEach(s, slots, raises))
    decreases raises, |slots|
  {
    if slots == [] {
    } else if raises.NoRaises? {
      EraseIsGood(s, slots[0]);
      DropEachIsGood(EraseAt(s, slots[0]), slots[1..], NoRaises);
    } else {
      DropIsGood(s, slots[0], raises.handlers);
      DropEachIsGood(Drop(s, slots[0], raises.handlers), slots[1..], raises.others);
    }
  }

  lemma {:induction false} TellEachIsGood(s: State, slots: seq<int>, raises: Raises)
    requires Good(s)
    ensures Good(TellEach(s, slots, raises))
    decreases raises, |slots|
  {
    if slots != [] && raises.Raise? {
      var told := Tell(s, SlotChanged(slots[0]), |s.log|, raises.handlers);
      TellIsGood(s, SlotChanged(slots[0]), |s.log|, raises.handlers);
      TellEachIsGood(told, slots[1..], raises.others);
      assert TellEach(s, slots, raises) == TellEach(told, slots[1..], raises.others);
    }
  }
}
