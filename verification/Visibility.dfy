/** Which clients receive which entities: hide rules, and the pass that applies them to a snapshot. */
module Visibility {
  import opened Slots

  const MAX_INDICES := 24

  datatype Team = NoTeam | Spectators | Terrorists | CounterTerrorists

  predicate IsPlaying(team: Team) {
    team == Terrorists || team == CounterTerrorists
  }

  datatype SlotState = SlotState(pawnHidden: bool, controllerHidden: bool) {
    predicate Any() {
      pawnHidden || controllerHidden
    }
  }

  /** Sent to viewer alone, else to shownTo alone, else to everyone off hiddenFrom. */
  datatype Rule = Rule(viewer: int, shownTo: Team, hiddenFrom: Team) {
    predicate HiddenFor(recipient: int, team: Team) {
      if viewer >= 0 then viewer != recipient
      else if shownTo != NoTeam then shownTo != team
      else hiddenFrom == team
    }
  }

  /** index is what the entity resolved to in the last snapshot. */
  datatype PrivateEntity = PrivateEntity(entity: int, rule: Rule, index: int)

  datatype Pawn = Pawn(id: nat, index: int, weapons: seq<int>, wearables: seq<int>)

  /** What the entity system answers during one snapshot. indexOf is not positive for an entity that is gone. */
  datatype World = World(
    controller: int -> Option<int>,
    pawn: int -> Option<Pawn>,
    observed: int -> Option<nat>,
    team: int -> Team,
    indexOf: int -> int)

  // ---- A hidden player's indices ----

  function Positive(indices: seq<int>): (r: seq<int>)
    ensures forall i :: i in r <==> i in indices && i > 0
  {
    if indices == [] then [] else
    var last := indices[|indices| - 1];
    Positive(indices[..|indices| - 1]) + if last > 0 then [last] else []
  }

  function First<T>(n: nat, s: seq<T>): (r: seq<T>)
    ensures |r| <= n
  {
    if |s| <= n then s else s[..n]
  }

  /** What CollectHiddenPlayer lists for a pawn: each vector is read so far, and the list holds so many. */
  function PawnIndices(pawn: Pawn): seq<int> {
    First(MAX_INDICES, Positive([pawn.index] + First(MAX_INDICES, pawn.weapons) + First(MAX_INDICES, pawn.wearables)))
  }

  method AddIndex(indices: seq<int>, index: int) returns (r: seq<int>)
    requires |indices| <= MAX_INDICES
    ensures r == First(MAX_INDICES, indices + if index > 0 then [index] else [])
  {
    r := if index > 0 && |indices| < MAX_INDICES then indices + [index] else indices;
  }

  method AddHandleVector(indices: seq<int>, handles: seq<int>, ghost before: seq<int>) returns (r: seq<int>)
    requires indices == First(MAX_INDICES, Positive(before))
    ensures r == First(MAX_INDICES, Positive(before + First(MAX_INDICES, handles)))
  {
    r := indices;
    var i := 0;
    assert before + handles[..0] == before;
    while i < |handles| && i < MAX_INDICES
      invariant i <= |handles| && i <= MAX_INDICES
      invariant r == First(MAX_INDICES, Positive(before + handles[..i]))
    {
      assert before + handles[..i + 1] == before + handles[..i] + [handles[i]];
      r := AddIndex(r, handles[i]);
      i := i + 1;
    }
    assert handles[..i] == First(MAX_INDICES, handles);
  }

  datatype HiddenPlayer = HiddenPlayer(slot: int, controllerIndex: int, pawn: Option<nat>, pawnIndices: seq<int>)

  function Collected(w: World, slot: int, state: SlotState): HiddenPlayer {
    if w.controller(slot).None? then HiddenPlayer(slot, -1, None, []) else
    var index := if state.controllerHidden then w.controller(slot).value else -1;
    if !state.pawnHidden || w.pawn(slot).None? then HiddenPlayer(slot, index, None, [])
    else HiddenPlayer(slot, index, Some(w.pawn(slot).value.id), PawnIndices(w.pawn(slot).value))
  }

  method Collect(w: World, slot: int, state: SlotState) returns (player: HiddenPlayer)
    ensures player == Collected(w, slot, state)
  {
    player := HiddenPlayer(slot, -1, None, []);
    var controller := w.controller(slot);
    if controller.None? {
      return;
    }
    if state.controllerHidden {
      player := player.(controllerIndex := controller.value);
    }
    if !state.pawnHidden {
      return;
    }
    var pawn := w.pawn(slot);
    if pawn.None? {
      return;
    }
    var indices := AddIndex([], pawn.value.index);
    assert [] + [pawn.value.index] == [pawn.value.index];
    indices := AddHandleVector(indices, pawn.value.weapons, [pawn.value.index]);
    indices := AddHandleVector(indices, pawn.value.wearables,
                               [pawn.value.index] + First(MAX_INDICES, pawn.value.weapons));
    player := player.(pawn := Some(pawn.value.id), pawnIndices := indices);
  }

  // ---- The hide rules ----

  /** The player in a slot hides index from a recipient: never from itself, and its pawn not from a spectator. */
  ghost predicate PlayerHides(w: World, slot: int, state: SlotState, recipient: int, index: int) {
    && slot != recipient && w.controller(slot).Some?
    && (|| (state.controllerHidden && index == w.controller(slot).value && index > 0)
        || (state.pawnHidden && w.pawn(slot).Some? && w.observed(recipient) != Some(w.pawn(slot).value.id)
            && index in PawnIndices(w.pawn(slot).value)))
  }

  ghost predicate RuleHides(w: World, entity: int, rule: Rule, recipient: int, index: int) {
    index == w.indexOf(entity) && index > 0 && rule.HiddenFor(recipient, w.team(recipient))
  }

  ghost predicate PlayersHide(w: World, states: seq<SlotState>, recipient: int, index: int) {
    exists slot | 0 <= slot < |states| :: PlayerHides(w, slot, states[slot], recipient, index)
  }

  ghost predicate RulesHide(w: World, rules: map<int, Rule>, recipient: int, index: int) {
    exists entity | entity in rules :: RuleHides(w, entity, rules[entity], recipient, index)
  }

  /** Everything named by the rules for this recipient. */
  ghost predicate Hidden(w: World, states: seq<SlotState>, rules: map<int, Rule>, recipient: int, index: int) {
    PlayersHide(w, states, recipient, index) || RulesHide(w, rules, recipient, index)
  }

  /** One recipient of the snapshot and the entities it is to receive; the engine may leave either out. */
  datatype Info = Info(recipient: int, transmit: Option<set<int>>)

  /** What the pass leaves of one recipient's set. */
  ghost predicate Filtered(w: World, states: seq<SlotState>, rules: map<int, Rule>, before: Info, after: Info) {
    && after.recipient == before.recipient && (after.transmit.None? <==> before.transmit.None?)
    && (before.transmit.Some? ==> forall index ::
          index in after.transmit.value
          <==> index in before.transmit.value && !Hidden(w, states, rules, before.recipient, index))
  }

  // ---- The list of private entities ----

  predicate HasEntry(entries: seq<PrivateEntity>, entity: int) {
    exists i | 0 <= i < |entries| :: entries[i].entity == entity
  }

  function RulesOf(entries: seq<PrivateEntity>): (rules: map<int, Rule>)
    ensures forall e :: e in rules <==> HasEntry(entries, e)
  {
    if entries == [] then map[] else
    var last := entries[|entries| - 1];
    RulesOf(entries[..|entries| - 1])[last.entity := last.rule]
  }

  predicate OnePerEntity(entries: seq<PrivateEntity>) {
    forall i, j | 0 <= i < j < |entries| :: entries[i].entity != entries[j].entity
  }

  lemma {:induction false} RuleAt(entries: seq<PrivateEntity>, i: nat)
    requires OnePerEntity(entries) && i < |entries|
    ensures entries[i].entity in RulesOf(entries) && RulesOf(entries)[entries[i].entity] == entries[i].rule
  {
    if i < |entries| - 1 {
      RuleAt(entries[..|entries| - 1], i);
    }
  }

  /** Two lists of the same entries with the same rules give the same rules. */
  lemma SameRules(entries: seq<PrivateEntity>, rules: map<int, Rule>)
    requires OnePerEntity(entries)
    requires forall e :: e in rules <==> HasEntry(entries, e)
    requires forall i | 0 <= i < |entries| :: HasEntry(entries, entries[i].entity)
                                              && rules[entries[i].entity] == entries[i].rule
    ensures RulesOf(entries) == rules
  {
    forall e ensures e in RulesOf(entries) <==> e in rules {
      assert e in RulesOf(entries) <==> HasEntry(entries, e);
    }
    forall e | e in rules ensures RulesOf(entries)[e] == rules[e] {
      var i :| 0 <= i < |entries| && entries[i].entity == e;
      RuleAt(entries, i);
    }
  }

  /** The entries a test keeps, in order. */
  function Kept(entries: seq<PrivateEntity>, keep: PrivateEntity -> bool): (r: seq<PrivateEntity>)
    ensures forall e :: e in r <==> e in entries && keep(e)
  {
    if entries == [] then [] else
    var last := entries[|entries| - 1];
    Kept(entries[..|entries| - 1], keep) + if keep(last) then [last] else []
  }

  lemma {:induction false} KeptIsOnePerEntity(entries: seq<PrivateEntity>, keep: PrivateEntity -> bool)
    requires OnePerEntity(entries)
    ensures OnePerEntity(Kept(entries, keep))
  {
    if entries != [] {
      var before := entries[..|entries| - 1];
      KeptIsOnePerEntity(before, keep);
      var r := Kept(before, keep);
      forall i | 0 <= i < |r| ensures r[i].entity != entries[|entries| - 1].entity {
        assert r[i] in before;
      }
    }
  }

  lemma {:induction false} KeptRules(entries: seq<PrivateEntity>, keep: PrivateEntity -> bool, kept: map<int, Rule>)
    requires OnePerEntity(entries)
    requires kept == map e | e in RulesOf(entries)
                          && exists i | 0 <= i < |entries| :: entries[i].entity == e && keep(entries[i])
                       :: RulesOf(entries)[e]
    ensures RulesOf(Kept(entries, keep)) == kept && OnePerEntity(Kept(entries, keep))
  {
    KeptIsOnePerEntity(entries, keep);
    var r := Kept(entries, keep);
    forall i | 0 <= i < |r| ensures r[i].entity in kept && kept[r[i].entity] == r[i].rule {
      assert r[i] in entries;
      var k :| 0 <= k < |entries| && entries[k] == r[i];
      RuleAt(entries, k);
    }
    forall e | e in kept ensures exists i :: 0 <= i < |r| && r[i].entity == e {
      var k :| 0 <= k < |entries| && entries[k].entity == e && keep(entries[k]);
      assert entries[k] in r;
    }
    SameRules(r, kept);
  }

  // ---- The pass ----

  /** What one collected player takes from a recipient's set. */
  predicate ClearedBy(player: HiddenPlayer, observed: Option<nat>, recipient: int, index: int) {
    && player.slot != recipient
    && ((observed != player.pawn && index in player.pawnIndices)
        || (player.controllerIndex > 0 && index == player.controllerIndex))
  }

  lemma CollectedClears(w: World, slot: int, state: SlotState, recipient: int, index: int)
    ensures ClearedBy(Collected(w, slot, state), w.observed(recipient), recipient, index)
        <==> PlayerHides(w, slot, state, recipient, index)
  {
  }

  ghost predicate IsListed(w: World, states: seq<SlotState>, player: HiddenPlayer) {
    exists slot | 0 <= slot < |states| :: player == Collected(w, slot, states[slot])
  }

  /** hidden lists every slot that hides anything, and no others. */
  ghost predicate Lists(w: World, states: seq<SlotState>, hidden: seq<HiddenPlayer>) {
    && (forall h | 0 <= h < |hidden| :: IsListed(w, states, hidden[h]))
    && (forall slot | 0 <= slot < |states| && states[slot].Any() :: Collected(w, slot, states[slot]) in hidden)
  }

  ghost predicate PlayersClear(w: World, hidden: seq<HiddenPlayer>, recipient: int, index: int) {
    exists h | 0 <= h < |hidden| :: ClearedBy(hidden[h], w.observed(recipient), recipient, index)
  }

  lemma ListClears(w: World, states: seq<SlotState>, hidden: seq<HiddenPlayer>, recipient: int, index: int)
    requires Lists(w, states, hidden)
    ensures PlayersClear(w, hidden, recipient, index)
        <==> PlayersHide(w, states, recipient, index)
  {
    if PlayersClear(w, hidden, recipient, index) {
      var h :| 0 <= h < |hidden| && ClearedBy(hidden[h], w.observed(recipient), recipient, index);
      assert IsListed(w, states, hidden[h]);
      var slot :| 0 <= slot < |states| && hidden[h] == Collected(w, slot, states[slot]);
      CollectedClears(w, slot, states[slot], recipient, index);
    }
    if slot :| 0 <= slot < |states| && PlayerHides(w, slot, states[slot], recipient, index) {
      CollectedClears(w, slot, states[slot], recipient, index);
      var h :| 0 <= h < |hidden| && hidden[h] == Collected(w, slot, states[slot]);
    }
  }

  method ClearPlayers(w: World, hidden: seq<HiddenPlayer>, recipient: int, transmit: set<int>) returns (r: set<int>)
    ensures forall index :: index in r <==> index in transmit && !PlayersClear(w, hidden, recipient, index)
  {
    r := transmit;
    var observed := if |hidden| > 0 then w.observed(recipient) else None;
    for h := 0 to |hidden|
      invariant forall index :: index in r <==> index in transmit && !PlayersClear(w, hidden[..h], recipient, index)
    {
      var player := hidden[h];
      ghost var before := r;
      if player.slot != recipient {
        if observed != player.pawn {
          for n := 0 to |player.pawnIndices|
            invariant forall index :: index in r <==> index in before && index !in player.pawnIndices[..n]
          {
            r := r - {player.pawnIndices[n]};
          }
        }
        if player.controllerIndex > 0 {
          r := r - {player.controllerIndex};
        }
      }
      assert forall index :: index in r <==> index in before && !ClearedBy(player, observed, recipient, index);
      forall index ensures PlayersClear(w, hidden[..h + 1], recipient, index)
                       <==> PlayersClear(w, hidden[..h], recipient, index)
                            || ClearedBy(player, observed, recipient, index)
      {
      }
    }
    assert hidden[..|hidden|] == hidden;
  }

  /** Each entry holds the index its entity has now. */
  ghost predicate Resolved(w: World, entries: seq<PrivateEntity>) {
    forall i | 0 <= i < |entries| :: entries[i].index == w.indexOf(entries[i].entity) && entries[i].index > 0
  }

  ghost predicate EntriesClear(w: World, entries: seq<PrivateEntity>, n: nat, recipient: int, index: int)
    requires n <= |entries|
  {
    exists k | 0 <= k < n :: entries[k].rule.HiddenFor(recipient, w.team(recipient)) && index == entries[k].index
  }

  method ClearEntries(w: World, entries: seq<PrivateEntity>, recipient: int, transmit: set<int>) returns (r: set<int>)
    ensures forall index :: index in r <==> index in transmit && !EntriesClear(w, entries, |entries|, recipient, index)
  {
    r := transmit;
    var team := w.team(recipient);
    for i := 0 to |entries|
      invariant forall index :: index in r <==> index in transmit && !EntriesClear(w, entries, i, recipient, index)
    {
      if entries[i].rule.HiddenFor(recipient, team) {
        r := r - {entries[i].index};
      }
    }
  }

  lemma EntriesAreRules(w: World, entries: seq<PrivateEntity>, recipient: int, index: int)
    requires OnePerEntity(entries) && Resolved(w, entries)
    ensures EntriesClear(w, entries, |entries|, recipient, index) <==> RulesHide(w, RulesOf(entries), recipient, index)
  {
    forall k | 0 <= k < |entries| ensures entries[k].entity in RulesOf(entries)
                                      && RulesOf(entries)[entries[k].entity] == entries[k].rule {
      RuleAt(entries, k);
    }
    if RulesHide(w, RulesOf(entries), recipient, index) {
      var e :| e in RulesOf(entries) && RuleHides(w, e, RulesOf(entries)[e], recipient, index);
      var k :| 0 <= k < |entries| && entries[k].entity == e;
      assert entries[k].rule == RulesOf(entries)[e];
    }
    if EntriesClear(w, entries, |entries|, recipient, index) {
      var k :| 0 <= k < |entries| && entries[k].rule.HiddenFor(recipient, w.team(recipient))
               && index == entries[k].index;
      assert RuleHides(w, entries[k].entity, RulesOf(entries)[entries[k].entity], recipient, index);
    }
  }

  /** What both sweeps leave of one set is what the rules leave. */
  lemma SweepsFilter(w: World, states: seq<SlotState>, hidden: seq<HiddenPlayer>, entries: seq<PrivateEntity>,
                     before: Info, players: set<int>, after: set<int>)
    requires Lists(w, states, hidden) && OnePerEntity(entries) && Resolved(w, entries) && before.transmit.Some?
    requires forall index :: index in players <==>
               index in before.transmit.value && !PlayersClear(w, hidden, before.recipient, index)
    requires forall index :: index in after <==>
               index in players && !EntriesClear(w, entries, |entries|, before.recipient, index)
    ensures Filtered(w, states, RulesOf(entries), before, before.(transmit := Some(after)))
  {
    forall index ensures index in after
                     <==> index in before.transmit.value
                          && !Hidden(w, states, RulesOf(entries), before.recipient, index)
    {
      ListClears(w, states, hidden, before.recipient, index);
      EntriesAreRules(w, entries, before.recipient, index);
    }
  }

  /** An entry's viewer is its rule's. */
  lemma {:induction false} RulesNotFor(entries: seq<PrivateEntity>, slot: int)
    requires OnePerEntity(entries)
    ensures (map e | e in RulesOf(entries) && exists i | 0 <= i < |entries| ::
                       entries[i].entity == e && entries[i].rule.viewer != slot
               :: RulesOf(entries)[e])
         == map e | e in RulesOf(entries) && RulesOf(entries)[e].viewer != slot :: RulesOf(entries)[e]
  {
    forall i | 0 <= i < |entries| ensures RulesOf(entries)[entries[i].entity] == entries[i].rule {
      RuleAt(entries, i);
    }
  }

  class Service {
    const state: array<SlotState>
    var entries: seq<PrivateEntity>

    constructor ()
      ensures Valid() && fresh(state) && Rules() == map[]
      ensures forall i | 0 <= i < MAX_PLAYERS :: state[i] == SlotState(false, false)
    {
      state := new SlotState[MAX_PLAYERS](_ => SlotState(false, false));
      entries := [];
    }

    ghost predicate Valid()
      reads this
    {
      state.Length == MAX_PLAYERS && OnePerEntity(entries)
    }

    ghost function Rules(): map<int, Rule>
      reads this
    {
      RulesOf(entries)
    }

    method SetPawnHidden(slot: int, hidden: bool)
      requires Valid()
      modifies state
      ensures state[..] == if IsValidSlot(slot) then old(state[..])[slot := old(state[slot]).(pawnHidden := hidden)]
                           else old(state[..])
    {
      if IsValidSlot(slot) {
        state[slot] := state[slot].(pawnHidden := hidden);
      }
    }

    method SetControllerHidden(slot: int, hidden: bool)
      requires Valid()
      modifies state
      ensures state[..] == if IsValidSlot(slot)
                           then old(state[..])[slot := old(state[slot]).(controllerHidden := hidden)]
                           else old(state[..])
    {
      if IsValidSlot(slot) {
        state[slot] := state[slot].(controllerHidden := hidden);
      }
    }

    /** The last call for an entity wins, and it never has two entries. */
    method SetPrivate(entity: int, rule: Rule)
      requires Valid()
      modifies `entries
      ensures Valid() && Rules() == old(Rules())[entity := rule]
    {
      var i := 0;
      while i < |entries| && entries[i].entity != entity
        invariant i <= |entries| && forall k | 0 <= k < i :: entries[k].entity != entity
      {
        i := i + 1;
      }
      ghost var before := entries;
      var entry := PrivateEntity(entity, rule, -1);
      if i < |entries| {
        entries := entries[i := entry];
      } else {
        entries := entries + [entry];
      }
      ghost var rules := RulesOf(before)[entity := rule];
      forall k | 0 <= k < |entries| ensures rules[entries[k].entity] == entries[k].rule
      {
        if k != i {
          RuleAt(before, k);
        }
      }
      forall e | e in rules ensures exists k :: 0 <= k < |entries| && entries[k].entity == e {
        if e == entity {
          assert entries[i].entity == e;
        } else {
          var k :| 0 <= k < |before| && before[k].entity == e;
          assert entries[k] == before[k];
        }
      }
      SameRules(entries, rules);
    }

    /** entity is None for a reference to nothing. */
    method ShowOnlyTo(entity: Option<int>, slot: int)
      requires Valid()
      modifies `entries
      ensures Valid()
      ensures Rules() == if entity.Some? && IsValidSlot(slot)
                         then old(Rules())[entity.value := Rule(slot, NoTeam, NoTeam)] else old(Rules())
    {
      if entity.None? || !IsValidSlot(slot) {
        return;
      }
      SetPrivate(entity.value, Rule(slot, NoTeam, NoTeam));
    }

    method ShowOnlyToTeam(entity: Option<int>, team: Team)
      requires Valid()
      modifies `entries
      ensures Valid()
      ensures Rules() == if entity.Some? && (team == Terrorists || team == CounterTerrorists)
                         then old(Rules())[entity.value := Rule(-1, team, NoTeam)] else old(Rules())
    {
      if entity.None? || !IsPlaying(team) {
        return;
      }
      SetPrivate(entity.value, Rule(-1, team, NoTeam));
    }

    method HideFromTeam(entity: Option<int>, team: Team)
      requires Valid()
      modifies `entries
      ensures Valid()
      ensures Rules() == if entity.Some? && (team == Terrorists || team == CounterTerrorists)
                         then old(Rules())[entity.value := Rule(-1, NoTeam, team)] else old(Rules())
    {
      if entity.None? || !IsPlaying(team) {
        return;
      }
      SetPrivate(entity.value, Rule(-1, NoTeam, team));
    }

    method ShowToEveryone(entity: int)
      requires Valid()
      modifies `entries
      ensures Valid() && Rules() == old(Rules()) - {entity}
    {
      ghost var before := entries;
      EraseUnless((e: PrivateEntity) => e.entity != entity);
      forall e ensures e in Rules() <==> e in RulesOf(before) - {entity} {
      }
    }

    /** A slot that changes hands loses its hiding and the entities shown to it alone. */
    method OnSlotChanged(slot: int)
      requires Valid()
      modifies this, state
      ensures Valid()
      ensures state[..] == if IsValidSlot(slot) then old(state[..])[slot := SlotState(false, false)]
                           else old(state[..])
      ensures Rules() == if IsValidSlot(slot)
                         then map e | e in old(Rules()) && old(Rules())[e].viewer != slot :: old(Rules())[e]
                         else old(Rules())
    {
      if !IsValidSlot(slot) {
        return;
      }
      state[slot] := SlotState(false, false);
      RulesNotFor(entries, slot);
      EraseUnless((e: PrivateEntity) => e.rule.viewer != slot);
    }

    method EraseUnless(keep: PrivateEntity -> bool)
      requires Valid()
      modifies `entries
      ensures Valid() && entries == Kept(old(entries), keep)
      ensures Rules() == map e | e in old(Rules())
                              && exists i | 0 <= i < |old(entries)| ::
                                   old(entries)[i].entity == e && keep(old(entries)[i])
                         :: old(Rules())[e]
    {
      var kept := [];
      for i := 0 to |entries|
        invariant kept == Kept(entries[..i], keep)
      {
        assert entries[..i + 1][..i] == entries[..i];
        if keep(entries[i]) {
          kept := kept + [entries[i]];
        }
      }
      assert entries[..|entries|] == entries;
      ghost var rules := map e | e in Rules()
                              && exists i | 0 <= i < |entries| :: entries[i].entity == e && keep(entries[i])
                         :: Rules()[e];
      KeptRules(entries, keep, rules);
      entries := kept;
    }

    /** Every entry is given its entity's index of the moment. */
    method Refresh(w: World)
      requires Valid()
      modifies `entries
      ensures Valid() && Rules() == old(Rules())
      ensures forall i | 0 <= i < |entries| :: entries[i].index == w.indexOf(entries[i].entity)
    {
      ghost var before := entries;
      for i := 0 to |entries|
        invariant |entries| == |before|
        invariant forall k | 0 <= k < i :: entries[k] == before[k].(index := w.indexOf(before[k].entity))
        invariant forall k | i <= k < |entries| :: entries[k] == before[k]
      {
        entries := entries[i := entries[i].(index := w.indexOf(entries[i].entity))];
      }
      SameRulesWhateverTheIndex(before, entries);
    }

    /** Entries of entities that are gone are dropped. */
    method Resolve(w: World)
      requires Valid()
      modifies `entries
      ensures Valid() && Resolved(w, entries)
      ensures Rules() == map e | e in old(Rules()) && w.indexOf(e) > 0 :: old(Rules())[e]
    {
      Refresh(w);
      ghost var all := entries;
      EraseUnless((e: PrivateEntity) => !(e.index <= 0));
      KeptIsResolved(w, all, entries);
    }

    /** CheckTransmit, filtered. bound says that the recipient's slot can be read from an info. */
    method OnCheckTransmit(w: World, bound: bool, infos: array?<Info>)
      requires Valid()
      modifies `entries, infos
      ensures Valid()
      ensures Rules() == map e | e in old(Rules()) && w.indexOf(e) > 0 :: old(Rules())[e]
      ensures infos != null && !bound ==> infos[..] == old(infos[..])
      ensures infos != null && bound ==>
                forall i | 0 <= i < infos.Length :: Filtered(w, state[..], Rules(), old(infos[i]), infos[i])
    {
      Resolve(w);
      if !bound || infos == null {
        return;
      }
      var hidden := CollectAll(w);
      if entries == [] && hidden == [] {
        forall i | 0 <= i < infos.Length ensures Filtered(w, state[..], Rules(), infos[i], infos[i]) {
        }
        return;
      }
      FilterAll(w, hidden, infos);
    }

    method FilterAll(w: World, hidden: seq<HiddenPlayer>, infos: array<Info>)
      requires Valid() && Resolved(w, entries) && Lists(w, state[..], hidden)
      modifies infos
      ensures forall i | 0 <= i < infos.Length :: Filtered(w, state[..], Rules(), old(infos[i]), infos[i])
    {
      for i := 0 to infos.Length
        invariant forall k | 0 <= k < i :: Filtered(w, state[..], Rules(), old(infos[k]), infos[k])
        invariant forall k | i <= k < infos.Length :: infos[k] == old(infos[k])
      {
        infos[i] := FilterOne(w, hidden, infos[i]);
      }
    }

    method FilterOne(w: World, hidden: seq<HiddenPlayer>, info: Info) returns (r: Info)
      requires Valid() && Resolved(w, entries) && Lists(w, state[..], hidden)
      ensures Filtered(w, state[..], Rules(), info, r)
    {
      if info.transmit.None? {
        return info;
      }
      var players := ClearPlayers(w, hidden, info.recipient, info.transmit.value);
      var transmit := ClearEntries(w, entries, info.recipient, players);
      SweepsFilter(w, state[..], hidden, entries, info, players, transmit);
      r := info.(transmit := Some(transmit));
    }

    method CollectAll(w: World) returns (hidden: seq<HiddenPlayer>)
      requires Valid()
      ensures Lists(w, state[..], hidden)
    {
      hidden := [];
      for slot := 0 to MAX_PLAYERS
        invariant Lists(w, state[..slot], hidden)
      {
        ghost var before, after := state[..slot], state[..slot + 1];
        assert after == before + [state[slot]] && slot == |before|;
        ghost var listed := hidden;
        if state[slot].Any() {
          var player := Collect(w, slot, state[slot]);
          hidden := hidden + [player];
        }
        ListsOneMore(w, before, state[slot], listed);
      }
      assert state[..MAX_PLAYERS] == state[..];
    }
  }

  lemma ListsOneMore(w: World, states: seq<SlotState>, state: SlotState, hidden: seq<HiddenPlayer>)
    requires Lists(w, states, hidden)
    ensures Lists(w, states + [state], if state.Any() then hidden + [Collected(w, |states|, state)] else hidden)
  {
    var after := states + [state];
    var r := if state.Any() then hidden + [Collected(w, |states|, state)] else hidden;
    forall h | 0 <= h < |r| ensures IsListed(w, after, r[h]) {
      if h < |hidden| {
        assert IsListed(w, states, hidden[h]);
        var slot :| 0 <= slot < |states| && hidden[h] == Collected(w, slot, states[slot]);
        assert after[slot] == states[slot];
      } else {
        assert after[|states|] == state;
      }
    }
    forall slot | 0 <= slot < |after| && after[slot].Any() ensures Collected(w, slot, after[slot]) in r {
      if slot < |states| {
        assert after[slot] == states[slot];
        assert Collected(w, slot, states[slot]) in hidden;
      } else {
        assert r[|hidden|] == Collected(w, slot, after[slot]);
      }
    }
  }

  lemma KeptIsResolved(w: World, all: seq<PrivateEntity>, kept: seq<PrivateEntity>)
    requires forall i | 0 <= i < |all| :: all[i].index == w.indexOf(all[i].entity)
    requires forall e :: e in kept <==> e in all && !(e.index <= 0)
    ensures Resolved(w, kept)
    ensures (map e | e in RulesOf(all) && exists i | 0 <= i < |all| :: all[i].entity == e && !(all[i].index <= 0)
               :: RulesOf(all)[e])
         == map e | e in RulesOf(all) && w.indexOf(e) > 0 :: RulesOf(all)[e]
  {
    forall i | 0 <= i < |kept| ensures kept[i].index == w.indexOf(kept[i].entity) && kept[i].index > 0 {
      assert kept[i] in all;
    }
  }

  lemma {:induction false} SameRulesWhateverTheIndex(a: seq<PrivateEntity>, b: seq<PrivateEntity>)
    requires |a| == |b| && forall i | 0 <= i < |a| :: a[i].entity == b[i].entity && a[i].rule == b[i].rule
    ensures RulesOf(a) == RulesOf(b)
  {
    if a != [] {
      SameRulesWhateverTheIndex(a[..|a| - 1], b[..|b| - 1]);
    }
  }

  // ---- What the pass promises ----

  /** Nothing but the state of this slot names the index for this recipient. */
  ghost predicate OnlySlotNames(w: World, states: seq<SlotState>, rules: map<int, Rule>, slot: int, recipient: int,
                                index: int)
  {
    && (forall other | 0 <= other < |states| && other != slot ::
          !PlayerHides(w, other, states[other], recipient, index))
    && !RulesHide(w, rules, recipient, index)
  }

  /** What a hidden player's state does to the sets sent: of those who were to receive it, the pawn and what was
      listed with it still reach exactly the player itself and whoever spectates that pawn; the controller
      reaches exactly the player itself. */
  lemma HiddenPlayerReachesOnlySelfAndSpectators(w: World, states: seq<SlotState>, rules: map<int, Rule>,
                                                 before: Info, after: Info, slot: int, index: int)
    requires Filtered(w, states, rules, before, after) && before.transmit.Some?
    requires 0 <= slot < |states| && w.controller(slot).Some?
    requires OnlySlotNames(w, states, rules, slot, before.recipient, index)
    ensures var isController := index > 0 && index == w.controller(slot).value;
            var reaches := index in after.transmit.value;
            var meant := index in before.transmit.value;
            && (states[slot].pawnHidden && w.pawn(slot).Some? && index in PawnIndices(w.pawn(slot).value)
                && !isController ==>
                  (reaches <==> meant && (before.recipient == slot
                                          || w.observed(before.recipient) == Some(w.pawn(slot).value.id))))
            && (states[slot].controllerHidden && isController ==> (reaches <==> meant && before.recipient == slot))
  {
    if PlayerHides(w, slot, states[slot], before.recipient, index) {
      assert PlayersHide(w, states, before.recipient, index);
    } else {
      assert !Hidden(w, states, rules, before.recipient, index);
    }
  }

  /** An entity whose index no other rule and no hidden player names reaches exactly the recipients its own rule
      lets it, among those that were to receive it. */
  lemma PrivateEntityReachesExactly(w: World, states: seq<SlotState>, rules: map<int, Rule>, before: Info, after: Info,
                                    entity: int)
    requires Filtered(w, states, rules, before, after) && before.transmit.Some?
    requires entity in rules && w.indexOf(entity) > 0
    requires !PlayersHide(w, states, before.recipient, w.indexOf(entity))
    requires forall other | other in rules && other != entity :: w.indexOf(other) != w.indexOf(entity)
    ensures var rule, index, recipient := rules[entity], w.indexOf(entity), before.recipient;
            index in after.transmit.value <==>
              && index in before.transmit.value
              && (if rule.viewer >= 0 then recipient == rule.viewer
                  else if rule.shownTo != NoTeam then w.team(recipient) == rule.shownTo
                  else w.team(recipient) != rule.hiddenFrom)
  {
    var index, recipient := w.indexOf(entity), before.recipient;
    if rules[entity].HiddenFor(recipient, w.team(recipient)) {
      assert RuleHides(w, entity, rules[entity], recipient, index);
    } else {
      forall other | other in rules ensures !RuleHides(w, other, rules[other], recipient, index) {
        assert other != entity ==> w.indexOf(other) != index;
      }
    }
  }

  function Everything(pawn: Pawn): seq<int> {
    [pawn.index] + pawn.weapons + pawn.wearables
  }

  predicate NoneTwice(indices: seq<int>) {
    forall i, j | 0 <= i < j < |indices| && indices[i] > 0 :: indices[i] != indices[j]
  }

  lemma {:induction false} PositiveJoins(a: seq<int>, b: seq<int>)
    ensures Positive(a + b) == Positive(a) + Positive(b)
  {
    if b == [] {
      assert a + b == a;
    } else {
      var front := b[..|b| - 1];
      assert a + b == (a + front) + [b[|b| - 1]];
      PositiveJoins(a, front);
    }
  }

  lemma {:induction false} PositiveNoneTwice(indices: seq<int>)
    requires NoneTwice(indices)
    ensures NoneTwice(Positive(indices))
  {
    if indices != [] {
      var front, last := indices[..|indices| - 1], indices[|indices| - 1];
      PositiveNoneTwice(front);
      forall i | 0 <= i < |Positive(front)| ensures Positive(front)[i] != last {
        assert Positive(front)[i] in front;
      }
    }
  }

  /** Nothing beyond what the two caps let through. */
  predicate FitsTheCaps(pawn: Pawn) {
    && (forall j | 24 <= j < |pawn.weapons| :: pawn.weapons[j] <= 0)
    && (forall j | 24 <= j < |pawn.wearables| :: pawn.wearables[j] <= 0)
    && |Positive(Everything(pawn))| <= 24
  }

  lemma {:induction false} NothingPositive(s: seq<int>)
    requires forall i | 0 <= i < |s| :: s[i] <= 0
    ensures Positive(s) == []
  {
    if s != [] {
      NothingPositive(s[..|s| - 1]);
    }
  }

  lemma {:induction false} TailIsDropped(s: seq<int>)
    requires forall j | MAX_INDICES <= j < |s| :: s[j] <= 0
    ensures Positive(First(MAX_INDICES, s)) == Positive(s)
  {
    if |s| > MAX_INDICES {
      var tail := s[MAX_INDICES..];
      assert s == First(MAX_INDICES, s) + tail;
      PositiveJoins(First(MAX_INDICES, s), tail);
      NothingPositive(tail);
    }
  }

  lemma TailsAreDropped(pawn: Pawn)
    requires forall j | MAX_INDICES <= j < |pawn.weapons| :: pawn.weapons[j] <= 0
    requires forall j | MAX_INDICES <= j < |pawn.wearables| :: pawn.wearables[j] <= 0
    ensures PawnIndices(pawn) == First(MAX_INDICES, Positive(Everything(pawn)))
  {
    var weapons, wearables := First(MAX_INDICES, pawn.weapons), First(MAX_INDICES, pawn.wearables);
    TailIsDropped(pawn.weapons);
    TailIsDropped(pawn.wearables);
    PositiveJoins([pawn.index], weapons);
    PositiveJoins([pawn.index] + weapons, wearables);
    PositiveJoins([pawn.index], pawn.weapons);
    PositiveJoins([pawn.index] + pawn.weapons, pawn.wearables);
  }

  /** A live entity read past a vector's cap is in nothing that was listed. */
  lemma PastTheCapIsMissed(pawn: Pawn, at: nat)
    requires NoneTwice(Everything(pawn)) && at < |Everything(pawn)| && Everything(pawn)[at] > 0
    requires (1 + MAX_INDICES <= at < 1 + |pawn.weapons|) || 1 + |pawn.weapons| + MAX_INDICES <= at
    ensures Everything(pawn)[at] !in PawnIndices(pawn)
  {
    var all, x := Everything(pawn), Everything(pawn)[at];
    var weapons, wearables := First(MAX_INDICES, pawn.weapons), First(MAX_INDICES, pawn.wearables);
    var listed := [pawn.index] + weapons + wearables;
    forall k | 0 <= k < |listed| ensures listed[k] != x {
      var place := if k < 1 + |weapons| then k else k - |weapons| + |pawn.weapons|;
      assert all[place] == listed[k];
      assert place != at;
      assert place < at ==> all[place] != all[at];
    }
    assert x !in listed && x !in Positive(listed);
  }

  /** Hiding a pawn takes every one of its live entities along exactly when they fit the two caps: at most 24
      in all, none past the 24th place of its vector. Otherwise some weapon or wearable stays in sight. */
  lemma HiddenPawnTakesAllExactlyWhen(pawn: Pawn)
    requires NoneTwice(Everything(pawn))
    ensures (forall index | index in Everything(pawn) && index > 0 :: index in PawnIndices(pawn)) <==> FitsTheCaps(pawn)
  {
    var all := Everything(pawn);
    if FitsTheCaps(pawn) {
      TailsAreDropped(pawn);
    } else if j :| MAX_INDICES <= j < |pawn.weapons| && pawn.weapons[j] > 0 {
      assert all[1 + j] == pawn.weapons[j];
      PastTheCapIsMissed(pawn, 1 + j);
      assert all[1 + j] in all;
    } else if j :| MAX_INDICES <= j < |pawn.wearables| && pawn.wearables[j] > 0 {
      assert all[1 + |pawn.weapons| + j] == pawn.wearables[j];
      PastTheCapIsMissed(pawn, 1 + |pawn.weapons| + j);
      assert all[1 + |pawn.weapons| + j] in all;
    } else {
      TailsAreDropped(pawn);
      PositiveNoneTwice(all);
      var live := Positive(all);
      var missed := live[MAX_INDICES];
      assert missed in live;
      assert missed !in live[..MAX_INDICES];
    }
  }
}
