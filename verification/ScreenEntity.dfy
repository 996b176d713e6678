/** The write cache and the screen entity with their fields changed in place. */
module ScreenEntity {
  import opened Slots
  import opened ScreenWrites

  class WriteCache {
    var slots: map<int, Sent>
    var everyone: Sent
    var key: string  // reused across calls

    function View(): Cache
      reads this
    {
      Cache(slots, everyone)
    }

    constructor ()
      ensures View() == EMPTY_CACHE
    {
      slots, everyone, key := map[], NOTHING_SENT, "";
    }

    /** Makes the record on first use. */
    method For(slot: int) returns (found: bool, sent: Sent)
      modifies this
      ensures found == HasRecord(slot)
      ensures found ==> sent == RecordFor(old(View()), slot) && View() == WithRecord(old(View()), slot, sent)
      ensures !found ==> View() == old(View())
      ensures key == old(key)
    {
      if slot == EVERYONE_SLOT {
        return true, everyone;
      }
      if !IsValidSlot(slot) {
        return false, NOTHING_SENT;
      }
      if slot !in slots {
        slots := slots[slot := NOTHING_SENT];
      }
      return true, slots[slot];
    }

    method BuildKey(target: Target)
      requires !target.CursorOf?
      modifies this`key
      ensures key == KeyOf(target)
    {
      key := [if target.TextOf? then 0 as char else 1 as char];
      key := key + [KEY_SEPARATOR];
      if target.ClassOf? {
        key := key + target.element;
      }
      key := key + [KEY_SEPARATOR];
      key := key + if target.ClassOf? then target.name else target.variable;
    }

    /** True when the value differs from what the slot was last sent, remembering it. */
    method Changed(slot: int, target: Target, value: string) returns (changed: bool)
      requires !target.CursorOf?
      modifies this
      ensures changed == (HasRecord(slot) && Remembered(RecordFor(old(View()), slot), target) != Some(value))
      ensures changed ==>
                View() == WithRecord(old(View()), slot, Remember(RecordFor(old(View()), slot), target, value))
      ensures !changed && HasRecord(slot) ==>
                View() == WithRecord(old(View()), slot, RecordFor(old(View()), slot))
      ensures !HasRecord(slot) ==> View() == old(View())
    {
      var found, sent := For(slot);
      if !found {
        return false;
      }
      BuildKey(target);
      if key in sent.values && sent.values[key] == value {
        return false;
      }
      Store(slot, sent.(values := sent.values[key := value]));
      return true;
    }

    method CursorChanged(slot: int, shown: bool) returns (changed: bool)
      modifies this
      ensures changed ==
                (HasRecord(slot) && Remembered(RecordFor(old(View()), slot), CursorOf) != Some(CursorText(shown)))
      ensures changed ==>
                View() == WithRecord(old(View()), slot,
                                     Remember(RecordFor(old(View()), slot), CursorOf, CursorText(shown)))
      ensures !changed && HasRecord(slot) ==>
                View() == WithRecord(old(View()), slot, RecordFor(old(View()), slot))
      ensures !HasRecord(slot) ==> View() == old(View())
    {
      var found, sent := For(slot);
      if !found || sent.cursor == Some(shown) {
        return false;
      }
      Store(slot, sent.(cursor := Some(shown)));
      return true;
    }

    method Store(slot: int, sent: Sent)
      requires HasRecord(slot)
      modifies this
      ensures View() == WithRecord(old(View()), slot, sent)
    {
      if slot == EVERYONE_SLOT {
        everyone := sent;
      } else {
        slots := slots[slot := sent];
      }
    }

    method Invalidate(slot: int)
      modifies this
      ensures View() == if HasRecord(slot) then WithRecord(old(View()), slot, NOTHING_SENT) else old(View())
    {
      var found, sent := For(slot);
      if found {
        Store(slot, sent.(values := map[], cursor := None));
      }
    }

    method RemoveSlot(slot: int)
      modifies this
      ensures View() == ForgetSlot(old(View()), slot)
    {
      slots := slots - {slot};
    }

    method Clear()
      modifies this
      ensures View() == EMPTY_CACHE
    {
      slots := map[];
      everyone := NOTHING_SENT;
    }
  }

  class Entity {
    const owner: int
    const written: WriteCache
    var world: World
    var playersChanged: bool

    function View(): Screen
      reads this, written
    {
      Screen(world, playersChanged, written.View())
    }

    constructor (owner: int)
      requires IsOwner(owner)
      ensures View() == NEW_SCREEN && this.owner == owner && fresh(written)
    {
      this.owner := owner;
      var cache := new WriteCache();
      written := cache;
      world, playersChanged := Gone, true;
    }

    /** CheckWrite, after the engine was asked. */
    method Send(cacheSlot: int, target: Target, value: string, accepts: bool)
      modifies this, written
      ensures world == SendTo(old(world), EngineSlotFor(owner, cacheSlot, target), target, value, accepts)
      ensures playersChanged == old(playersChanged)
      ensures written.View() ==
                if !EngineTakes(old(world), EngineSlotFor(owner, cacheSlot, target), accepts) && IsValidSlot(cacheSlot)
                then WithRecord(old(written.View()), cacheSlot, NOTHING_SENT) else old(written.View())
    {
      var engineSlot := EngineSlotFor(owner, cacheSlot, target);
      if world.Live? && accepts && (engineSlot == EVERYONE_SLOT || world.states > engineSlot) {
        world := Live(world.states, world.values[(engineSlot, target) := value]);
      } else if IsValidSlot(cacheSlot) {
        written.Invalidate(cacheSlot);
      }
    }

    method WriteContent(slot: int, target: Target, value: string, accepts: bool)
      requires !target.CursorOf?
      modifies this, written
      ensures View() == Apply(true, owner, old(View()), Write(slot, target, value, accepts))
    {
      var found := CacheSlotFor(owner, slot);
      if found.None? {
        return;
      }
      var changed := written.Changed(found.value, target, value);
      if changed {
        Send(found.value, target, value, accepts);
      }
    }

    method WriteText(slot: int, variable: string, value: string, accepts: bool)
      modifies this, written
      ensures View() == Apply(true, owner, old(View()), Write(slot, TextOf(variable), value, accepts))
    {
      WriteContent(slot, TextOf(variable), value, accepts);
    }

    method WriteClass(slot: int, element: string, name: string, on: bool, accepts: bool)
      modifies this, written
      ensures View() == Apply(true, owner, old(View()),
                              Write(slot, ClassOf(element, name), if on then "1" else "0", accepts))
    {
      WriteContent(slot, ClassOf(element, name), if on then "1" else "0", accepts);
    }

    method WriteCursor(slot: int, shown: bool, accepts: bool)
      modifies this, written
      ensures View() == Apply(true, owner, old(View()), Write(slot, CursorOf, CursorText(shown), accepts))
    {
      var found := CacheSlotFor(owner, slot);
      if found.None? {
        return;
      }
      var changed := written.CursorChanged(found.value, shown);
      if changed {
        Send(found.value, CursorOf, CursorText(shown), accepts);
      }
    }

    method RemoveEntity()
      modifies this, written
      ensures View() == Apply(true, owner, old(View()), Remove)
    {
      world := Gone;
      written.Clear();
    }

    method Spawn(result: SpawnResult) returns (ok: bool)
      modifies this, written
      ensures ok == result.Spawned?
      ensures View() == SpawnedAs(old(View()), result)
    {
      playersChanged := false;
      RemoveEntity();
      if result.Refused? {
        return false;
      }
      world := Live(result.states, map[]);
      return true;
    }

    /** first and second are what the engine would answer to the two possible spawns. */
    method EnsureSpawnedFor(slot: int, first: SpawnResult, second: SpawnResult) returns (ok: bool)
      modifies this, written
      ensures (View(), ok) == DoEnsureSpawned(owner, old(View()), slot, first, second)
    {
      if slot != EVERYONE_SLOT && !IsValidSlot(slot) {
        return false;
      }
      var target := CacheSlotFor(owner, slot);
      if target.None? {
        return false;
      }
      if world.Gone? {
        var spawned := Spawn(first);
        if !spawned {
          return false;
        }
      }
      if target.value == EVERYONE_SLOT || Covers(world, target.value) {
        return true;
      }
      if !playersChanged {
        return false;
      }
      var spawned := Spawn(second);
      return spawned && Covers(world, target.value);
    }

    method OnSlotChanged(slot: int, resets: bool)
      modifies this, written
      ensures View() == Apply(true, owner, old(View()), SlotChanged(slot, resets))
    {
      if resets {
        world := EngineReset(world, slot);
      }
      playersChanged := true;
      if slot == owner {
        RemoveEntity();
      } else {
        written.RemoveSlot(slot);
      }
    }

    method OnFullyConnected(slot: int)
      modifies this, written
      ensures View() == Apply(true, owner, old(View()), FullyConnected(slot))
    {
      world := EngineReset(world, slot);
      playersChanged := true;
      written.RemoveSlot(slot);
    }
  }
}
