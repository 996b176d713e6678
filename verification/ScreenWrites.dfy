/** A screen's writes, with the cache that skips unchanged ones and without it. */
module ScreenWrites {
  import opened Slots

  const KEY_SEPARATOR: char := 0x1f as char

  /** One thing the engine stores for a layout, per player or for everyone. */
  datatype Target = TextOf(variable: string) | ClassOf(element: string, name: string) | CursorOf

  /** The live layout entity and what it was told. Per-player state exists for slots below states. */
  datatype World = Gone | Live(states: int, values: map<(int, Target), string>)

  datatype Sent = Sent(values: map<string, string>, cursor: Option<bool>)

  datatype Cache = Cache(slots: map<int, Sent>, everyone: Sent)

  const NOTHING_SENT := Sent(map[], None)
  const EMPTY_CACHE := Cache(map[], NOTHING_SENT)

  datatype Screen = Screen(world: World, playersChanged: bool, cache: Cache)

  const NEW_SCREEN := Screen(Gone, true, EMPTY_CACHE)

  datatype SpawnResult = Refused | Spawned(states: int)

  /** What can happen to a screen. accepts is false when the engine refuses the write for a reason of its own
      (a full string table, a setter that did not bind). resets says whether the engine drops the slot's
      per-player state as the slot changes hands. */
  datatype Op =
    | Write(slot: int, target: Target, value: string, accepts: bool)
    | EnsureSpawned(slot: int, first: SpawnResult, second: SpawnResult)
    | Remove
    | SlotChanged(slot: int, resets: bool)
    | FullyConnected(slot: int)
    | EntityLost

  // ---- The cache ----

  function KeyFor(kind: char, element: string, name: string): string {
    [kind, KEY_SEPARATOR] + element + [KEY_SEPARATOR] + name
  }

  function KeyOf(target: Target): string
    requires !target.CursorOf?
  {
    match target
    case TextOf(variable) => KeyFor(0 as char, "", variable)
    case ClassOf(element, name) => KeyFor(1 as char, element, name)
  }

  /** Element ids have no separator in them; names may. */
  predicate IsClean(target: Target) {
    target.ClassOf? ==> (0x1f as char) !in target.element
  }

  predicate HasRecord(slot: int) {
    slot == EVERYONE_SLOT || IsValidSlot(slot)
  }

  function RecordFor(cache: Cache, slot: int): Sent {
    if slot == EVERYONE_SLOT then cache.everyone
    else if slot in cache.slots then cache.slots[slot]
    else NOTHING_SENT
  }

  function WithRecord(cache: Cache, slot: int, sent: Sent): Cache {
    if slot == EVERYONE_SLOT then cache.(everyone := sent) else cache.(slots := cache.slots[slot := sent])
  }

  function CursorText(shown: bool): string {
    if shown then "1" else "0"
  }

  /** What the cache holds for one target. */
  function Remembered(sent: Sent, target: Target): Option<string> {
    if target.CursorOf? then
      (if sent.cursor.Some? then Some(CursorText(sent.cursor.value)) else None)
    else
      if KeyOf(target) in sent.values then Some(sent.values[KeyOf(target)]) else None
  }

  function Remember(sent: Sent, target: Target, value: string): Sent {
    if target.CursorOf? then sent.(cursor := Some(value == CursorText(true)))
    else sent.(values := sent.values[KeyOf(target) := value])
  }

  // ---- The screen ----

  predicate IsOwner(owner: int) {
    owner == EVERYONE_SLOT || IsValidSlot(owner)
  }

  /** Cursor writes carry a flag. */
  predicate IsWrite(op: Op) {
    op.Write? && (op.target.CursorOf? ==> op.value == CursorText(true) || op.value == CursorText(false))
  }

  function CacheSlotFor(owner: int, slot: int): Option<int> {
    if owner == EVERYONE_SLOT then Some(slot)
    else if slot != EVERYONE_SLOT && slot != owner then None
    else Some(owner)
  }

  /** Where a write lands in the engine: text and classes of a player screen are global. */
  function EngineSlotFor(owner: int, cacheSlot: int, target: Target): int {
    if owner != EVERYONE_SLOT && !target.CursorOf? then EVERYONE_SLOT else cacheSlot
  }

  predicate EngineTakes(world: World, engineSlot: int, accepts: bool) {
    world.Live? && accepts && (engineSlot == EVERYONE_SLOT || world.states > engineSlot)
  }

  function SendTo(world: World, engineSlot: int, target: Target, value: string, accepts: bool): World {
    if EngineTakes(world, engineSlot, accepts)
    then world.(values := world.values[(engineSlot, target) := value]) else world
  }

  /** A write through the cache: skipped when unchanged, forgotten when a player slot's write fails. */
  function CachedWrite(owner: int, s: Screen, op: Op): Screen
    requires op.Write?
  {
    var found := CacheSlotFor(owner, op.slot);
    if found.None? || !HasRecord(found.value) then s else
    var slot := found.value;
    var sent := RecordFor(s.cache, slot);
    if Remembered(sent, op.target) == Some(op.value) then s.(cache := WithRecord(s.cache, slot, sent)) else
    var engineSlot := EngineSlotFor(owner, slot, op.target);
    var world := SendTo(s.world, engineSlot, op.target, op.value, op.accepts);
    if !EngineTakes(s.world, engineSlot, op.accepts) && IsValidSlot(slot)
    then s.(cache := WithRecord(s.cache, slot, NOTHING_SENT))
    else s.(world := world, cache := WithRecord(s.cache, slot, Remember(sent, op.target, op.value)))
  }

  /** The same write without a cache. */
  function DirectWrite(owner: int, s: Screen, op: Op): Screen
    requires op.Write?
  {
    var found := CacheSlotFor(owner, op.slot);
    if found.None? || !HasRecord(found.value) then s else
    s.(world := SendTo(s.world, EngineSlotFor(owner, found.value, op.target), op.target, op.value, op.accepts))
  }

  function Removed(s: Screen): Screen {
    s.(world := Gone, cache := EMPTY_CACHE)
  }

  function SpawnedAs(s: Screen, result: SpawnResult): Screen {
    Removed(s).(playersChanged := false, world := if result.Spawned? then Live(result.states, map[]) else Gone)
  }

  predicate Covers(world: World, slot: int) {
    IsValidSlot(slot) && world.Live? && world.states > slot
  }

  function DoEnsureSpawned(owner: int, s: Screen, slot: int, first: SpawnResult, second: SpawnResult): (Screen, bool) {
    var target := CacheSlotFor(owner, slot);
    if !HasRecord(slot) || target.None? then (s, false) else
    var s := if s.world.Live? then s else SpawnedAs(s, first);
    if s.world.Gone? then (s, false)
    else if target.value == EVERYONE_SLOT || Covers(s.world, target.value) then (s, true)
    else if !s.playersChanged then (s, false)
    else
      var s := SpawnedAs(s, second);
      (s, s.world.Live? && Covers(s.world, target.value))
  }

  function EngineReset(world: World, slot: int): World {
    if world.Live? && IsValidSlot(slot)
    then world.(values := map k | k in world.values && k.0 != slot :: world.values[k])
    else world
  }

  function ForgetSlot(cache: Cache, slot: int): Cache {
    cache.(slots := cache.slots - {slot})
  }

  function Apply(cached: bool, owner: int, s: Screen, op: Op): Screen {
    match op
    case Write(_, _, _, _) => if cached then CachedWrite(owner, s, op) else DirectWrite(owner, s, op)
    case EnsureSpawned(slot, first, second) => DoEnsureSpawned(owner, s, slot, first, second).0
    case Remove => Removed(s)
    case SlotChanged(slot, resets) =>
      var s := s.(playersChanged := true, world := if resets then EngineReset(s.world, slot) else s.world);
      if slot == owner then Removed(s) else s.(cache := ForgetSlot(s.cache, slot))
    case FullyConnected(slot) =>
      s.(playersChanged := true, world := EngineReset(s.world, slot), cache := ForgetSlot(s.cache, slot))
    case EntityLost => s.(world := Gone)
  }

  function Run(cached: bool, owner: int, ops: seq<Op>): Screen {
    if ops == [] then NEW_SCREEN
    else Apply(cached, owner, Run(cached, owner, ops[..|ops| - 1]), ops[|ops| - 1])
  }

  // ---- The joined key ----

  /** Joining is injective as long as element ids hold no separator, whatever the names hold. */
  lemma KeysAreInjective(a: Target, b: Target)
    requires !a.CursorOf? && !b.CursorOf? && IsClean(a) && IsClean(b)
    ensures KeyOf(a) == KeyOf(b) ==> a == b
  {
    if KeyOf(a) == KeyOf(b) {
      assert KeyOf(a)[0] == KeyOf(b)[0];
      if a.ClassOf? {
        assert KeyOf(a)[2..] == a.element + [KEY_SEPARATOR] + a.name;
        assert KeyOf(b)[2..] == b.element + [KEY_SEPARATOR] + b.name;
        JoinIsInjective(a.element, a.name, b.element, b.name);
      } else {
        assert a.variable == KeyOf(a)[3..] == KeyOf(b)[3..] == b.variable;
      }
    }
  }

  lemma JoinIsInjective(e: string, n: string, e': string, n': string)
    requires KEY_SEPARATOR !in e && KEY_SEPARATOR !in e'
    requires e + [KEY_SEPARATOR] + n == e' + [KEY_SEPARATOR] + n'
    ensures e == e' && n == n'
  {
    FirstSeparator(e, n);
    FirstSeparator(e', n');
    var joined := e + [KEY_SEPARATOR] + n;
    assert |e| == |e'|;
    assert e == joined[..|e|] == e' && n == joined[|e| + 1..] == n';
  }

  lemma FirstSeparator(e: string, n: string)
    requires KEY_SEPARATOR !in e
    ensures (e + [KEY_SEPARATOR] + n)[|e|] == KEY_SEPARATOR
    ensures forall i | 0 <= i < |e| :: (e + [KEY_SEPARATOR] + n)[i] != KEY_SEPARATOR
  {
  }

  /** Every element id with a separator in it shares its keys with another one: written the same value after
      it, that one is skipped and the engine is never told. */
  lemma SeparatorInElementLosesAWrite(s: Screen, slot: int, x: string, y: string, name: string, value: string)
    requires Covers(s.world, slot)
    ensures var a := ClassOf(x + [KEY_SEPARATOR] + y, name);
            var b := ClassOf(x, y + [KEY_SEPARATOR] + name);
            var first, second := Write(slot, a, value, true), Write(slot, b, value, true);
            var cached := CachedWrite(EVERYONE_SLOT, CachedWrite(EVERYONE_SLOT, s, first), second).world;
            var direct := DirectWrite(EVERYONE_SLOT, DirectWrite(EVERYONE_SLOT, s, first), second).world;
            && a != b && KeyOf(a) == KeyOf(b)
            && ((slot, b) in cached.values <==> (slot, b) in s.world.values)
            && ((slot, b) in s.world.values ==> cached.values[(slot, b)] == s.world.values[(slot, b)])
            && (slot, b) in direct.values && direct.values[(slot, b)] == value
  {
    var a := ClassOf(x + [KEY_SEPARATOR] + y, name);
    var b := ClassOf(x, y + [KEY_SEPARATOR] + name);
    assert |a.element| != |b.element|;
    assert KeyOf(a) == [1 as char, KEY_SEPARATOR] + x + [KEY_SEPARATOR] + y + [KEY_SEPARATOR] + name == KeyOf(b);
    var written := CachedWrite(EVERYONE_SLOT, s, Write(slot, a, value, true));
    assert Remembered(RecordFor(written.cache, slot), b) == Some(value);
  }

  // ---- The refinement ----

  /** The engine locations the agreement is about: everything on a player screen, and the per-player state of
      a shared one. */
  predicate IsCovered(owner: int, engineSlot: int) {
    owner != EVERYONE_SLOT || engineSlot != EVERYONE_SLOT
  }

  /** What the cache remembers for a slot is what the live entity holds. */
  ghost predicate Truthful(owner: int, s: Screen, slot: int) {
    s.world.Live? ==>
      forall t: Target | IsClean(t) && Remembered(RecordFor(s.cache, slot), t).Some? ::
        var at := (EngineSlotFor(owner, slot, t), t);
        at in s.world.values && s.world.values[at] == Remembered(RecordFor(s.cache, slot), t).value
  }

  ghost predicate SlotsTruthful(owner: int, s: Screen) {
    forall slot | Writable(owner, slot) :: Truthful(owner, s, slot)
  }

  /** The player slots a screen writes under: a player screen only ever writes under its owner. */
  predicate Writable(owner: int, slot: int) {
    IsValidSlot(slot) && (owner == EVERYONE_SLOT || slot == owner)
  }

  ghost predicate Agree(owner: int, a: World, b: World) {
    && (a.Live? <==> b.Live?)
    && (a.Live? ==>
          && a.states == b.states
          && forall k: (int, Target) | IsCovered(owner, k.0) ::
               && (k in a.values <==> k in b.values)
               && (k in a.values ==> a.values[k] == b.values[k]))
  }

  /** The trace a plugin can produce: cursor writes are flags and element ids are free of the separator. */
  ghost predicate IsPlain(op: Op) {
    op.Write? ==> IsWrite(op) && IsClean(op.target)
  }

  /** Writing one clean target leaves what is remembered for every other one. */
  lemma RememberIsPrecise(sent: Sent, target: Target, value: string, other: Target)
    requires IsClean(target) && IsClean(other)
    requires target.CursorOf? ==> value == CursorText(true) || value == CursorText(false)
    ensures Remembered(Remember(sent, target, value), other)
         == if other == target then Some(value) else Remembered(sent, other)
  {
    if !target.CursorOf? && !other.CursorOf? {
      KeysAreInjective(target, other);
    }
  }

  lemma WriteKeepsTruth(owner: int, s: Screen, op: Op, slot: int)
    requires IsOwner(owner) && IsPlain(op) && op.Write? && Writable(owner, slot) && Truthful(owner, s, slot)
    ensures Truthful(owner, CachedWrite(owner, s, op), slot)
  {
    var t := CachedWrite(owner, s, op);
    var found := CacheSlotFor(owner, op.slot);
    if t.world.Live? && found.Some? && HasRecord(found.value) {
      forall target: Target | IsClean(target) && Remembered(RecordFor(t.cache, slot), target).Some?
        ensures var at := (EngineSlotFor(owner, slot, target), target);
                at in t.world.values && t.world.values[at] == Remembered(RecordFor(t.cache, slot), target).value
      {
        if found.value == slot {
          RememberIsPrecise(RecordFor(s.cache, slot), op.target, op.value, target);
        }
      }
    }
  }

  lemma WriteKeepsAgreement(owner: int, c: Screen, d: Screen, op: Op)
    requires IsOwner(owner) && IsPlain(op) && op.Write?
    requires SlotsTruthful(owner, c) && Agree(owner, c.world, d.world)
    ensures Agree(owner, CachedWrite(owner, c, op).world, DirectWrite(owner, d, op).world)
  {
    var found := CacheSlotFor(owner, op.slot);
    if found.Some? && HasRecord(found.value) {
      var slot := found.value;
      var sent := RecordFor(c.cache, slot);
      if Remembered(sent, op.target) == Some(op.value) && c.world.Live? && IsValidSlot(slot) {
        assert Truthful(owner, c, slot);
        var at := (EngineSlotFor(owner, slot, op.target), op.target);
        assert at in c.world.values && c.world.values[at] == op.value;
      }
    }
  }

  lemma StepKeepsTruth(owner: int, s: Screen, op: Op)
    requires IsOwner(owner) && IsPlain(op) && SlotsTruthful(owner, s)
    ensures SlotsTruthful(owner, Apply(true, owner, s, op))
  {
    forall slot | Writable(owner, slot) ensures Truthful(owner, Apply(true, owner, s, op), slot) {
      assert Truthful(owner, s, slot);
      if op.Write? {
        WriteKeepsTruth(owner, s, op, slot);
      }
    }
  }

  lemma StepKeepsAgreement(owner: int, c: Screen, d: Screen, op: Op)
    requires IsOwner(owner) && IsPlain(op)
    requires SlotsTruthful(owner, c) && Agree(owner, c.world, d.world) && c.playersChanged == d.playersChanged
    ensures var c', d' := Apply(true, owner, c, op), Apply(false, owner, d, op);
            Agree(owner, c'.world, d'.world) && c'.playersChanged == d'.playersChanged
  {
    if op.Write? {
      WriteKeepsAgreement(owner, c, d, op);
    }
  }

  /** For every trace, the cached screen leaves the engine holding what sending every write would: all of a
      player screen's state, and all per-player state of a shared one. */
  lemma {:induction false} CacheAgreesWithSendingEverything(owner: int, ops: seq<Op>)
    requires IsOwner(owner) && forall op | op in ops :: IsPlain(op)
    ensures Agree(owner, Run(true, owner, ops).world, Run(false, owner, ops).world)
    ensures Run(true, owner, ops).playersChanged == Run(false, owner, ops).playersChanged
    ensures SlotsTruthful(owner, Run(true, owner, ops))
  {
    if ops != [] {
      var before := ops[..|ops| - 1];
      CacheAgreesWithSendingEverything(owner, before);
      StepKeepsTruth(owner, Run(true, owner, before), ops[|ops| - 1]);
      StepKeepsAgreement(owner, Run(true, owner, before), Run(false, owner, before), ops[|ops| - 1]);
    }
  }

  // ---- Global state of a shared screen ----

  /** The engine turns down a changed global write although the entity is live. */
  predicate GlobalWriteRefused(s: Screen, op: Op) {
    && op.Write? && op.slot == EVERYONE_SLOT
    && s.world.Live? && !op.accepts
    && Remembered(s.cache.everyone, op.target) != Some(op.value)
  }

  /** The record for everyone holds exactly what the live entity was told globally. */
  ghost predicate GlobalExact(s: Screen) {
    s.world.Live? ==>
      forall t: Target | IsClean(t) ::
        Remembered(s.cache.everyone, t)
        == if (EVERYONE_SLOT, t) in s.world.values then Some(s.world.values[(EVERYONE_SLOT, t)]) else None
  }

  /** A step of a shared screen keeps the global record exact if and only if it is not a refused global write. */
  lemma GlobalRecordStaysExactUnlessRefused(s: Screen, op: Op)
    requires IsPlain(op) && GlobalExact(s)
    ensures GlobalExact(Apply(true, EVERYONE_SLOT, s, op)) <==> !GlobalWriteRefused(s, op)
  {
    var t := Apply(true, EVERYONE_SLOT, s, op);
    if GlobalWriteRefused(s, op) {
      RememberIsPrecise(s.cache.everyone, op.target, op.value, op.target);
      assert Remembered(t.cache.everyone, op.target) == Some(op.value);
    } else if op.Write? && t.world.Live? && op.slot == EVERYONE_SLOT {
      forall target: Target | IsClean(target)
        ensures Remembered(t.cache.everyone, target)
             == if (EVERYONE_SLOT, target) in t.world.values
                then Some(t.world.values[(EVERYONE_SLOT, target)]) else None
      {
        RememberIsPrecise(s.cache.everyone, op.target, op.value, target);
      }
    }
  }

  ghost predicate NoGlobalRefusals(ops: seq<Op>) {
    forall i | 0 <= i < |ops| :: !GlobalWriteRefused(Run(true, EVERYONE_SLOT, ops[..i]), ops[i])
  }

  lemma GlobalStepAgrees(c: Screen, d: Screen, op: Op)
    requires IsPlain(op) && GlobalExact(c) && c.world == d.world && c.playersChanged == d.playersChanged
    requires SlotsTruthful(EVERYONE_SLOT, c) && !GlobalWriteRefused(c, op)
    ensures Apply(true, EVERYONE_SLOT, c, op).world == Apply(false, EVERYONE_SLOT, d, op).world
    ensures Apply(true, EVERYONE_SLOT, c, op).playersChanged == Apply(false, EVERYONE_SLOT, d, op).playersChanged
  {
    if op.Write? && HasRecord(op.slot) && c.world.Live?
       && Remembered(RecordFor(c.cache, op.slot), op.target) == Some(op.value) {
      if op.slot != EVERYONE_SLOT {
        assert Truthful(EVERYONE_SLOT, c, op.slot);
      }
      var at := (op.slot, op.target);
      assert at in c.world.values && c.world.values[at] == op.value;
      assert c.world.values[at := op.value] == c.world.values;
    }
  }

  /** While no changed global write is refused by a live entity, a shared screen's whole engine state, global
      state included, is what sending every write gives. */
  lemma {:induction false} SharedScreenAgreesWithoutRefusals(ops: seq<Op>)
    requires forall op | op in ops :: IsPlain(op)
    requires NoGlobalRefusals(ops)
    ensures Run(true, EVERYONE_SLOT, ops).world == Run(false, EVERYONE_SLOT, ops).world
    ensures Run(true, EVERYONE_SLOT, ops).playersChanged == Run(false, EVERYONE_SLOT, ops).playersChanged
    ensures GlobalExact(Run(true, EVERYONE_SLOT, ops))
  {
    if ops != [] {
      var before := ops[..|ops| - 1];
      assert NoGlobalRefusals(before) by {
        forall i | 0 <= i < |before| ensures !GlobalWriteRefused(Run(true, EVERYONE_SLOT, before[..i]), before[i]) {
          assert before[..i] == ops[..i];
        }
      }
      SharedScreenAgreesWithoutRefusals(before);
      CacheAgreesWithSendingEverything(EVERYONE_SLOT, before);
      var c := Run(true, EVERYONE_SLOT, before);
      assert !GlobalWriteRefused(c, ops[|ops| - 1]);
      GlobalRecordStaysExactUnlessRefused(c, ops[|ops| - 1]);
      GlobalStepAgrees(c, Run(false, EVERYONE_SLOT, before), ops[|ops| - 1]);
    }
  }

  function RunFrom(cached: bool, s: Screen, ops: seq<Op>): Screen {
    if ops == [] then s
    else Apply(cached, EVERYONE_SLOT, RunFrom(cached, s, ops[..|ops| - 1]), ops[|ops| - 1])
  }

  /** The record says the value was written for everyone; the live entity never got it. */
  predicate Stuck(s: Screen, target: Target, value: string) {
    && Remembered(s.cache.everyone, target) == Some(value)
    && (s.world.Live? && (EVERYONE_SLOT, target) in s.world.values ==>
          s.world.values[(EVERYONE_SLOT, target)] != value)
  }

  /** The op is not another value for that target, nor does it take the entity away or make a new one. */
  predicate Repeats(s: Screen, op: Op, target: Target, value: string) {
    match op
    case Write(slot, other, v, _) => slot == EVERYONE_SLOT && other == target ==> v == value
    case EnsureSpawned(slot, first, second) => DoEnsureSpawned(EVERYONE_SLOT, s, slot, first, second).0 == s
    case Remove => false
    case SlotChanged(slot, _) => slot != EVERYONE_SLOT
    case FullyConnected(slot) => IsValidSlot(slot)
    case EntityLost => true
  }

  lemma RepeatsStayStuck(s: Screen, op: Op, target: Target, value: string)
    requires IsPlain(op) && IsClean(target) && Stuck(s, target, value) && Repeats(s, op, target, value)
    ensures Stuck(Apply(true, EVERYONE_SLOT, s, op), target, value)
  {
    if op.Write? {
      RememberIsPrecise(s.cache.everyone, op.target, op.value, target);
    }
  }

  ghost predicate AllRepeat(s: Screen, ops: seq<Op>, target: Target, value: string) {
    forall i | 0 <= i < |ops| :: IsPlain(ops[i]) && Repeats(RunFrom(true, s, ops[..i]), ops[i], target, value)
  }

  lemma {:induction false} StuckForGood(s: Screen, ops: seq<Op>, target: Target, value: string)
    requires IsClean(target) && Stuck(s, target, value) && AllRepeat(s, ops, target, value)
    ensures Stuck(RunFrom(true, s, ops), target, value)
  {
    if ops != [] {
      var before := ops[..|ops| - 1];
      forall i | 0 <= i < |before| ensures Repeats(RunFrom(true, s, before[..i]), before[i], target, value) {
        assert before[..i] == ops[..i];
      }
      StuckForGood(s, before, target, value);
      RepeatsStayStuck(RunFrom(true, s, before), ops[|ops| - 1], target, value);
    }
  }

  /** After a refused global write the same write is never sent again, however often it is repeated and even
      once the engine would take it: not before another value is written, or the entity goes or is replaced.
      Sending every write delivers it with the first repeat. */
  lemma {:induction false} RefusedGlobalWriteIsNotRetried(c: Screen, d: Screen, op: Op, more: seq<Op>)
    requires IsPlain(op) && GlobalExact(c) && c.world == d.world && GlobalWriteRefused(c, op)
    requires AllRepeat(Apply(true, EVERYONE_SLOT, c, op), more, op.target, op.value)
    ensures Stuck(RunFrom(true, Apply(true, EVERYONE_SLOT, c, op), more), op.target, op.value)
    ensures Apply(false, EVERYONE_SLOT, Apply(false, EVERYONE_SLOT, d, op), op.(accepts := true)).world
         == d.world.(values := d.world.values[(EVERYONE_SLOT, op.target) := op.value])
  {
    RememberIsPrecise(c.cache.everyone, op.target, op.value, op.target);
    var at := (EVERYONE_SLOT, op.target);
    assert Remembered(c.cache.everyone, op.target)
        == if at in c.world.values then Some(c.world.values[at]) else None;
    StuckForGood(Apply(true, EVERYONE_SLOT, c, op), more, op.target, op.value);
  }

  // ---- Spawning ----

  /** EnsureSpawned answers true exactly when the target can be written to now, and a respawn for a slot the
      entity does not cover happens at most once per change of players. */
  lemma EnsureSpawnedIsTruthful(owner: int, s: Screen, slot: int, first: SpawnResult, second: SpawnResult,
                                third: SpawnResult, fourth: SpawnResult)
    requires IsOwner(owner)
    ensures var (t, ok) := DoEnsureSpawned(owner, s, slot, first, second);
            && (ok ==> t.world.Live? && HasRecord(slot) && CacheSlotFor(owner, slot).Some?
                       && (CacheSlotFor(owner, slot).value == EVERYONE_SLOT
                           || Covers(t.world, CacheSlotFor(owner, slot).value)))
            && (!ok && t.world.Live? && HasRecord(slot) && CacheSlotFor(owner, slot).Some? ==>
                  CacheSlotFor(owner, slot).value != EVERYONE_SLOT && !Covers(t.world, CacheSlotFor(owner, slot).value)
                  && !t.playersChanged && DoEnsureSpawned(owner, t, slot, third, fourth) == (t, false))
  {
  }

  // ---- Where a write lands ----

  /** The engine slot a write is for, or none: on a player screen a cursor is the owner's and everything else is
      everyone's, and only writes for the owner or for everyone count; a shared screen takes each slot as it is. */
  function Place(owner: int, slot: int, target: Target): Option<int> {
    if owner == EVERYONE_SLOT then (if slot == EVERYONE_SLOT || IsValidSlot(slot) then Some(slot) else None)
    else if slot != owner && slot != EVERYONE_SLOT then None
    else if target.CursorOf? then Some(owner)
    else Some(EVERYONE_SLOT)
  }

  /** The engine holds state for the slot. */
  predicate Reaches(world: World, place: int) {
    world.Live? && (place == EVERYONE_SLOT || place < world.states)
  }

  /** In every run, a write does to the entity exactly what it says, through the cache or without: the target at
      its own place holds the value and nothing else changes; or, where the write is for nobody, the engine
      refuses it, or it keeps no state for the slot, nothing changes at all. Global writes to a shared screen
      need a run in which none was refused before. */
  lemma {:induction false} WriteLandsInItsPlace(cached: bool, owner: int, ops: seq<Op>, op: Op)
    requires IsOwner(owner) && op.Write? && IsPlain(op) && forall o | o in ops :: IsPlain(o)
    requires cached && owner == op.slot == EVERYONE_SLOT ==> NoGlobalRefusals(ops)
    ensures var before, after := Run(cached, owner, ops).world, Run(cached, owner, ops + [op]).world;
            var place := Place(owner, op.slot, op.target);
            if place.Some? && Reaches(before, place.value) && op.accepts
            then after == Live(before.states, before.values[(place.value, op.target) := op.value])
            else after == before
  {
    assert (ops + [op])[..|ops|] == ops;
    var s := Run(cached, owner, ops);
    if cached {
      CacheAgreesWithSendingEverything(owner, ops);
      if owner == op.slot == EVERYONE_SLOT {
        SharedScreenAgreesWithoutRefusals(ops);
      }
      CachedWriteLands(owner, s, op);
    }
  }

  lemma CachedWriteLands(owner: int, s: Screen, op: Op)
    requires IsOwner(owner) && op.Write? && IsPlain(op) && SlotsTruthful(owner, s)
    requires owner == op.slot == EVERYONE_SLOT ==> GlobalExact(s)
    ensures var place := Place(owner, op.slot, op.target);
            CachedWrite(owner, s, op).world
            == if place.Some? && Reaches(s.world, place.value) && op.accepts
               then Live(s.world.states, s.world.values[(place.value, op.target) := op.value]) else s.world
  {
    var place := Place(owner, op.slot, op.target);
    if place.Some? && Reaches(s.world, place.value) && op.accepts {
      var slot := if owner == EVERYONE_SLOT then op.slot else owner;
      if Remembered(RecordFor(s.cache, slot), op.target) == Some(op.value) {
        assert slot != EVERYONE_SLOT ==> Truthful(owner, s, slot);
        var at := (place.value, op.target);
        assert at in s.world.values && s.world.values[at] == op.value;
        assert s.world.values[at := op.value] == s.world.values;
      }
    }
  }

  /** So a player screen holds text and classes for everyone only, and a cursor for its owner only. */
  ghost predicate InPlace(owner: int, world: World) {
    owner != EVERYONE_SLOT && world.Live? ==>
      forall k: (int, Target) | k in world.values :: k.0 == if k.1.CursorOf? then owner else EVERYONE_SLOT
  }

  lemma {:induction false} PlayerScreenKeepsToItsPlaces(cached: bool, owner: int, ops: seq<Op>)
    requires IsOwner(owner) && forall op | op in ops :: IsPlain(op)
    ensures InPlace(owner, Run(cached, owner, ops).world)
  {
    if ops != [] && owner != EVERYONE_SLOT {
      var before, op := ops[..|ops| - 1], ops[|ops| - 1];
      PlayerScreenKeepsToItsPlaces(cached, owner, before);
      if op.Write? {
        assert before + [op] == ops;
        WriteLandsInItsPlace(cached, owner, before, op);
      }
    }
  }

  /** A changed write that does not reach a player's slot takes with it all that was remembered for that slot, so
      that the next write of anything is sent. */
  lemma FailedWriteForgetsTheSlot(owner: int, s: Screen, op: Op, slot: int, target: Target)
    requires IsOwner(owner) && op.Write? && IsPlain(op)
    requires Writable(owner, slot) && CacheSlotFor(owner, op.slot) == Some(slot)
    requires Remembered(RecordFor(s.cache, slot), op.target) != Some(op.value)
    requires !op.accepts || !Reaches(s.world, Place(owner, op.slot, op.target).value)
    ensures Remembered(RecordFor(CachedWrite(owner, s, op).cache, slot), target) == None
  {
  }

  // ---- How a screen comes and goes ----

  /** A screen is left as it is where the slot is no business of it, where it reaches the slot already, and where it
      does not but no player has come or gone since it was made. */
  lemma SpawnsOnlyWhenItMust(owner: int, s: Screen, slot: int, first: SpawnResult, second: SpawnResult)
    requires IsOwner(owner)
    ensures var place := Place(owner, slot, CursorOf);
            && (place.None? ==> DoEnsureSpawned(owner, s, slot, first, second) == (s, false))
            && (place.Some? && s.world.Live? && Reaches(s.world, place.value) ==>
                  DoEnsureSpawned(owner, s, slot, first, second) == (s, true))
            && (place.Some? && s.world.Live? && !Reaches(s.world, place.value) && !s.playersChanged ==>
                  DoEnsureSpawned(owner, s, slot, first, second) == (s, false))
  {
  }

  /** A spawn starts from nothing, with the states the engine made and an empty cache. */
  lemma SpawnStartsEmpty(owner: int, s: Screen, slot: int, first: SpawnResult, second: SpawnResult)
    ensures var t := DoEnsureSpawned(owner, s, slot, first, second).0;
            t.world.Live? && t.world != s.world ==>
              && t.cache == EMPTY_CACHE
              && exists spawned | spawned == first || spawned == second ::
                   spawned.Spawned? && t.world == Live(spawned.states, map[])
  {
  }

  /** Whenever players change, a screen that does not reach a slot may be made again for it, and then it does. */
  lemma NewPlayersAllowARespawn(cached: bool, owner: int, s: Screen, op: Op, slot: int, first: SpawnResult, n: int)
    requires (op.SlotChanged? && op.slot != owner) || op.FullyConnected?
    requires IsOwner(owner) && s.world.Live? && IsValidSlot(slot) && (owner == EVERYONE_SLOT || slot == owner)
    requires s.world.states <= slot < n
    ensures DoEnsureSpawned(owner, Apply(cached, owner, s, op), slot, first, Spawned(n))
         == (Screen(Live(n, map[]), false, EMPTY_CACHE), true)
  {
  }

  /** A screen that is taken away, lost, or whose owner's slot changes hands is gone. A slot that changes hands,
      where the engine resets it, or whose player has connected fully, loses its own values and no others. */
  lemma EventsTakeOnlyTheirOwn(cached: bool, owner: int, s: Screen, op: Op)
    requires op.Remove? || op.EntityLost? || op.SlotChanged? || op.FullyConnected?
    ensures var after := Apply(cached, owner, s, op).world;
            if op.Remove? || op.EntityLost? || (op.SlotChanged? && op.slot == owner) || s.world.Gone?
            then after == Gone
            else
              && after.Live? && after.states == s.world.states
              && forall k ::
                   && (k in after.values <==>
                         && k in s.world.values
                         && !(k.0 == op.slot && IsValidSlot(op.slot) && (op.FullyConnected? || op.resets)))
                   && (k in after.values ==> after.values[k] == s.world.values[k])
  {
  }
}
