/** Client convar queries awaiting an answer: the wrapping cookie allocator and the per-slot table. */
module ConVarQueries {
  import opened Slots

  const MAX_PENDING := 11
  const TIMEOUT_SECONDS := 10.0
  const MAX_COOKIE := 0x7FFFFFFF

  /** callback names the registration. */
  datatype Query = Query(name: string, callback: nat, sentAt: real, cookie: int)

  // ---- Cookies ----

  function Advance(counter: nat): nat {
    if counter + 1 > MAX_COOKIE then 1 else counter + 1
  }

  function AdvanceBy(counter: nat, n: nat): nat {
    if n == 0 then counter else Advance(AdvanceBy(counter, n - 1))
  }

  /** The cookie the counter shows after ticks increments from zero. */
  function CookieAt(ticks: nat): nat {
    if ticks == 0 then 0 else (ticks - 1) % MAX_COOKIE + 1
  }

  lemma {:induction false} AdvanceCountsTicks(ticks: nat)
    ensures Advance(CookieAt(ticks)) == CookieAt(ticks + 1)
  {
    if ticks > 0 {
      var m := ticks - 1;
      assert m == m / MAX_COOKIE * MAX_COOKIE + m % MAX_COOKIE;
      if m % MAX_COOKIE + 1 == MAX_COOKIE {
        ModFromParts(m + 1, m / MAX_COOKIE + 1, 0);
      } else {
        ModFromParts(m + 1, m / MAX_COOKIE, m % MAX_COOKIE + 1);
      }
    }
  }

  lemma ModFromParts(a: nat, q: nat, r: nat)
    requires a == q * MAX_COOKIE + r && r < MAX_COOKIE
    ensures a % MAX_COOKIE == r
  {
  }

  lemma {:induction false} AdvanceByCountsTicks(ticks: nat, n: nat)
    ensures AdvanceBy(CookieAt(ticks), n) == CookieAt(ticks + n)
  {
    if n > 0 {
      AdvanceByCountsTicks(ticks, n - 1);
      AdvanceCountsTicks(ticks + n - 1);
    }
  }

  /** Cookies issued fewer than MAX_COOKIE increments apart differ, through wraparound. */
  lemma CookiesDifferWithinWindow(t1: nat, t2: nat)
    requires 0 < t1 < t2 && t2 - t1 < 0x7FFF_FFFF
    ensures CookieAt(t1) != CookieAt(t2)
    ensures 1 <= CookieAt(t1) <= MAX_COOKIE
  {
    var a, b := t1 - 1, t2 - 1;
    assert a == a / MAX_COOKIE * MAX_COOKIE + a % MAX_COOKIE;
    assert b == b / MAX_COOKIE * MAX_COOKIE + b % MAX_COOKIE;
  }

  predicate Uses(queries: seq<Query>, cookie: int) {
    exists i | 0 <= i < |queries| :: queries[i].cookie == cookie
  }

  /** How many increments NextCookie makes: up to the first free cookie, or one more than the cap. */
  function Attempts(queries: seq<Query>, counter: nat, tried: nat): (n: nat)
    requires tried <= MAX_PENDING
    ensures tried < n <= MAX_PENDING + 1
    ensures forall k | tried < k < n :: Uses(queries, AdvanceBy(counter, k))
    ensures n == MAX_PENDING + 1 || !Uses(queries, AdvanceBy(counter, n))
    decreases queries, MAX_PENDING - tried
  {
    if tried == MAX_PENDING || !Uses(queries, AdvanceBy(counter, tried + 1)) then tried + 1
    else Attempts(queries, counter, tried + 1)
  }

  /** n distinct cookies that are all in use need n queries. */
  lemma {:induction false} PigeonHole(queries: seq<Query>, cookies: seq<int>)
    requires forall i, j | 0 <= i < j < |cookies| :: cookies[i] != cookies[j]
    requires forall i | 0 <= i < |cookies| :: Uses(queries, cookies[i])
    ensures |cookies| <= |queries|
    decreases |queries|
  {
    if queries == [] {
      assert cookies != [] ==> Uses(queries, cookies[0]);
    } else {
      var last := |queries| - 1;
      var others := cookies;
      if k :| 0 <= k < |cookies| && cookies[k] == queries[last].cookie {
        others := cookies[..k] + cookies[k + 1..];
      }
      forall i | 0 <= i < |others| ensures Uses(queries[..last], others[i]) {
        var q :| 0 <= q < |queries| && queries[q].cookie == others[i];
        assert q != last;
        assert queries[..last][q] == queries[q];
      }
      PigeonHole(queries[..last], others);
    }
  }

  /** The cookies tried by the next n increments. */
  function Tried(ticks: nat, n: nat): (cookies: seq<int>)
    requires n < MAX_COOKIE
    ensures |cookies| == n && forall i | 0 <= i < n :: cookies[i] == CookieAt(ticks + i + 1)
  {
    seq(n, i requires 0 <= i < n => CookieAt(ticks + i + 1))
  }

  lemma TriedCookiesDiffer(ticks: nat, n: nat)
    requires n < MAX_COOKIE
    ensures var tried := Tried(ticks, n); forall i, j | 0 <= i < j < n :: tried[i] != tried[j]
  {
    forall i, j | 0 <= i < j < n ensures Tried(ticks, n)[i] != Tried(ticks, n)[j] {
      CookiesDifferWithinWindow(ticks + i + 1, ticks + j + 1);
    }
  }

  /** With room in the slot, the attempts reach a free cookie. */
  lemma RoomMeansFreeCookie(queries: seq<Query>, ticks: nat)
    requires |queries| <= MAX_PENDING
    ensures var n := Attempts(queries, CookieAt(ticks), 0);
            !Uses(queries, CookieAt(ticks + n)) && 1 <= CookieAt(ticks + n) <= MAX_COOKIE
  {
    var n := Attempts(queries, CookieAt(ticks), 0);
    AdvanceByCountsTicks(ticks, n);
    if Uses(queries, CookieAt(ticks + n)) {
      var tried := Tried(ticks, n);
      TriedCookiesDiffer(ticks, n);
      forall i | 0 <= i < n ensures Uses(queries, tried[i]) {
        if i + 1 < n {
          TriedIsUsed(queries, ticks, i + 1);
        }
      }
      PigeonHole(queries, tried);
    }
  }

  lemma TriedIsUsed(queries: seq<Query>, ticks: nat, k: nat)
    requires 0 < k < Attempts(queries, CookieAt(ticks), 0)
    ensures Uses(queries, CookieAt(ticks + k))
  {
    AdvanceByCountsTicks(ticks, k);
  }

  // ---- One slot's queries ----

  predicate Clash(a: Query, b: Query) {
    a.cookie == b.cookie || a.name == b.name || a.callback == b.callback
  }

  predicate Apart(queries: seq<Query>) {
    forall i, j | 0 <= i < j < |queries| :: !Clash(queries[i], queries[j])
  }

  predicate IsFresh(q: Query, now: real) {
    now - q.sentAt < TIMEOUT_SECONDS
  }

  function Pruned(queries: seq<Query>, now: real): seq<Query> {
    if queries == [] then []
    else Pruned(queries[..|queries| - 1], now)
         + if IsFresh(queries[|queries| - 1], now) then [queries[|queries| - 1]] else []
  }

  lemma {:induction false} PrunedKeepsFresh(queries: seq<Query>, now: real)
    ensures |Pruned(queries, now)| <= |queries|
    ensures forall q :: q in Pruned(queries, now) <==> q in queries && IsFresh(q, now)
    ensures Apart(queries) ==> Apart(Pruned(queries, now))
  {
    if queries != [] {
      var before, last := queries[..|queries| - 1], queries[|queries| - 1];
      PrunedKeepsFresh(before, now);
      assert queries == before + [last];
      var kept := Pruned(before, now);
      if IsFresh(last, now) {
        assert Pruned(queries, now) == kept + [last];
        if Apart(queries) {
          ApartBefore(before, last, kept);
        }
      } else {
        assert Pruned(queries, now) == kept;
        assert Apart(queries) ==> Apart(before);
      }
    }
  }

  /** Some of the queries before the last one, with it. */
  lemma ApartBefore(before: seq<Query>, last: Query, kept: seq<Query>)
    requires Apart(before + [last])
    requires (forall q | q in kept :: q in before) && (Apart(before) ==> Apart(kept))
    ensures Apart(kept + [last])
  {
    var all := before + [last];
    forall i, j | 0 <= i < j < |before| ensures !Clash(before[i], before[j]) {
      assert all[i] == before[i] && all[j] == before[j];
    }
    forall i | 0 <= i < |kept| ensures !Clash(kept[i], last) {
      assert kept[i] in before;
      var k :| 0 <= k < |before| && before[k] == kept[i];
      assert all[k] == kept[i] && all[|before|] == last;
    }
  }

  /** The place of the query for name at or after from, or the length. */
  function FindName(queries: seq<Query>, name: string, from: nat): (i: nat)
    requires from <= |queries|
    ensures from <= i <= |queries| && (i < |queries| ==> queries[i].name == name)
    ensures forall k | from <= k < i :: queries[k].name != name
    decreases |queries| - from
  {
    if from == |queries| || queries[from].name == name then from else FindName(queries, name, from + 1)
  }

  function FindCookie(queries: seq<Query>, cookie: int, from: nat): (i: nat)
    requires from <= |queries|
    ensures from <= i <= |queries| && (i < |queries| ==> queries[i].cookie == cookie)
    ensures forall k | from <= k < i :: queries[k].cookie != cookie
    decreases |queries| - from
  {
    if from == |queries| || queries[from].cookie == cookie then from else FindCookie(queries, cookie, from + 1)
  }

  // ---- Whole runs ----

  /** Where a callback was registered: the slot, and how often it had changed hands. */
  datatype Home = Home(slot: int, epoch: nat)

  datatype Invocation = Invocation(callback: nat, home: Home)

  /** History after the first two: the counter's increments, the registrations, and which increment a slot's
      cookie was last issued at. */
  datatype State = State(
    table: seq<seq<Query>>,
    counter: nat,
    ticks: nat,
    issued: map<(int, int), nat>,
    callbacks: nat,
    epochs: seq<nat>,
    homes: map<nat, Home>,
    invoked: seq<Invocation>)

  datatype Event =
    | Ask(slot: int, name: string, now: real, sends: bool)
    | Answer(slot: int, cookie: int, name: string)
    | SlotChanged(slot: int)
    | ServerStartup

  function NoQueries(): (table: seq<seq<Query>>)
    ensures |table| == MAX_PLAYERS && forall i | 0 <= i < MAX_PLAYERS :: table[i] == []
  {
    seq(MAX_PLAYERS, i => [])
  }

  function NoChanges(): (epochs: seq<nat>)
    ensures |epochs| == MAX_PLAYERS && forall i | 0 <= i < MAX_PLAYERS :: epochs[i] == 0
  {
    seq(MAX_PLAYERS, i => 0)
  }

  const INITIAL := State(NoQueries(), 0, 0, map[], 0, NoChanges(), map[], [])

  predicate Shaped(s: State) {
    |s.table| == MAX_PLAYERS && |s.epochs| == MAX_PLAYERS
  }

  function WithQueries(s: State, slot: int, queries: seq<Query>): State
    requires Shaped(s) && IsValidSlot(slot)
  {
    s.(table := s.table[slot := queries])
  }

  /** The callback the caller brings is used up, whether it is kept or not. */
  function Refused(s: State): State {
    s.(callbacks := s.callbacks + 1)
  }

  /** The caller's callback is registered for the slot's present occupant. */
  function Registered(s: State, slot: int, queries: seq<Query>): State
    requires Shaped(s) && IsValidSlot(slot)
  {
    Refused(WithQueries(s, slot, queries)).(homes := s.homes[s.callbacks := Home(slot, s.epochs[slot])])
  }

  function Counted(s: State, n: nat): State {
    s.(counter := AdvanceBy(s.counter, n), ticks := s.ticks + n)
  }

  function Issued(s: State, slot: int): State {
    s.(issued := s.issued[(slot, s.counter) := s.ticks])
  }

  function TickOf(s: State, slot: int, q: Query): nat {
    if (slot, q.cookie) in s.issued then s.issued[(slot, q.cookie)] else 0
  }

  /** ClientConVars::Query with the hook installed. Every call brings its own callback. */
  function DoAsk(s: State, slot: int, name: string, now: real, sends: bool): (State, bool)
    requires Shaped(s)
  {
    if !IsValidSlot(slot) || name == "" then (Refused(s), false) else
    var queries := Pruned(s.table[slot], now);
    var pruned := WithQueries(s, slot, queries);
    var i := FindName(queries, name, 0);
    if i < |queries| then
      (Registered(pruned, slot, queries[i := queries[i].(callback := s.callbacks)]), true)
    else if |queries| >= MAX_PENDING then (Refused(pruned), false)
    else
      var counted := Counted(pruned, Attempts(queries, s.counter, 0));
      if Uses(queries, counted.counter) || !sends then (Refused(counted), false)
      else (Registered(Issued(counted, slot), slot, queries + [Query(name, s.callbacks, now, counted.counter)]), true)
  }

  function DoAnswer(s: State, slot: int, cookie: int, name: string): State
    requires Shaped(s)
  {
    if !IsValidSlot(slot) then s else
    var queries := s.table[slot];
    var i := FindCookie(queries, cookie, 0);
    if i == |queries| || queries[i].name != name then s
    else s.(table := s.table[slot := queries[..i] + queries[i + 1..]],
            invoked := s.invoked + [Invocation(queries[i].callback, Home(slot, s.epochs[slot]))])
  }

  function Apply(s: State, e: Event): (t: State)
    requires Shaped(s)
    ensures Shaped(t)
  {
    match e
    case Ask(slot, name, now, sends) => DoAsk(s, slot, name, now, sends).0
    case Answer(slot, cookie, name) => DoAnswer(s, slot, cookie, name)
    case SlotChanged(slot) =>
      if IsValidSlot(slot)
      then s.(table := s.table[slot := []], epochs := s.epochs[slot := s.epochs[slot] + 1]) else s
    case ServerStartup => s.(table := NoQueries())
  }

  function After(events: seq<Event>): (s: State)
    ensures Shaped(s)
  {
    if events == [] then INITIAL else Apply(After(events[..|events| - 1]), events[|events| - 1])
  }

  /** One pending query fits the slot it is in. */
  ghost predicate Fits(s: State, slot: int, q: Query)
    requires Shaped(s) && IsValidSlot(slot)
  {
    && 0 < TickOf(s, slot, q) <= s.ticks && q.cookie == CookieAt(TickOf(s, slot, q))
    && q.callback < s.callbacks
    && q.callback in s.homes && s.homes[q.callback] == Home(slot, s.epochs[slot])
    && forall k | 0 <= k < |s.invoked| :: s.invoked[k].callback != q.callback
  }

  ghost predicate SlotGood(s: State, slot: int)
    requires Shaped(s) && IsValidSlot(slot)
  {
    && |s.table[slot]| <= MAX_PENDING
    && Apart(s.table[slot])
    && forall q | q in s.table[slot] :: Fits(s, slot, q)
  }

  ghost predicate Ledger(s: State) {
    && s.counter == CookieAt(s.ticks)
    && (forall c | c in s.homes :: c < s.callbacks)
    && (forall i | 0 <= i < |s.invoked| ::
          && s.invoked[i].callback in s.homes && s.invoked[i].home == s.homes[s.invoked[i].callback])
    && (forall i, j | 0 <= i < j < |s.invoked| :: s.invoked[i].callback != s.invoked[j].callback)
  }

  ghost predicate Good(s: State) {
    Shaped(s) && Ledger(s) && forall slot | IsValidSlot(slot) :: SlotGood(s, slot)
  }

  lemma PruneKeepsGood(s: State, slot: int, now: real)
    requires Good(s) && IsValidSlot(slot)
    ensures Good(WithQueries(s, slot, Pruned(s.table[slot], now)))
  {
    var t := WithQueries(s, slot, Pruned(s.table[slot], now));
    PrunedKeepsFresh(s.table[slot], now);
    forall other | IsValidSlot(other) ensures SlotGood(t, other) {
      assert SlotGood(s, other);
      forall q | q in t.table[other] ensures Fits(t, other, q) {
        assert q in s.table[other] && Fits(s, other, q);
      }
    }
  }

  lemma CountKeepsGood(s: State, n: nat)
    requires Good(s)
    ensures Good(Counted(s, n)) && Counted(s, n).counter == CookieAt(s.ticks + n)
  {
    AdvanceByCountsTicks(s.ticks, n);
    forall other | IsValidSlot(other) ensures SlotGood(Counted(s, n), other) {
      assert SlotGood(s, other);
      forall q | q in s.table[other] ensures Fits(Counted(s, n), other, q) {
        assert Fits(s, other, q);
      }
    }
  }

  /** Issuing a cookie that no query of the slot has. */
  lemma IssueKeepsGood(s: State, slot: int)
    requires Good(s) && IsValidSlot(slot) && !Uses(s.table[slot], s.counter)
    ensures Good(Issued(s, slot))
  {
    var t := Issued(s, slot);
    forall other | IsValidSlot(other) ensures SlotGood(t, other) {
      assert SlotGood(s, other);
      forall q | q in s.table[other] ensures Fits(t, other, q) {
        assert Fits(s, other, q);
        assert other == slot ==> q.cookie != s.counter;
      }
    }
  }

  /** Registering a new callback under one query of the slot keeps the run good. */
  lemma RegisterKeepsGood(s: State, slot: int, queries: seq<Query>, q: Query)
    requires Good(s) && IsValidSlot(slot)
    requires |queries| <= MAX_PENDING && Apart(queries)
    requires q.callback == s.callbacks && 0 < TickOf(s, slot, q) <= s.ticks && q.cookie == CookieAt(TickOf(s, slot, q))
    requires forall p | p in queries :: p == q || p in s.table[slot]
    ensures Good(Registered(s, slot, queries))
  {
    var t := Registered(s, slot, queries);
    forall other | IsValidSlot(other) ensures SlotGood(t, other) {
      assert SlotGood(s, other);
      forall p | p in t.table[other] ensures Fits(t, other, p) {
        if p in s.table[other] {
          assert Fits(s, other, p);
        }
      }
    }
  }

  lemma AskKeepsGood(s: State, slot: int, name: string, now: real, sends: bool)
    requires Good(s)
    ensures Good(DoAsk(s, slot, name, now, sends).0)
  {
    if IsValidSlot(slot) && name != "" {
      PruneKeepsGood(s, slot, now);
      var queries := Pruned(s.table[slot], now);
      var pruned := WithQueries(s, slot, queries);
      assert SlotGood(pruned, slot);
      forall q | q in queries ensures q.callback < s.callbacks {
        assert Fits(pruned, slot, q);
      }
      var i := FindName(queries, name, 0);
      if i < |queries| {
        assert Fits(pruned, slot, queries[i]);
        RegisterKeepsGood(pruned, slot, queries[i := queries[i].(callback := s.callbacks)],
                          queries[i].(callback := s.callbacks));
      } else if |queries| < MAX_PENDING {
        AskNewKeepsGood(pruned, slot, name, now, sends);
      }
    }
  }

  lemma AskNewKeepsGood(s: State, slot: int, name: string, now: real, sends: bool)
    requires Good(s) && IsValidSlot(slot) && |s.table[slot]| < MAX_PENDING
    requires forall k | 0 <= k < |s.table[slot]| :: s.table[slot][k].name != name
    ensures var queries := s.table[slot];
            var counted := Counted(s, Attempts(queries, s.counter, 0));
            if Uses(queries, counted.counter) || !sends then Good(Refused(counted))
            else Good(Registered(Issued(counted, slot), slot,
                                 queries + [Query(name, s.callbacks, now, counted.counter)]))
  {
    var queries := s.table[slot];
    var n := Attempts(queries, s.counter, 0);
    var counted := Counted(s, n);
    CountKeepsGood(s, n);
    if !Uses(queries, counted.counter) && sends {
      assert SlotGood(s, slot);
      forall q | q in queries ensures q.callback < s.callbacks {
        assert Fits(s, slot, q);
      }
      var q := Query(name, s.callbacks, now, counted.counter);
      IssueKeepsGood(counted, slot);
      RegisterKeepsGood(Issued(counted, slot), slot, queries + [q], q);
    }
  }

  lemma AnswerKeepsGood(s: State, slot: int, cookie: int, name: string)
    requires Good(s)
    ensures Good(DoAnswer(s, slot, cookie, name))
  {
    var t := DoAnswer(s, slot, cookie, name);
    if t != s {
      var queries := s.table[slot];
      var i := FindCookie(queries, cookie, 0);
      assert SlotGood(s, slot);
      assert queries[i] in queries && Fits(s, slot, queries[i]);
      forall other | IsValidSlot(other) ensures SlotGood(t, other) {
        assert SlotGood(s, other);
        forall q | q in t.table[other] ensures Fits(t, other, q) {
          assert q in s.table[other] && Fits(s, other, q);
          if other == slot {
            var k :| 0 <= k < |t.table[slot]| && t.table[slot][k] == q;
            assert q == queries[if k < i then k else k + 1];
            assert !Clash(queries[if k < i then k else i], queries[if k < i then i else k + 1]);
          }
        }
      }
    }
  }

  lemma StepKeepsGood(s: State, e: Event)
    requires Good(s)
    ensures Good(Apply(s, e))
  {
    match e {
      case Ask(slot, name, now, sends) => AskKeepsGood(s, slot, name, now, sends);
      case Answer(slot, cookie, name) => AnswerKeepsGood(s, slot, cookie, name);
      case SlotChanged(slot) =>
        forall other | IsValidSlot(other) ensures SlotGood(Apply(s, e), other) {
          assert SlotGood(s, other);
        }
      case ServerStartup =>
    }
  }

  lemma {:induction false} EveryRunIsGood(events: seq<Event>)
    ensures Good(After(events))
  {
    if events != [] {
      EveryRunIsGood(events[..|events| - 1]);
      StepKeepsGood(After(events[..|events| - 1]), events[|events| - 1]);
    }
  }

  // ---- Main results ----

  /** In every reachable state a slot holds at most 11 queries with distinct cookies, names and callbacks,
      every cookie in 1..MAX_COOKIE. */
  lemma TableIsAlwaysSound(events: seq<Event>, slot: int)
    requires IsValidSlot(slot)
    ensures var queries := After(events).table[slot];
            && |queries| <= 11
            && Apart(queries)
            && forall q | q in queries :: 1 <= q.cookie <= 0x7FFF_FFFF
  {
    EveryRunIsGood(events);
    var s := After(events);
    assert SlotGood(s, slot);
    forall q | q in s.table[slot] ensures 1 <= q.cookie <= MAX_COOKIE {
      assert Fits(s, slot, q);
    }
  }

  /** The cookie NextCookie comes to, on a slot holding these queries. */
  function CookieTried(queries: seq<Query>, counter: nat): int {
    AdvanceBy(counter, Attempts(queries, counter, 0))
  }

  /** NextCookie's twelve attempts find a free cookie in every reachable state, however often the counter has
      wrapped, on every slot that is not over its cap. */
  lemma NextCookieAlwaysSucceeds(events: seq<Event>, queries: seq<Query>)
    requires |queries| <= MAX_PENDING
    ensures var cookie := CookieTried(queries, After(events).counter);
            !Uses(queries, cookie) && 1 <= cookie <= MAX_COOKIE
  {
    EveryRunIsGood(events);
    var s := After(events);
    RoomMeansFreeCookie(queries, s.ticks);
    AdvanceByCountsTicks(s.ticks, Attempts(queries, s.counter, 0));
  }

  /** Query fails only for a bad slot or name, a full slot, or a client it cannot send to; never for lack of a
      cookie. */
  lemma AskFailsOnlyWhenFullOrUnsendable(events: seq<Event>, slot: int, name: string, now: real, sends: bool)
    requires IsValidSlot(slot) && name != ""
    ensures var queries := Pruned(After(events).table[slot], now);
            DoAsk(After(events), slot, name, now, sends).1
            <==> (FindName(queries, name, 0) < |queries| || (|queries| < 11 && sends))
  {
    var s := After(events);
    var queries := Pruned(s.table[slot], now);
    if FindName(queries, name, 0) == |queries| && |queries| < MAX_PENDING {
      NextCookieAlwaysSucceeds(events, queries);
      assert Counted(WithQueries(s, slot, queries), Attempts(queries, s.counter, 0)).counter
          == CookieTried(queries, s.counter);
    }
  }

  /** No callback is invoked twice, and none after its slot has changed hands since it was registered. */
  lemma CallbacksRunOnceForTheirOccupant(events: seq<Event>, i: nat, j: nat)
    requires i < |After(events).invoked| && j < |After(events).invoked|
    ensures var s := After(events);
            && (s.invoked[i].callback == s.invoked[j].callback ==> i == j)
            && s.invoked[i].callback in s.homes
            && s.invoked[i].home == s.homes[s.invoked[i].callback]
  {
    EveryRunIsGood(events);
  }

  /** The registration is over without an answer: pruned, cleared, replaced or refused. */
  ghost predicate Lost(s: State, callback: nat)
    requires Shaped(s)
  {
    && callback < s.callbacks
    && (forall slot | IsValidSlot(slot) :: forall q | q in s.table[slot] :: q.callback != callback)
    && forall k | 0 <= k < |s.invoked| :: s.invoked[k].callback != callback
  }

  lemma AskKeepsLost(s: State, slot: int, name: string, now: real, sends: bool, callback: nat)
    requires Shaped(s) && Lost(s, callback)
    ensures Lost(DoAsk(s, slot, name, now, sends).0, callback)
  {
    if IsValidSlot(slot) {
      PrunedKeepsFresh(s.table[slot], now);
      var queries := Pruned(s.table[slot], now);
      forall q | q in queries ensures q.callback != callback {
        assert q in s.table[slot];
      }
    }
  }

  lemma LostStaysLost(s: State, e: Event, callback: nat)
    requires Shaped(s) && Lost(s, callback)
    ensures Lost(Apply(s, e), callback)
  {
    match e {
      case Ask(slot, name, now, sends) => AskKeepsLost(s, slot, name, now, sends, callback);
      case Answer(slot, cookie, name) =>
        if IsValidSlot(slot) {
          var i := FindCookie(s.table[slot], cookie, 0);
          if i < |s.table[slot]| {
            assert s.table[slot][i] in s.table[slot];
          }
        }
      case SlotChanged(slot) =>
      case ServerStartup =>
    }
  }

  /** A callback dropped with its query never runs later, whatever happens. */
  lemma {:induction false} DroppedCallbackNeverRuns(before: seq<Event>, later: seq<Event>, callback: nat)
    requires Lost(After(before), callback)
    ensures Lost(After(before + later), callback)
    decreases |later|
  {
    if later == [] {
      assert before + later == before;
    } else {
      var first := later[..|later| - 1];
      DroppedCallbackNeverRuns(before, first, callback);
      assert (before + later)[..|before + later| - 1] == before + first;
      LostStaysLost(After(before + first), later[|later| - 1], callback);
    }
  }

  // ---- What ends a registration ----

  predicate Answers(e: Event, slot: int, q: Query) {
    e.Answer? && e.slot == slot && e.cookie == q.cookie && e.name == q.name
  }

  /** What the event must be for a pending query of the slot to be gone after it. */
  predicate Ends(e: Event, slot: int, q: Query) {
    match e
    case Ask(other, name, now, _) => other == slot && name != "" && (name == q.name || now - q.sentAt >= 10.0)
    case Answer(_, _, _) => Answers(e, slot, q)
    case SlotChanged(other) => other == slot
    case ServerStartup => true
  }

  ghost predicate Pending(s: State, slot: int, q: Query)
    requires Shaped(s)
  {
    IsValidSlot(slot) && q in s.table[slot]
  }

  lemma AskEnds(s: State, e: Event, slot: int, q: Query)
    requires Good(s) && Pending(s, slot, q) && e.Ask?
    ensures Pending(Apply(s, e), slot, q) <==> !Ends(e, slot, q)
  {
    assert SlotGood(s, slot) && Fits(s, slot, q);
    if e.slot == slot && e.name != "" {
      var queries := Pruned(s.table[slot], e.now);
      PrunedKeepsFresh(s.table[slot], e.now);
      var i := FindName(queries, e.name, 0);
      if i < |queries| {
        RewrittenKeepsOthers(queries, i, queries[i].(callback := s.callbacks), q);
      }
    }
  }

  /** Putting a new callback under the i-th query keeps a query exactly when it is another one. */
  lemma RewrittenKeepsOthers(queries: seq<Query>, i: nat, rewritten: Query, q: Query)
    requires i < |queries| && Apart(queries) && rewritten.name == queries[i].name && rewritten.callback != q.callback
    ensures q in queries[i := rewritten] <==> q in queries && q.name != queries[i].name
  {
    var after := queries[i := rewritten];
    if k :| 0 <= k < |queries| && queries[k] == q {
      assert k != i ==> after[k] == q && !Clash(queries[if k < i then k else i], queries[if k < i then i else k]);
    }
  }

  lemma AnswerEnds(s: State, e: Event, slot: int, q: Query)
    requires Good(s) && Pending(s, slot, q) && e.Answer?
    ensures Pending(Apply(s, e), slot, q) <==> !Ends(e, slot, q)
    ensures Ends(e, slot, q) ==> Apply(s, e).invoked == s.invoked + [Invocation(q.callback, Home(slot, s.epochs[slot]))]
  {
    if e.slot == slot {
      var queries := s.table[slot];
      assert SlotGood(s, slot);
      var i := FindCookie(queries, e.cookie, 0);
      var k :| 0 <= k < |queries| && queries[k] == q;
      if i < |queries| && queries[i].name == e.name {
        assert k != i ==> !Clash(queries[if k < i then k else i], queries[if k < i then i else k]);
        RemovedKeepsOthers(queries, i, k);
      }
    }
  }

  lemma RemovedKeepsOthers(queries: seq<Query>, i: nat, k: nat)
    requires i < |queries| && k < |queries| && Apart(queries)
    ensures queries[k] in queries[..i] + queries[i + 1..] <==> k != i
  {
    var rest := queries[..i] + queries[i + 1..];
    if k != i {
      assert rest[if k < i then k else k - 1] == queries[k];
    } else {
      forall j | 0 <= j < |rest| ensures rest[j] != queries[i] {
        assert rest[j] == queries[if j < i then j else j + 1];
        assert !Clash(queries[if j < i then j else i], queries[if j < i then i else j + 1]);
      }
    }
  }

  /** A query that is gone without an answer took its callback with it. */
  lemma GoneIsLost(s: State, e: Event, slot: int, q: Query)
    requires Good(s) && Pending(s, slot, q) && !Pending(Apply(s, e), slot, q) && !e.Answer?
    ensures Lost(Apply(s, e), q.callback)
  {
    var t := Apply(s, e);
    assert SlotGood(s, slot) && Fits(s, slot, q);
    assert t.invoked == s.invoked && q.callback < s.callbacks <= t.callbacks;
    forall other, p | IsValidSlot(other) && p in t.table[other] ensures p.callback != q.callback {
      if e.Ask? && IsValidSlot(e.slot) {
        PrunedKeepsFresh(s.table[e.slot], e.now);
      }
      if p in s.table[other] {
        assert SlotGood(s, other) && Fits(s, other, p);
        if other == slot && p.callback == q.callback {
          SameCallbackSameQuery(s.table[slot], p, q);
        }
      }
    }
  }

  lemma SameCallbackSameQuery(queries: seq<Query>, p: Query, q: Query)
    requires Apart(queries) && p in queries && q in queries && p.callback == q.callback
    ensures p == q
  {
    var i :| 0 <= i < |queries| && queries[i] == p;
    var j :| 0 <= j < |queries| && queries[j] == q;
  }

  /** Exactly what ends a pending registration: its own answer, which runs it; a query of the slot for the same
      variable, or one made when it is too old; the slot changing hands; a server start. All but the answer
      lose its callback for good. */
  lemma {:induction false} RegistrationEndsExactlyWhen(events: seq<Event>, e: Event, slot: int, q: Query)
    requires Pending(After(events), slot, q)
    ensures q.callback in After(events).homes
    ensures var s, t := After(events), After(events + [e]);
            && (Pending(t, slot, q) <==> !Ends(e, slot, q))
            && (Answers(e, slot, q) ==> t.invoked == s.invoked + [Invocation(q.callback, s.homes[q.callback])])
            && (Ends(e, slot, q) && !Answers(e, slot, q) ==> Lost(t, q.callback))
  {
    EveryRunIsGood(events);
    var s := After(events);
    assert (events + [e])[..|events|] == events;
    assert SlotGood(s, slot) && Fits(s, slot, q);
    match e {
      case Ask(_, _, _, _) => AskEnds(s, e, slot, q);
      case Answer(_, _, _) => AnswerEnds(s, e, slot, q);
      case SlotChanged(_) =>
      case ServerStartup =>
    }
    if Ends(e, slot, q) && !Answers(e, slot, q) {
      GoneIsLost(s, e, slot, q);
    }
  }

  /** So two queries of one variable in a row leave the first callback never to run. */
  lemma {:induction false} AskingTwiceLosesTheFirst(slot: int, name: string, now: real, later: seq<Event>)
    requires IsValidSlot(slot) && name != ""
    ensures var ask := Ask(slot, name, now, true);
            Lost(After([ask] + [ask] + later), 0)
  {
    var ask := Ask(slot, name, now, true);
    assert [ask][..0] == [];
    NextCookieAlwaysSucceeds([], []);
    var n := Attempts([], 0, 0);
    assert !Uses([], Counted(INITIAL, n).counter);
    var q := Query(name, 0, now, Counted(INITIAL, n).counter);
    assert Pruned(INITIAL.table[slot], now) == [];
    assert After([ask]).table[slot] == [q];
    assert Pending(After([ask]), slot, q);
    RegistrationEndsExactlyWhen([ask], ask, slot, q);
    DroppedCallbackNeverRuns([ask] + [ask], later, 0);
  }

  /** An answer carrying the cookie of a query that is gone takes no query issued within MAX_COOKIE
      increments of it, on any slot. */
  lemma StaleAnswerTakesNothing(events: seq<Event>, slot: int, stale: nat, name: string)
    requires IsValidSlot(slot) && 0 < stale
    requires forall q | q in After(events).table[slot] ::
               var tick := TickOf(After(events), slot, q); tick != stale && -MAX_COOKIE < tick - stale < MAX_COOKIE
    ensures DoAnswer(After(events), slot, CookieAt(stale), name) == After(events)
  {
    EveryRunIsGood(events);
    var s := After(events);
    assert SlotGood(s, slot);
    var i := FindCookie(s.table[slot], CookieAt(stale), 0);
    if i < |s.table[slot]| {
      var q := s.table[slot][i];
      assert q in s.table[slot] && Fits(s, slot, q);
      if TickOf(s, slot, q) < stale {
        CookiesDifferWithinWindow(TickOf(s, slot, q), stale);
      } else {
        CookiesDifferWithinWindow(stale, TickOf(s, slot, q));
      }
    }
  }

  // ---- What a query that is accepted leaves ----

  predicate IsAskedAgain(s: State, slot: int, name: string, now: real, p: Query)
    requires Shaped(s) && IsValidSlot(slot)
  {
    p in s.table[slot] && p.name == name && now - p.sentAt < 10.0
  }

  /** Query leaves the caller's callback pending under its name: in the place of one asked for in the last ten
      seconds, whose cookie and time it keeps, or in a query of this moment with a cookie of its own. */
  lemma {:induction false} AskLeavesItsQuery(events: seq<Event>, slot: int, name: string, now: real, sends: bool)
    requires IsValidSlot(slot) && DoAsk(After(events), slot, name, now, sends).1
    ensures var s, t := After(events), DoAsk(After(events), slot, name, now, sends).0;
            exists q | q in t.table[slot] ::
              && q.name == name && q.callback == s.callbacks
              && ((exists p :: IsAskedAgain(s, slot, name, now, p) && q == p.(callback := s.callbacks))
                  || (!(exists p :: IsAskedAgain(s, slot, name, now, p)) && q.sentAt == now
                      && forall p | p in s.table[slot] && now - p.sentAt < 10.0 :: p.cookie != q.cookie))
  {
    var s, t := After(events), DoAsk(After(events), slot, name, now, sends).0;
    var queries := Pruned(s.table[slot], now);
    PrunedKeepsFresh(s.table[slot], now);
    var i := FindName(queries, name, 0);
    var q := t.table[slot][i];
    assert q in t.table[slot];
    if i < |queries| {
      assert queries[i] in queries;
      assert IsAskedAgain(s, slot, name, now, queries[i]);
    } else {
      forall p ensures !IsAskedAgain(s, slot, name, now, p) {
        assert IsAskedAgain(s, slot, name, now, p) ==> p in queries;
      }
      forall p | p in s.table[slot] && now - p.sentAt < 10.0 ensures p.cookie != q.cookie {
        assert p in queries;
      }
    }
  }

  /** A query that cannot be sent has used up its cookie all the same. */
  lemma CookieIsUsedSentOrNot(s: State, slot: int, name: string, now: real)
    requires Shaped(s)
    ensures DoAsk(s, slot, name, now, false).0.counter == DoAsk(s, slot, name, now, true).0.counter
  {
  }
}
