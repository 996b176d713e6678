/** Which players a target token means: selection, the rules that narrow it, and why it can fail. */
module Targeting {
  import opened Slots

  datatype Result<+T, +E> = Ok(value: T) | Err(error: E)

  datatype Team = NoTeam | Spectators | Terrorists | CounterTerrorists

  datatype Rules = Rules(allowMultiple: bool, allowDead: bool, allowBots: bool)

  datatype TargetError = NoMatch | Immune | Ambiguous | MultiNotAllowed | DeadNotAllowed | BotNotAllowed

  datatype Failure = Failure(error: TargetError, count: int)

  datatype Query =
    | All | Me | NotMe | OfTeam(team: Team) | Dead | Alive | Bots | Humans
    | Random | RandomTeam(team: Team) | AtSlot(slot: int) | WithSteamId(steamId: int) | Named(needle: string)

  datatype PlayerView = PlayerView(slot: int, steamId: int, name: string, team: Team,
                                   alive: bool, bot: bool, targetable: bool)

  function ToLower(s: string): string {
    if s == "" then "" else
    [if 'A' <= s[0] <= 'Z' then s[0] - 'A' + 'a' else s[0]] + ToLower(s[1..])
  }

  predicate Contains(s: string, needle: string) {
    exists i | 0 <= i <= |s| :: needle <= s[i..]
  }

  // ---- Who a query means ----

  predicate Exactly(p: PlayerView, needle: string) {
    ToLower(p.name) == needle
  }

  predicate Begins(p: PlayerView, needle: string) {
    needle <= ToLower(p.name)
  }

  predicate Includes(p: PlayerView, needle: string) {
    Contains(ToLower(p.name), needle)
  }

  /** A name means the players it is, or else those it begins, or else those it is part of. */
  predicate NameMeans(players: seq<PlayerView>, needle: string, p: PlayerView) {
    if exists q | q in players :: Exactly(q, needle) then Exactly(p, needle)
    else if exists q | q in players :: Begins(q, needle) then Begins(p, needle)
    else Includes(p, needle)
  }

  predicate Means(players: seq<PlayerView>, query: Query, callerSlot: int, p: PlayerView) {
    match query
    case All => true
    case Random => true
    case Me => p.slot == callerSlot
    case NotMe => p.slot != callerSlot
    case OfTeam(team) => p.team == team
    case RandomTeam(team) => p.team == team
    case Dead => !p.alive
    case Alive => p.alive
    case Bots => p.bot
    case Humans => !p.bot
    case AtSlot(slot) => p.slot == slot
    case WithSteamId(steamId) => p.steamId == steamId
    case Named(needle) => NameMeans(players, needle, p)
  }

  predicate AllowedBot(rules: Rules, p: PlayerView) {
    rules.allowBots || !p.bot
  }

  predicate AllowedLife(rules: Rules, p: PlayerView) {
    rules.allowDead || p.alive
  }

  predicate IsTargetable(p: PlayerView) {
    p.targetable
  }

  predicate IsHuman(p: PlayerView) {
    !p.bot
  }

  predicate IsAlive(p: PlayerView) {
    p.alive
  }

  function Meaning(players: seq<PlayerView>, query: Query, callerSlot: int): PlayerView -> bool {
    p => Means(players, query, callerSlot, p)
  }

  function NameMeaning(players: seq<PlayerView>, needle: string): PlayerView -> bool {
    p => NameMeans(players, needle, p)
  }

  function BotRule(rules: Rules): PlayerView -> bool {
    p => AllowedBot(rules, p)
  }

  function LifeRule(rules: Rules): PlayerView -> bool {
    p => AllowedLife(rules, p)
  }

  // ---- Filtering ----

  function Select(players: seq<PlayerView>, keep: PlayerView -> bool): (r: seq<PlayerView>)
    ensures forall p :: p in r <==> p in players && keep(p)
  {
    if players == [] then [] else
    var last := players[|players| - 1];
    Select(players[..|players| - 1], keep) + if keep(last) then [last] else []
  }

  lemma {:induction false} SelectAgrees(players: seq<PlayerView>, f: PlayerView -> bool, g: PlayerView -> bool)
    requires forall p | p in players :: f(p) == g(p)
    ensures Select(players, f) == Select(players, g)
  {
    if players != [] {
      assert players[|players| - 1] in players;
      forall p | p in players[..|players| - 1] ensures f(p) == g(p) {
        assert p in players;
      }
      SelectAgrees(players[..|players| - 1], f, g);
    }
  }

  lemma {:induction false} SelectTwice(players: seq<PlayerView>, f: PlayerView -> bool, g: PlayerView -> bool)
    ensures Select(Select(players, f), g) == Select(players, p => f(p) && g(p))
  {
    if players != [] {
      var front, last := players[..|players| - 1], players[|players| - 1];
      SelectTwice(front, f, g);
      if f(last) {
        assert (Select(front, f) + [last])[..|Select(front, f)|] == Select(front, f);
      } else {
        assert Select(front, f) + [] == Select(front, f);
      }
    }
  }

  method Collect(players: seq<PlayerView>, keep: PlayerView -> bool) returns (r: seq<PlayerView>)
    ensures r == Select(players, keep)
  {
    r := [];
    for i := 0 to |players|
      invariant r == Select(players[..i], keep)
    {
      assert players[..i + 1][..i] == players[..i];
      if keep(players[i]) {
        r := r + [players[i]];
      }
    }
    assert players[..|players|] == players;
  }

  /** Everyone a query means, in roster order. */
  function Meant(players: seq<PlayerView>, query: Query, callerSlot: int): (r: seq<PlayerView>)
    ensures forall p :: p in r <==> p in players && Means(players, query, callerSlot, p)
  {
    Select(players, Meaning(players, query, callerSlot))
  }

  method Candidates(players: seq<PlayerView>, query: Query, callerSlot: int) returns (r: seq<PlayerView>)
    ensures r == Meant(players, query, callerSlot)
  {
    if query.Named? {
      r := NameTiers(players, query.needle);
      SelectAgrees(players, NameMeaning(players, query.needle), Meaning(players, query, callerSlot));
    } else {
      r := Collect(players, Meaning(players, query, callerSlot));
    }
  }

  /** Exact names, then prefixes, then substrings: the first tier that catches anyone. */
  method NameTiers(players: seq<PlayerView>, needle: string) returns (r: seq<PlayerView>)
    ensures r == Select(players, NameMeaning(players, needle))
  {
    r := Collect(players, p => Exactly(p, needle));
    if r != [] {
      assert r[0] in players && Exactly(r[0], needle);
      SelectAgrees(players, p => Exactly(p, needle), NameMeaning(players, needle));
      return;
    }
    assert forall q | q in players :: Exactly(q, needle) ==> q in r;
    r := Collect(players, p => Begins(p, needle));
    if r != [] {
      assert r[0] in players && Begins(r[0], needle);
      SelectAgrees(players, p => Begins(p, needle), NameMeaning(players, needle));
      return;
    }
    assert forall q | q in players :: Begins(q, needle) ==> q in r;
    r := Collect(players, p => Includes(p, needle));
    SelectAgrees(players, p => Includes(p, needle), NameMeaning(players, needle));
  }

  predicate IsRandom(query: Query) {
    query.Random? || query.RandomTeam?
  }

  function SlotsOf(players: seq<PlayerView>): (r: seq<int>)
    ensures |r| == |players| && forall i | 0 <= i < |players| :: r[i] == players[i].slot
  {
    seq(|players|, i requires 0 <= i < |players| => players[i].slot)
  }

  /** The stages of FilterPlayers, from the players meant to the slots returned. */
  function Narrowed(meant: seq<PlayerView>, query: Query, rules: Rules, random: Option<nat -> nat>):
    Result<seq<int>, Failure>
  {
    if meant == [] then Err(Failure(NoMatch, 0)) else
    var noBots := Select(meant, BotRule(rules));
    if noBots == [] then Err(Failure(BotNotAllowed, 0)) else
    var alive := Select(noBots, LifeRule(rules));
    if alive == [] then Err(Failure(DeadNotAllowed, 0)) else
    var reachable := Select(alive, IsTargetable);
    if reachable == [] then Err(Failure(Immune, 0)) else Chosen(reachable, query, rules, random)
  }

  /** From the players left, at least one, to the slots returned. */
  function Chosen(reachable: seq<PlayerView>, query: Query, rules: Rules, random: Option<nat -> nat>):
    Result<seq<int>, Failure>
    requires reachable != []
  {
    if IsRandom(query) then
      Ok([reachable[if random.Some? then random.value(|reachable|) % |reachable| else 0].slot])
    else if |reachable| > 1 && !rules.allowMultiple then
      Err(Failure(if query.Named? then Ambiguous else MultiNotAllowed, |reachable|))
    else Ok(SlotsOf(reachable))
  }

  function Filtered(players: seq<PlayerView>, query: Query, rules: Rules, callerSlot: int,
                    random: Option<nat -> nat>): Result<seq<int>, Failure>
  {
    Narrowed(Meant(players, query, callerSlot), query, rules, random)
  }

  method DropBots(meant: seq<PlayerView>, rules: Rules) returns (r: seq<PlayerView>)
    ensures r == Select(meant, BotRule(rules))
  {
    if !rules.allowBots {
      r := Collect(meant, IsHuman);
      SelectAgrees(meant, IsHuman, BotRule(rules));
    } else {
      r := meant;
      SelectAll(meant, BotRule(rules));
    }
  }

  method DropDead(noBots: seq<PlayerView>, rules: Rules) returns (r: seq<PlayerView>)
    ensures r == Select(noBots, LifeRule(rules))
  {
    if !rules.allowDead {
      r := Collect(noBots, IsAlive);
      SelectAgrees(noBots, IsAlive, LifeRule(rules));
    } else {
      r := noBots;
      SelectAll(noBots, LifeRule(rules));
    }
  }

  method FilterPlayers(players: seq<PlayerView>, query: Query, rules: Rules, callerSlot: int,
                       random: Option<nat -> nat>) returns (r: Result<seq<int>, Failure>)
    ensures r == Filtered(players, query, rules, callerSlot, random)
  {
    var candidates := Candidates(players, query, callerSlot);
    if candidates == [] {
      return Err(Failure(NoMatch, 0));
    }
    candidates := DropBots(candidates, rules);
    if candidates == [] {
      return Err(Failure(BotNotAllowed, 0));
    }
    candidates := DropDead(candidates, rules);
    if candidates == [] {
      return Err(Failure(DeadNotAllowed, 0));
    }
    candidates := Collect(candidates, IsTargetable);
    if candidates == [] {
      return Err(Failure(Immune, 0));
    }
    r := Choose(candidates, query, rules, random);
  }

  method Choose(reachable: seq<PlayerView>, query: Query, rules: Rules, random: Option<nat -> nat>)
    returns (r: Result<seq<int>, Failure>)
    requires reachable != []
    ensures r == Chosen(reachable, query, rules, random)
  {
    var candidates := reachable;
    if query.Random? || query.RandomTeam? {
      var pick := if random.Some? then random.value(|candidates|) % |candidates| else 0;
      candidates := [candidates[pick]];
      assert SlotsOf(candidates) == [candidates[0].slot];
    }
    if |candidates| > 1 && !rules.allowMultiple {
      return Err(Failure(if query.Named? then Ambiguous else MultiNotAllowed, |candidates|));
    }
    var slots := [];
    for i := 0 to |candidates|
      invariant slots == SlotsOf(candidates)[..i]
    {
      slots := slots + [candidates[i].slot];
    }
    assert SlotsOf(candidates)[..|candidates|] == SlotsOf(candidates);
    r := Ok(slots);
  }

  lemma {:induction false} SelectAll(players: seq<PlayerView>, keep: PlayerView -> bool)
    requires forall p | p in players :: keep(p)
    ensures Select(players, keep) == players
  {
    if players != [] {
      var front, last := players[..|players| - 1], players[|players| - 1];
      assert last in players;
      forall p | p in front ensures keep(p) {
        assert p in players;
      }
      SelectAll(front, keep);
      assert Select(players, keep) == front + [last] == players;
    }
  }

  // ---- What a resolution promises ----

  /** Meant, of a kind the command permits, and not protected by the policy. */
  predicate Eligible(players: seq<PlayerView>, query: Query, rules: Rules, callerSlot: int, p: PlayerView) {
    Means(players, query, callerSlot, p) && AllowedBot(rules, p) && AllowedLife(rules, p) && p.targetable
  }

  function EligibleFor(players: seq<PlayerView>, query: Query, rules: Rules, callerSlot: int): PlayerView -> bool {
    p => Eligible(players, query, rules, callerSlot, p)
  }

  function Eligibles(players: seq<PlayerView>, query: Query, rules: Rules, callerSlot: int): (r: seq<PlayerView>)
    ensures forall p :: p in r <==> p in players && Eligible(players, query, rules, callerSlot, p)
  {
    Select(players, EligibleFor(players, query, rules, callerSlot))
  }

  lemma StagesAreEligibility(players: seq<PlayerView>, query: Query, rules: Rules, callerSlot: int)
    ensures var noBots := Select(Meant(players, query, callerSlot), BotRule(rules));
            Select(Select(noBots, LifeRule(rules)), IsTargetable)
            == Eligibles(players, query, rules, callerSlot)
  {
    var means := Meaning(players, query, callerSlot);
    var bots := BotRule(rules);
    var life := LifeRule(rules);
    var reachable := IsTargetable;
    SelectTwice(players, means, bots);
    var f1 := p => means(p) && bots(p);
    SelectTwice(players, f1, life);
    var f2 := p => f1(p) && life(p);
    SelectTwice(players, f2, reachable);
    SelectAgrees(players, p => f2(p) && reachable(p), EligibleFor(players, query, rules, callerSlot));
  }

  /** A resolution that succeeds names someone, each of them eligible; a single-target command gets exactly one;
      and unless one is drawn at random, it names every eligible player, in roster order. */
  lemma SuccessNamesTheEligible(players: seq<PlayerView>, query: Query, rules: Rules, callerSlot: int,
                                random: Option<nat -> nat>)
    requires Filtered(players, query, rules, callerSlot, random).Ok?
    ensures var slots := Filtered(players, query, rules, callerSlot, random).value;
            && slots != []
            && (IsRandom(query) || !rules.allowMultiple ==> |slots| == 1)
            && (!IsRandom(query) ==> slots == SlotsOf(Eligibles(players, query, rules, callerSlot)))
            && forall slot | slot in slots ::
                 exists p | p in players :: p.slot == slot && Eligible(players, query, rules, callerSlot, p)
  {
    StagesAreEligibility(players, query, rules, callerSlot);
    var eligibles := Eligibles(players, query, rules, callerSlot);
    var slots := Filtered(players, query, rules, callerSlot, random).value;
    forall slot | slot in slots
      ensures exists p | p in players :: p.slot == slot && Eligible(players, query, rules, callerSlot, p)
    {
      var i :| 0 <= i < |eligibles| && eligibles[i].slot == slot;
      assert eligibles[i] in players;
    }
  }

  // The stages, in terms of the players alone.

  predicate AnyMeant(players: seq<PlayerView>, query: Query, callerSlot: int) {
    exists p | p in players :: Means(players, query, callerSlot, p)
  }

  predicate AnyAllowedBot(players: seq<PlayerView>, query: Query, rules: Rules, callerSlot: int) {
    exists p | p in players :: Means(players, query, callerSlot, p) && AllowedBot(rules, p)
  }

  predicate AnyAllowed(players: seq<PlayerView>, query: Query, rules: Rules, callerSlot: int) {
    exists p | p in players :: Means(players, query, callerSlot, p) && AllowedBot(rules, p) && AllowedLife(rules, p)
  }

  lemma MeantWhen(players: seq<PlayerView>, query: Query, callerSlot: int)
    ensures Meant(players, query, callerSlot) != [] <==> AnyMeant(players, query, callerSlot)
  {
    SelectsSome(players, Meaning(players, query, callerSlot));
  }

  lemma BotsLeaveSomeWhen(players: seq<PlayerView>, query: Query, rules: Rules, callerSlot: int)
    ensures Select(Meant(players, query, callerSlot), BotRule(rules)) != []
        <==> AnyAllowedBot(players, query, rules, callerSlot)
  {
    var both := p => Means(players, query, callerSlot, p) && AllowedBot(rules, p);
    SelectTwice(players, Meaning(players, query, callerSlot), BotRule(rules));
    SelectAgrees(players, p => Meaning(players, query, callerSlot)(p) && BotRule(rules)(p), both);
    SelectsSome(players, both);
  }

  lemma DeadLeaveSomeWhen(players: seq<PlayerView>, query: Query, rules: Rules, callerSlot: int)
    ensures Select(Select(Meant(players, query, callerSlot), BotRule(rules)), LifeRule(rules)) != []
        <==> AnyAllowed(players, query, rules, callerSlot)
  {
    var both := p => Meaning(players, query, callerSlot)(p) && BotRule(rules)(p);
    var all := p => Means(players, query, callerSlot, p) && AllowedBot(rules, p) && AllowedLife(rules, p);
    SelectTwice(players, Meaning(players, query, callerSlot), BotRule(rules));
    SelectTwice(players, both, LifeRule(rules));
    SelectAgrees(players, p => both(p) && LifeRule(rules)(p), all);
    SelectsSome(players, all);
  }

  lemma SelectsSome(players: seq<PlayerView>, keep: PlayerView -> bool)
    ensures Select(players, keep) != [] <==> exists p | p in players :: keep(p)
  {
    var r := Select(players, keep);
    if r != [] {
      assert r[0] in r;
    }
  }

  /** Exactly why a resolution fails: the first stage that leaves no one, or too many for a single target. */
  lemma FailureSaysWhy(players: seq<PlayerView>, query: Query, rules: Rules, callerSlot: int,
                       random: Option<nat -> nat>, failure: Failure)
    ensures var eligibles := |Eligibles(players, query, rules, callerSlot)|;
            Filtered(players, query, rules, callerSlot, random) == Err(failure) <==>
              match failure
              case Failure(NoMatch, count) => count == 0 && !AnyMeant(players, query, callerSlot)
              case Failure(BotNotAllowed, count) =>
                count == 0 && AnyMeant(players, query, callerSlot) && !AnyAllowedBot(players, query, rules, callerSlot)
              case Failure(DeadNotAllowed, count) =>
                && count == 0 && AnyAllowedBot(players, query, rules, callerSlot)
                && !AnyAllowed(players, query, rules, callerSlot)
              case Failure(Immune, count) =>
                count == 0 && AnyAllowed(players, query, rules, callerSlot) && eligibles == 0
              case Failure(Ambiguous, count) =>
                count == eligibles > 1 && query.Named? && !rules.allowMultiple
              case Failure(MultiNotAllowed, count) =>
                count == eligibles > 1 && !query.Named? && !IsRandom(query) && !rules.allowMultiple
  {
    MeantWhen(players, query, callerSlot);
    BotsLeaveSomeWhen(players, query, rules, callerSlot);
    DeadLeaveSomeWhen(players, query, rules, callerSlot);
    StagesAreEligibility(players, query, rules, callerSlot);
    NarrowedFails(Meant(players, query, callerSlot), query, rules, random, failure);
  }

  lemma NarrowedFails(meant: seq<PlayerView>, query: Query, rules: Rules, random: Option<nat -> nat>, failure: Failure)
    ensures var noBots := Select(meant, BotRule(rules));
            var alive := Select(noBots, LifeRule(rules));
            var reachable := |Select(alive, IsTargetable)|;
            Narrowed(meant, query, rules, random) == Err(failure) <==>
              match failure
              case Failure(NoMatch, count) => count == 0 && meant == []
              case Failure(BotNotAllowed, count) => count == 0 && meant != [] && noBots == []
              case Failure(DeadNotAllowed, count) => count == 0 && noBots != [] && alive == []
              case Failure(Immune, count) => count == 0 && alive != [] && reachable == 0
              case Failure(Ambiguous, count) => count == reachable > 1 && query.Named? && !rules.allowMultiple
              case Failure(MultiNotAllowed, count) =>
                count == reachable > 1 && !query.Named? && !IsRandom(query) && !rules.allowMultiple
  {
  }

  // ---- Who is named, in the players' own fields ----

  lemma {:induction false} LowerByCharacter(s: string)
    ensures |ToLower(s)| == |s|
    ensures forall i | 0 <= i < |s| :: ToLower(s)[i] as int == s[i] as int + if 'A' <= s[i] <= 'Z' then 32 else 0
  {
    if s != "" {
      LowerByCharacter(s[1..]);
      forall i | 0 <= i < |s|
        ensures ToLower(s)[i] as int == s[i] as int + if 'A' <= s[i] <= 'Z' then 32 else 0
      {
        assert i > 0 ==> s[1..][i - 1] == s[i] && ToLower(s)[i] == ToLower(s[1..])[i - 1];
      }
    }
  }

  /** The caller may act on the player, and the command takes bots and the dead where it is one. */
  predicate MayName(rules: Rules, p: PlayerView) {
    p.targetable && (!p.bot || rules.allowBots) && (p.alive || rules.allowDead)
  }

  /** The resolution succeeds and the slot is one of those returned. */
  predicate Names(players: seq<PlayerView>, query: Query, rules: Rules, callerSlot: int, random: Option<nat -> nat>,
                  slot: int)
  {
    var r := Filtered(players, query, rules, callerSlot, random);
    r.Ok? && slot in r.value
  }

  predicate SomeoneAt(players: seq<PlayerView>, slot: int) {
    exists p | p in players :: p.slot == slot
  }

  lemma SlotsAreTheirs(players: seq<PlayerView>, slot: int)
    ensures slot in SlotsOf(players) <==> SomeoneAt(players, slot)
  {
    if i :| 0 <= i < |players| && SlotsOf(players)[i] == slot {
      assert players[i] in players;
    }
    if p :| p in players && p.slot == slot {
      var i :| 0 <= i < |players| && players[i] == p;
      assert SlotsOf(players)[i] == slot;
    }
  }

  lemma NamesWhenEligible(players: seq<PlayerView>, query: Query, rules: Rules, callerSlot: int,
                          random: Option<nat -> nat>, slot: int)
    requires rules.allowMultiple && !IsRandom(query)
    ensures Names(players, query, rules, callerSlot, random, slot)
       <==> SomeoneAt(Eligibles(players, query, rules, callerSlot), slot)
  {
    StagesSucceed(players, query, rules, callerSlot, random);
    SlotsAreTheirs(Eligibles(players, query, rules, callerSlot), slot);
  }

  /** With many allowed and nothing drawn, a resolution fails only for want of anyone. */
  lemma StagesSucceed(players: seq<PlayerView>, query: Query, rules: Rules, callerSlot: int,
                      random: Option<nat -> nat>)
    requires rules.allowMultiple && !IsRandom(query)
    ensures var eligibles := Eligibles(players, query, rules, callerSlot);
            var r := Filtered(players, query, rules, callerSlot, random);
            if eligibles == [] then r.Err? else r == Ok(SlotsOf(eligibles))
  {
    StagesAreEligibility(players, query, rules, callerSlot);
  }

  /** How well a name answers to the needle, in lower case: it is it, begins with it, has it in it, or neither. */
  function Rank(name: string, needle: string): nat {
    var lower := ToLower(name);
    if lower == needle then 0
    else if |needle| <= |lower| && lower[..|needle|] == needle then 1
    else if IsPartOf(needle, lower) then 2
    else 3
  }

  lemma NameMeansBestRank(players: seq<PlayerView>, needle: string, p: PlayerView)
    requires p in players
    ensures NameMeans(players, needle, p)
       <==> Rank(p.name, needle) < 3 && forall q | q in players :: Rank(p.name, needle) <= Rank(q.name, needle)
  {
    forall q | q in players
      ensures Exactly(q, needle) <==> Rank(q.name, needle) == 0
      ensures Begins(q, needle) <==> Rank(q.name, needle) <= 1
      ensures Includes(q, needle) <==> Rank(q.name, needle) <= 2
    {
      TiersAreRanks(q, needle);
    }
  }

  lemma TiersAreRanks(q: PlayerView, needle: string)
    ensures Exactly(q, needle) <==> Rank(q.name, needle) == 0
    ensures Begins(q, needle) <==> Rank(q.name, needle) <= 1
    ensures Includes(q, needle) <==> Rank(q.name, needle) <= 2
  {
    var lower := ToLower(q.name);
    PartIsContained(lower, needle);
    assert lower[0..] == lower;
    assert needle <= lower <==> |needle| <= |lower| && lower[..|needle|] == needle;
  }

  /** What each kind of query asks of a player. */
  ghost predicate IsMeantBy(players: seq<PlayerView>, query: Query, callerSlot: int, p: PlayerView) {
    && (query.Me? ==> p.slot == callerSlot)
    && (query.NotMe? ==> p.slot != callerSlot)
    && (query.OfTeam? || query.RandomTeam? ==> p.team == query.team)
    && (query.Dead? ==> !p.alive)
    && (query.Alive? ==> p.alive)
    && (query.Bots? ==> p.bot)
    && (query.Humans? ==> !p.bot)
    && (query.AtSlot? ==> p.slot == query.slot)
    && (query.WithSteamId? ==> p.steamId == query.steamId)
    && (query.Named? ==>
          && Rank(p.name, query.needle) < 3
          && forall q | q in players :: Rank(p.name, query.needle) <= Rank(q.name, query.needle))
  }

  lemma MeansByField(players: seq<PlayerView>, query: Query, callerSlot: int, p: PlayerView)
    requires p in players
    ensures Means(players, query, callerSlot, p) <==> IsMeantBy(players, query, callerSlot, p)
  {
    if query.Named? {
      NameMeansBestRank(players, query.needle, p);
    }
  }

  lemma EligibleByField(players: seq<PlayerView>, query: Query, rules: Rules, callerSlot: int, p: PlayerView)
    ensures p in Eligibles(players, query, rules, callerSlot)
       <==> p in players && MayName(rules, p) && IsMeantBy(players, query, callerSlot, p)
  {
    if p in players {
      MeansByField(players, query, callerSlot, p);
    }
  }

  /** The player is at the slot, may be named, and is meant. */
  ghost predicate IsNamed(players: seq<PlayerView>, query: Query, rules: Rules, callerSlot: int, slot: int,
                          p: PlayerView)
  {
    p in players && p.slot == slot && MayName(rules, p) && IsMeantBy(players, query, callerSlot, p)
  }

  /** Exactly who a query names on a command that takes several, in the players' own fields. A name names those it
      answers to best. */
  lemma {:induction false} QueryNamesByField(players: seq<PlayerView>, query: Query, rules: Rules, callerSlot: int,
                                             random: Option<nat -> nat>, slot: int)
    requires rules.allowMultiple && !query.Random? && !query.RandomTeam?
    ensures Names(players, query, rules, callerSlot, random, slot)
       <==> exists p :: IsNamed(players, query, rules, callerSlot, slot, p)
  {
    NamesWhenEligible(players, query, rules, callerSlot, random, slot);
    var eligibles := Eligibles(players, query, rules, callerSlot);
    if p :| p in eligibles && p.slot == slot {
      EligibleByField(players, query, rules, callerSlot, p);
      assert IsNamed(players, query, rules, callerSlot, slot, p);
    }
    if p :| IsNamed(players, query, rules, callerSlot, slot, p) {
      EligibleByField(players, query, rules, callerSlot, p);
      assert SomeoneAt(eligibles, slot);
    }
  }

  predicate IsPartOf(needle: string, text: string) {
    exists i, j | 0 <= i <= j <= |text| :: text[i..j] == needle
  }

  lemma PartIsContained(text: string, needle: string)
    ensures Contains(text, needle) <==> IsPartOf(needle, text)
  {
    if i :| 0 <= i <= |text| && needle <= text[i..] {
      assert text[i..i + |needle|] == text[i..][..|needle|] == needle;
    }
    if i, j :| 0 <= i <= j <= |text| && text[i..j] == needle {
      assert text[i..][..j - i] == text[i..j];
      assert needle <= text[i..];
    }
  }

  function MayBeDrawn(rules: Rules, query: Query): PlayerView -> bool {
    (p: PlayerView) => MayName(rules, p) && (query.RandomTeam? ==> p.team == query.team)
  }

  /** A random query returns the one drawn by its index among those it may name, in roster order; the first, when
      there is no source of chance. */
  lemma {:induction false} RandomDrawsByIndex(players: seq<PlayerView>, query: Query, rules: Rules, callerSlot: int,
                                              random: Option<nat -> nat>)
    requires query.Random? || query.RandomTeam?
    ensures var all := Select(players, MayBeDrawn(rules, query));
            var r := Filtered(players, query, rules, callerSlot, random);
            if all == [] then r.Err?
            else r == Ok([all[if random.Some? then random.value(|all|) % |all| else 0].slot])
  {
    DrawnByIndex(players, query, rules, callerSlot, random, MayBeDrawn(rules, query));
  }

  lemma DrawnByIndex(players: seq<PlayerView>, query: Query, rules: Rules, callerSlot: int,
                     random: Option<nat -> nat>, says: PlayerView -> bool)
    requires IsRandom(query)
    requires forall p | p in players :: says(p) == Eligible(players, query, rules, callerSlot, p)
    ensures var all := Select(players, says);
            var r := Filtered(players, query, rules, callerSlot, random);
            if all == [] then r.Err?
            else r == Ok([all[if random.Some? then random.value(|all|) % |all| else 0].slot])
  {
    StagesAreEligibility(players, query, rules, callerSlot);
    SelectAgrees(players, says, EligibleFor(players, query, rules, callerSlot));
  }

  predicate SlotsAscend(players: seq<PlayerView>) {
    forall i, j | 0 <= i < j < |players| :: players[i].slot < players[j].slot
  }

  lemma {:induction false} SelectKeepsOrder(players: seq<PlayerView>, keep: PlayerView -> bool)
    requires SlotsAscend(players)
    ensures SlotsAscend(Select(players, keep))
  {
    if players != [] {
      var front, last := players[..|players| - 1], players[|players| - 1];
      SelectKeepsOrder(front, keep);
      forall i | 0 <= i < |Select(front, keep)| ensures Select(front, keep)[i].slot < last.slot {
        assert Select(front, keep)[i] in front;
      }
    }
  }

  /** From a roster in slot order, the slots come back in slot order. */
  lemma {:induction false} SlotsComeInOrder(players: seq<PlayerView>, query: Query, rules: Rules, callerSlot: int,
                                            random: Option<nat -> nat>)
    requires SlotsAscend(players) && Filtered(players, query, rules, callerSlot, random).Ok?
    ensures var slots := Filtered(players, query, rules, callerSlot, random).value;
            forall i, j | 0 <= i < j < |slots| :: slots[i] < slots[j]
  {
    SuccessNamesTheEligible(players, query, rules, callerSlot, random);
    SelectKeepsOrder(players, EligibleFor(players, query, rules, callerSlot));
  }
}
