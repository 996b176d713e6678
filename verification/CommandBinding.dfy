/** From the tokens of a command line to the arguments its handler unpacks. */
module CommandBinding {
  import opened Slots
  import opened Decimals
  import opened Targeting

  datatype ArgKind = Target | Targets | Duration | SteamId | PlayerOrSteamId | Int | U64 | Word | Rest

  datatype ArgDesc = ArgDesc(kind: ArgKind, optional: bool)

  /** Players are named by their slots. Empty is an optional argument the caller left out. */
  datatype BoundArg =
    | Empty
    | BoundTarget(player: int)
    | BoundTargets(players: seq<int>)
    | BoundDuration(seconds: int)
    | BoundSteamId(id: int)
    | BoundPlayerOrSteamId(online: Option<int>, steamId: int)
    | BoundInt(value: int)
    | BoundU64(number: int)
    | BoundWord(word: string)
    | BoundRest(text: string)

  datatype ArgError = ArgError(key: string, token: string, count: int)

  /** The connected players as a caller sees them, and the parsers that are not part of this model. */
  datatype Binder = Binder(players: seq<PlayerView>, callerSlot: int, parseTarget: string -> Query,
                           random: Option<nat -> nat>, parseDuration: string -> int)

  // ---- The compile-time checks ----

  /** Nothing required comes after something optional. */
  predicate OptionalsLast(args: seq<ArgDesc>) {
    forall i, j | 0 <= i < j < |args| && args[i].optional :: args[j].optional
  }

  predicate RestOnlyLast(args: seq<ArgDesc>) {
    forall i | 0 <= i < |args| - 1 :: !args[i].kind.Rest?
  }

  method OptionalsTrail(args: seq<ArgDesc>) returns (ok: bool)
    ensures ok <==> OptionalsLast(args)
  {
    var seen := false;
    for i := 0 to |args|
      invariant seen <==> exists k | 0 <= k < i :: args[k].optional
      invariant OptionalsLast(args[..i])
    {
      if args[i].optional {
        seen := true;
      } else if seen {
        return false;
      }
    }
    assert args[..|args|] == args;
    ok := true;
  }

  method RestIsLast(args: seq<ArgDesc>) returns (ok: bool)
    ensures ok <==> RestOnlyLast(args)
  {
    var i := 0;
    while i + 1 < |args|
      invariant 0 <= i && (i == 0 || i < |args|) && forall k | 0 <= k < i :: !args[k].kind.Rest?
    {
      if args[i].kind == Rest {
        return false;
      }
      i := i + 1;
    }
    ok := true;
  }

  // ---- Numbers ----

  const INT64_MAX := 0x7FFFFFFFFFFFFFFF
  const UINT64_MAX := 0xFFFFFFFFFFFFFFFF
  const INT_MAX := 0x7FFFFFFF

  function ParseInt64(s: string): (r: Option<int>)
    ensures r.Some? ==> -INT64_MAX - 1 <= r.value <= INT64_MAX
  {
    if IsNumeric(s) && Value(s) <= INT64_MAX then Some(Value(s))
    else if |s| > 1 && s[0] == '-' && IsNumeric(s[1..]) && Value(s[1..]) <= INT64_MAX + 1 then Some(0 - Value(s[1..]))
    else None
  }

  function ParseUInt64(s: string): (r: Option<int>)
    ensures r.Some? ==> 0 <= r.value <= UINT64_MAX
  {
    if IsNumeric(s) && Value(s) <= UINT64_MAX then Some(Value(s)) else None
  }

  // ---- One argument ----

  lemma ResolvesToPlayers(b: Binder, token: string, rules: Rules)
    ensures var r := Filtered(b.players, b.parseTarget(token), rules, b.callerSlot, b.random);
            r.Ok? ==>
              && r.value != [] && (!rules.allowMultiple ==> |r.value| == 1)
              && forall slot | slot in r.value :: MayActOn(b, token, slot)
  {
    if Filtered(b.players, b.parseTarget(token), rules, b.callerSlot, b.random).Ok? {
      SuccessNamesTheEligible(b.players, b.parseTarget(token), rules, b.callerSlot, b.random);
    }
  }

  function Resolve(b: Binder, token: string, multiple: bool): (r: Result<seq<int>, Failure>)
    ensures r.Ok? ==> r.value != [] && (!multiple ==> |r.value| == 1)
    ensures r.Ok? ==> forall slot | slot in r.value :: MayActOn(b, token, slot)
  {
    if token == "" then Err(Failure(NoMatch, 0)) else
    var rules := Rules(multiple, true, true);
    var r := Filtered(b.players, b.parseTarget(token), rules, b.callerSlot, b.random);
    ResolvesToPlayers(b, token, rules);
    r
  }

  /** The slot holds a connected player the token means and the policy does not protect from the caller. */
  ghost predicate MayActOn(b: Binder, token: string, slot: int) {
    exists p | p in b.players ::
      p.slot == slot && Means(b.players, b.parseTarget(token), b.callerSlot, p) && p.targetable
  }

  function TargetKey(failure: Failure, token: string): ArgError {
    match failure.error
    case Immune => ArgError("target.immune", token, 0)
    case Ambiguous => ArgError("target.ambiguous", token, failure.count)
    case MultiNotAllowed => ArgError("target.ambiguous", token, failure.count)
    case DeadNotAllowed => ArgError("target.dead", token, 0)
    case BotNotAllowed => ArgError("target.bot", token, 0)
    case NoMatch => ArgError("target.noMatch", token, 0)
  }

  function SteamIdOf(players: seq<PlayerView>, slot: int): int {
    if players == [] then 0
    else if players[0].slot == slot then players[0].steamId
    else SteamIdOf(players[1..], slot)
  }

  function BindTarget(b: Binder, token: string): Result<BoundArg, ArgError> {
    var resolved := Resolve(b, token, false);
    if resolved.Err? then Err(TargetKey(resolved.error, token)) else Ok(BoundTarget(resolved.value[0]))
  }

  function BindTargets(b: Binder, token: string): Result<BoundArg, ArgError> {
    var resolved := Resolve(b, token, true);
    if resolved.Err? then Err(TargetKey(resolved.error, token)) else Ok(BoundTargets(resolved.value))
  }

  function BindPlayerOrSteamId(b: Binder, token: string): Result<BoundArg, ArgError> {
    var resolved := Resolve(b, token, false);
    if resolved.Ok? then
      Ok(BoundPlayerOrSteamId(Some(resolved.value[0]), SteamIdOf(b.players, resolved.value[0])))
    else if resolved.error.error == NoMatch && IsNumeric(token) && ParseInt64(token).Some? then
      Ok(BoundPlayerOrSteamId(None, ParseInt64(token).value))
    else Err(TargetKey(resolved.error, token))
  }

  /** A bare number is minutes, though the parser reads it as seconds. */
  function BindDuration(b: Binder, token: string): Result<BoundArg, ArgError> {
    var seconds := b.parseDuration(token);
    if seconds < 0 then Err(ArgError("cmd.badDuration", token, 0))
    else Ok(BoundDuration(if IsNumeric(token) then seconds * 60 else seconds))
  }

  function BindNumber(kind: ArgKind, token: string): Result<BoundArg, ArgError>
    requires kind.SteamId? || kind.Int? || kind.U64?
  {
    match kind
    case SteamId =>
      if ParseInt64(token).None? || !IsNumeric(token) then Err(ArgError("cmd.badSteamId", token, 0))
      else Ok(BoundSteamId(ParseInt64(token).value))
    case Int =>
      var value := ParseInt64(token);
      if value.None? || !(-INT_MAX - 1 <= value.value <= INT_MAX) then Err(ArgError("cmd.badNumber", token, 0))
      else Ok(BoundInt(value.value))
    case U64 =>
      if ParseUInt64(token).None? then Err(ArgError("cmd.badNumber", token, 0))
      else Ok(BoundU64(ParseUInt64(token).value))
  }

  function BindToken(b: Binder, kind: ArgKind, token: string): Result<BoundArg, ArgError>
    requires !kind.Rest?
  {
    match kind
    case Target => BindTarget(b, token)
    case Targets => BindTargets(b, token)
    case PlayerOrSteamId => BindPlayerOrSteamId(b, token)
    case Duration => BindDuration(b, token)
    case SteamId => BindNumber(kind, token)
    case Int => BindNumber(kind, token)
    case U64 => BindNumber(kind, token)
    case Word => Ok(BoundWord(token))
  }

  function Join(parts: seq<string>): string {
    if parts == [] then "" else if |parts| == 1 then parts[0] else parts[0] + " " + Join(parts[1..])
  }

  // ---- All arguments ----

  /** The tokens each argument takes: the next one, or for a Rest all that are left. */
  function Shares(args: seq<ArgDesc>, tokens: seq<string>): (shares: seq<seq<string>>)
    ensures |shares| == |args|
  {
    if args == [] then []
    else if tokens == [] then [[]] + Shares(args[1..], [])
    else if args[0].kind.Rest? then [tokens] + Shares(args[1..], [])
    else [[tokens[0]]] + Shares(args[1..], tokens[1..])
  }

  function BindShare(b: Binder, arg: ArgDesc, share: seq<string>): Result<BoundArg, ArgError> {
    if share == [] then Ok(Empty)
    else if arg.kind.Rest? then Ok(BoundRest(Join(share)))
    else BindToken(b, arg.kind, share[0])
  }

  /** Every share bound, or the error of the first that cannot be. */
  function BindShares(b: Binder, args: seq<ArgDesc>, shares: seq<seq<string>>): Result<seq<BoundArg>, ArgError>
    requires |shares| == |args|
  {
    if args == [] then Ok([]) else
    var first := BindShare(b, args[0], shares[0]);
    if first.Err? then Err(first.error) else Prepended([first.value], BindShares(b, args[1..], shares[1..]))
  }

  function Prepended(bound: seq<BoundArg>, r: Result<seq<BoundArg>, ArgError>): Result<seq<BoundArg>, ArgError> {
    if r.Err? then r else Ok(bound + r.value)
  }

  function Bound(b: Binder, args: seq<ArgDesc>, tokens: seq<string>): Result<seq<BoundArg>, ArgError> {
    BindShares(b, args, Shares(args, tokens))
  }

  method BindArgs(b: Binder, args: seq<ArgDesc>, tokens: seq<string>) returns (r: Result<seq<BoundArg>, ArgError>)
    ensures r == Bound(b, args, tokens)
  {
    var bound: seq<BoundArg>, i := [], 0;
    assert tokens[0..] == tokens && args[0..] == args;
    PrependedNothing(Bound(b, args, tokens));
    for k := 0 to |args|
      invariant 0 <= i <= |tokens|
      invariant Bound(b, args, tokens) == Prepended(bound, Bound(b, args[k..], tokens[i..]))
    {
      var arg := args[k];
      assert args[k..][0] == arg && args[k..][1..] == args[k + 1..];
      ghost var before := bound;
      if i >= |tokens| {
        bound := bound + [Empty];
      } else if arg.kind == Rest {
        bound := bound + [BoundRest(Join(tokens[i..]))];
        TakesRest(b, args[k..], tokens[i..]);
        i := |tokens|;
      } else {
        var one := BindToken(b, arg.kind, tokens[i]);
        TakesOne(b, args[k..], tokens[i..]);
        if one.Err? {
          return Err(one.error);
        }
        assert tokens[i..][1..] == tokens[i + 1..];
        bound := bound + [one.value];
        i := i + 1;
      }
      PrependedTwice(before, bound[|before|], Bound(b, args[k + 1..], tokens[i..]));
    }
    assert bound + [] == bound;
    r := Ok(bound);
  }

  lemma PrependedNothing(r: Result<seq<BoundArg>, ArgError>)
    ensures Prepended([], r) == r
  {
    if r.Ok? {
      assert [] + r.value == r.value;
    }
  }

  lemma PrependedTwice(before: seq<BoundArg>, one: BoundArg, r: Result<seq<BoundArg>, ArgError>)
    ensures Prepended(before, Prepended([one], r)) == Prepended(before + [one], r)
  {
    if r.Ok? {
      assert before + ([one] + r.value) == before + [one] + r.value;
    }
  }

  lemma TakesRest(b: Binder, args: seq<ArgDesc>, tokens: seq<string>)
    requires args != [] && tokens != [] && args[0].kind.Rest?
    ensures Bound(b, args, tokens) == Prepended([BoundRest(Join(tokens))], Bound(b, args[1..], []))
  {
    assert Shares(args, tokens)[1..] == Shares(args[1..], []);
  }

  lemma TakesOne(b: Binder, args: seq<ArgDesc>, tokens: seq<string>)
    requires args != [] && tokens != [] && !args[0].kind.Rest?
    ensures var one := BindToken(b, args[0].kind, tokens[0]);
            Bound(b, args, tokens)
            == if one.Err? then Err(one.error) else Prepended([one.value], Bound(b, args[1..], tokens[1..]))
  {
    assert Shares(args, tokens)[1..] == Shares(args[1..], tokens[1..]);
  }

  // ---- Dispatch ----

  function RequiredArgs(args: seq<ArgDesc>): nat {
    if args == [] then 0 else (if args[0].optional then 0 else 1) + RequiredArgs(args[1..])
  }

  predicate HasRest(args: seq<ArgDesc>) {
    exists i | 0 <= i < |args| :: args[i].kind.Rest?
  }

  datatype Reply =
    | Denied | TooManyArgs | Usage | BadArgument(error: ArgError) | NothingToRun | Invoked(bound: seq<BoundArg>)

  datatype Definition = Definition(args: seq<ArgDesc>, hasInvoke: bool)

  /** authorized is the policy's answer, and true for the console. */
  function Dispatched(def: Definition, authorized: bool, tokens: seq<string>, b: Binder): Reply {
    if !authorized then Denied
    else if !HasRest(def.args) && |tokens| > |def.args| then TooManyArgs
    else if |tokens| < RequiredArgs(def.args) then Usage
    else
      var bound := Bound(b, def.args, tokens);
      if bound.Err? then BadArgument(bound.error)
      else if !def.hasInvoke then NothingToRun
      else Invoked(bound.value)
  }

  method Dispatch(def: Definition, authorized: bool, tokens: seq<string>, b: Binder) returns (reply: Reply)
    ensures reply == Dispatched(def, authorized, tokens, b)
  {
    if !authorized {
      return Denied;
    }
    var hasRest, required := false, 0;
    assert def.args[0..] == def.args;
    for i := 0 to |def.args|
      invariant hasRest <==> HasRest(def.args[..i])
      invariant required + RequiredArgs(def.args[i..]) == RequiredArgs(def.args)
    {
      assert def.args[i..][1..] == def.args[i + 1..];
      if def.args[i].kind.Rest? {
        assert def.args[..i + 1][i].kind.Rest?;
      } else if HasRest(def.args[..i]) {
        var k :| 0 <= k < i && def.args[..i][k].kind.Rest?;
        assert def.args[..i + 1][k].kind.Rest?;
      }
      hasRest := hasRest || def.args[i].kind == Rest;
      required := required + if def.args[i].optional then 0 else 1;
    }
    assert def.args[..|def.args|] == def.args;
    if !hasRest && |tokens| > |def.args| {
      return TooManyArgs;
    }
    if |tokens| < required {
      return Usage;
    }
    var bound := BindArgs(b, def.args, tokens);
    if bound.Err? {
      return BadArgument(bound.error);
    }
    reply := if def.hasInvoke then Invoked(bound.value) else NothingToRun;
  }

  // ---- The call through the erased type ----

  /** The alternative of the variant a declared kind asks for. */
  predicate IsOfKind(arg: BoundArg, kind: ArgKind) {
    match kind
    case Target => arg.BoundTarget?
    case Targets => arg.BoundTargets? && arg.players != []
    case Duration => arg.BoundDuration?
    case SteamId => arg.BoundSteamId?
    case PlayerOrSteamId => arg.BoundPlayerOrSteamId?
    case Int => arg.BoundInt?
    case U64 => arg.BoundU64?
    case Word => arg.BoundWord?
    case Rest => arg.BoundRest?
  }

  /** ArgUnpack finds what it asks for; an Opt accepts the empty alternative too. */
  predicate Unpacks(desc: ArgDesc, arg: BoundArg) {
    IsOfKind(arg, desc.kind) || (desc.optional && arg.Empty?)
  }

  /** The trampoline reads one entry per declared argument and every one unpacks. */
  predicate CallIsSafe(args: seq<ArgDesc>, bound: seq<BoundArg>) {
    |bound| == |args| && forall k | 0 <= k < |args| :: Unpacks(args[k], bound[k])
  }

  /** No argument is required after one that may be missing or that takes every token left. */
  predicate NothingRequiredLate(args: seq<ArgDesc>) {
    forall i, j | 0 <= i < j < |args| && (args[i].optional || args[i].kind.Rest?) :: args[j].optional
  }

  lemma {:induction false} NoneRequired(args: seq<ArgDesc>)
    ensures RequiredArgs(args) == 0 <==> forall k | 0 <= k < |args| :: args[k].optional
  {
    if args != [] {
      NoneRequired(args[1..]);
      assert forall k | 0 <= k < |args| - 1 :: args[1..][k] == args[k + 1];
      assert forall k | 1 <= k < |args| :: args[k] == args[1..][k - 1];
    }
  }

  lemma BoundTokenIsOfItsKind(b: Binder, kind: ArgKind, token: string)
    requires !kind.Rest? && BindToken(b, kind, token).Ok?
    ensures IsOfKind(BindToken(b, kind, token).value, kind)
  {
  }

  lemma SafeByParts(args: seq<ArgDesc>, bound: seq<BoundArg>)
    requires |args| == |bound| > 0
    ensures CallIsSafe(args, bound) <==> Unpacks(args[0], bound[0]) && CallIsSafe(args[1..], bound[1..])
  {
    var a, x := args[1..], bound[1..];
    assert forall k | 0 <= k < |a| :: a[k] == args[k + 1] && x[k] == bound[k + 1];
    assert forall k | 1 <= k < |args| :: args[k] == a[k - 1] && bound[k] == x[k - 1];
  }

  lemma LateTail(args: seq<ArgDesc>)
    requires args != []
    ensures NothingRequiredLate(args)
        <==> NothingRequiredLate(args[1..])
             && (args[0].optional || args[0].kind.Rest? ==> RequiredArgs(args[1..]) == 0)
  {
    var rest := args[1..];
    NoneRequired(rest);
    assert forall k | 0 <= k < |rest| :: rest[k] == args[k + 1];
    assert forall k | 1 <= k < |args| :: args[k] == rest[k - 1];
  }

  /** With no tokens left every argument is empty, which only an optional one may be. */
  lemma {:induction false} AllEmpty(b: Binder, args: seq<ArgDesc>)
    ensures Bound(b, args, []).Ok? && |Bound(b, args, []).value| == |args|
    ensures CallIsSafe(args, Bound(b, args, []).value) <==> RequiredArgs(args) == 0
  {
    if args != [] {
      AllEmpty(b, args[1..]);
      SafeByParts(args, Bound(b, args, []).value);
      assert ([Empty] + Bound(b, args[1..], []).value)[1..] == Bound(b, args[1..], []).value;
    }
  }

  lemma {:induction false} EnoughTokensAreSafe(b: Binder, args: seq<ArgDesc>, tokens: seq<string>)
    requires NothingRequiredLate(args) && RequiredArgs(args) <= |tokens| && Bound(b, args, tokens).Ok?
    ensures CallIsSafe(args, Bound(b, args, tokens).value)
  {
    if tokens == [] {
      AllEmpty(b, args);
    } else if args != [] {
      var bound := Bound(b, args, tokens).value;
      LateTail(args);
      if args[0].kind.Rest? {
        TakesRest(b, args, tokens);
        AllEmpty(b, args[1..]);
        assert bound[1..] == Bound(b, args[1..], []).value;
      } else {
        TakesOne(b, args, tokens);
        BoundTokenIsOfItsKind(b, args[0].kind, tokens[0]);
        EnoughTokensAreSafe(b, args[1..], tokens[1..]);
        assert bound[1..] == Bound(b, args[1..], tokens[1..]).value;
      }
      SafeByParts(args, bound);
    }
  }

  lemma {:induction false} TooFewAreNot(b: Binder, args: seq<ArgDesc>, tokens: seq<string>)
    requires Bound(b, args, tokens).Ok?
    requires |tokens| < RequiredArgs(args) || (|tokens| == RequiredArgs(args) && !NothingRequiredLate(args))
    ensures !CallIsSafe(args, Bound(b, args, tokens).value)
  {
    var bound := Bound(b, args, tokens).value;
    if tokens == [] {
      AllEmpty(b, args);
      NoneRequired(args);
    } else {
      LateTail(args);
      if args[0].kind.Rest? {
        TakesRest(b, args, tokens);
        AllEmpty(b, args[1..]);
        NoneRequired(args[1..]);
        assert bound[1..] == Bound(b, args[1..], []).value;
      } else {
        TakesOne(b, args, tokens);
        assert bound[1..] == Bound(b, args[1..], tokens[1..]).value;
        NoneRequired(args[1..]);
        TooFewAreNot(b, args[1..], tokens[1..]);
      }
      if |bound| == |args| {
        SafeByParts(args, bound);
      }
    }
  }

  // ---- Main results ----

  /** Whenever a signature that passes both compile-time checks is dispatched and its handler is reached, every
      argument unpacks: one entry per parameter, of its kind, or empty only where it may be. */
  lemma {:induction false} CheckedSignatureUnpacks(def: Definition, authorized: bool, tokens: seq<string>,
                                                           b: Binder, bound: seq<BoundArg>)
    requires OptionalsLast(def.args) && RestOnlyLast(def.args)
    requires Dispatched(def, authorized, tokens, b) == Invoked(bound)
    ensures CallIsSafe(def.args, bound)
  {
    EnoughTokensAreSafe(b, def.args, tokens);
  }

  ghost predicate AlwaysUnpacks(args: seq<ArgDesc>) {
    forall tokens, b :: UnpacksFor(args, tokens, b)
  }

  ghost predicate UnpacksFor(args: seq<ArgDesc>, tokens: seq<string>, b: Binder) {
    var reply := Dispatched(Definition(args, true), true, tokens, b);
    reply.Invoked? ==> CallIsSafe(args, reply.bound)
  }

  /** Exactly the signatures with nothing required after an optional argument or a Rest unpack on every line. */
  lemma UnpackingIsSafeExactlyWhen(args: seq<ArgDesc>)
    ensures AlwaysUnpacks(args) <==> NothingRequiredLate(args)
  {
    if NothingRequiredLate(args) {
      forall tokens, b ensures UnpacksFor(args, tokens, b) {
        if Dispatched(Definition(args, true), true, tokens, b).Invoked? {
          EnoughTokensAreSafe(b, args, tokens);
        }
      }
    } else {
      var tokens, b := Ones(RequiredArgs(args)), AnyBinder();
      RequiredFits(args);
      OnesBind(args, RequiredArgs(args));
      TooFewAreNot(b, args, tokens);
      assert !UnpacksFor(args, tokens, b);
    }
  }

  lemma {:induction false} RequiredFits(args: seq<ArgDesc>)
    ensures RequiredArgs(args) <= |args|
  {
    if args != [] {
      RequiredFits(args[1..]);
    }
  }

  function Ones(n: nat): (tokens: seq<string>)
    ensures |tokens| == n
  {
    if n == 0 then [] else ["1"] + Ones(n - 1)
  }

  /** One player, whom every target token names; a token every parser accepts is "1". */
  function AnyBinder(): Binder {
    Binder([PlayerView(0, 0, "", NoTeam, true, false, true)], 0, _ => All, None, _ => 1)
  }

  lemma OneBindsAsANumber(kind: ArgKind)
    requires kind.SteamId? || kind.Int? || kind.U64?
    ensures BindNumber(kind, "1").Ok?
  {
  }

  lemma ResolvedBinds(b: Binder, kind: ArgKind, token: string)
    requires kind.Target? || kind.Targets? || kind.PlayerOrSteamId? || kind.Duration? || kind.Word?
    requires Resolve(b, token, true).Ok? && Resolve(b, token, false).Ok? && b.parseDuration(token) >= 0
    ensures BindToken(b, kind, token).Ok?
  {
  }

  lemma OneBindsAsAnything(kind: ArgKind)
    requires !kind.Rest?
    ensures BindToken(AnyBinder(), kind, "1").Ok?
  {
    if kind.SteamId? || kind.Int? || kind.U64? {
      OneBindsAsANumber(kind);
    } else {
      OnePlayerResolves(true);
      OnePlayerResolves(false);
      ResolvedBinds(AnyBinder(), kind, "1");
    }
  }

  lemma OneTargetableIsChosen(p: PlayerView, rules: Rules, callerSlot: int)
    requires p.targetable && rules.allowBots && rules.allowDead
    ensures Filtered([p], All, rules, callerSlot, None).Ok?
  {
    SelectAll([p], Meaning([p], All, callerSlot));
    assert Meant([p], All, callerSlot) == [p];
    OneTargetableIsLeft(p, rules);
  }

  lemma OneTargetableIsLeft(p: PlayerView, rules: Rules)
    requires p.targetable && rules.allowBots && rules.allowDead
    ensures Narrowed([p], All, rules, None).Ok?
  {
    SelectAll([p], BotRule(rules));
    SelectAll([p], LifeRule(rules));
    SelectAll([p], IsTargetable);
  }

  lemma OnePlayerResolves(multiple: bool)
    ensures Resolve(AnyBinder(), "1", multiple).Ok?
  {
    var b := AnyBinder();
    OneTargetableIsChosen(b.players[0], Rules(multiple, true, true), 0);
    assert b.players == [b.players[0]] && b.parseTarget("1") == All;
  }

  lemma {:induction false} OnesBind(args: seq<ArgDesc>, n: nat)
    ensures Bound(AnyBinder(), args, Ones(n)).Ok?
  {
    var b := AnyBinder();
    if n == 0 {
      AllEmpty(b, args);
    } else if args != [] {
      if args[0].kind.Rest? {
        TakesRest(b, args, Ones(n));
        AllEmpty(b, args[1..]);
      } else {
        TakesOne(b, args, Ones(n));
        OneBindsAsAnything(args[0].kind);
        OnesBind(args[1..], n - 1);
        assert Ones(n)[1..] == Ones(n - 1);
      }
    }
  }

  function Flatten(shares: seq<seq<string>>): seq<string> {
    if shares == [] then [] else shares[0] + Flatten(shares[1..])
  }

  lemma {:induction false} EmptySharesFlatten(args: seq<ArgDesc>)
    ensures Flatten(Shares(args, [])) == []
  {
    if args != [] {
      EmptySharesFlatten(args[1..]);
      assert Shares(args, [])[1..] == Shares(args[1..], []);
    }
  }

  /** On a line that passes the arity checks, every token goes to exactly one argument, in order: a Rest takes a
      stretch of them, anything else at most one. */
  lemma {:induction false} TokensAreUsedOnceInOrder(args: seq<ArgDesc>, tokens: seq<string>)
    requires HasRest(args) || |tokens| <= |args|
    ensures Flatten(Shares(args, tokens)) == tokens
    ensures forall k | 0 <= k < |args| && !args[k].kind.Rest? :: |Shares(args, tokens)[k]| <= 1
  {
    if args == [] {
    } else {
      var shares, rest := Shares(args, tokens), args[1..];
      assert forall k | 0 <= k < |rest| :: rest[k] == args[k + 1];
      if tokens == [] {
        EmptySharesFlatten(args);
        TokensAreUsedOnceInOrder(rest, []);
      } else if args[0].kind.Rest? {
        EmptySharesFlatten(rest);
        assert shares[1..] == Shares(rest, []);
        TokensAreUsedOnceInOrder(rest, []);
      } else {
        if HasRest(args) {
          var k :| 0 <= k < |args| && args[k].kind.Rest?;
          assert rest[k - 1].kind.Rest?;
        }
        TokensAreUsedOnceInOrder(rest, tokens[1..]);
        assert shares[1..] == Shares(rest, tokens[1..]);
      }
    }
  }

  /** A reached handler is given what its own tokens bind to, and nothing else. */
  lemma {:induction false} EachArgumentIsItsShare(b: Binder, args: seq<ArgDesc>, shares: seq<seq<string>>)
    requires |shares| == |args| && BindShares(b, args, shares).Ok?
    ensures var bound := BindShares(b, args, shares).value;
            |bound| == |args| && forall k | 0 <= k < |args| :: BindShare(b, args[k], shares[k]) == Ok(bound[k])
  {
    if args != [] {
      EachArgumentIsItsShare(b, args[1..], shares[1..]);
      var first, rest := BindShare(b, args[0], shares[0]).value, BindShares(b, args[1..], shares[1..]).value;
      var bound := BindShares(b, args, shares).value;
      assert bound == [first] + rest;
      forall k | 1 <= k < |args| ensures BindShare(b, args[k], shares[k]) == Ok(bound[k]) {
        assert BindShare(b, args[1..][k - 1], shares[1..][k - 1]) == Ok(rest[k - 1]);
      }
    }
  }

  /** The place of the first argument that does not bind. */
  lemma {:induction false} FirstBadArgument(b: Binder, args: seq<ArgDesc>, shares: seq<seq<string>>) returns (k: nat)
    requires |shares| == |args| && BindShares(b, args, shares).Err?
    ensures k < |args| && BindShare(b, args[k], shares[k]) == Err(BindShares(b, args, shares).error)
    ensures forall j | 0 <= j < k :: BindShare(b, args[j], shares[j]).Ok?
  {
    k := 0;
    if BindShare(b, args[0], shares[0]).Ok? {
      var later := FirstBadArgument(b, args[1..], shares[1..]);
      k := later + 1;
      forall j | 0 <= j < k ensures BindShare(b, args[j], shares[j]).Ok? {
        if j > 0 {
          assert args[1..][j - 1] == args[j] && shares[1..][j - 1] == shares[j];
        }
      }
    }
  }

  /** A refused line is refused for its first argument that does not bind. */
  lemma TheFirstBadArgumentIsReported(b: Binder, args: seq<ArgDesc>, shares: seq<seq<string>>)
    requires |shares| == |args| && BindShares(b, args, shares).Err?
    ensures exists k | 0 <= k < |args| ::
              && BindShare(b, args[k], shares[k]) == Err(BindShares(b, args, shares).error)
              && forall j | 0 <= j < k :: BindShare(b, args[j], shares[j]).Ok?
  {
    var k := FirstBadArgument(b, args, shares);
  }

  /** The players a handler is handed. */
  function PlayersIn(arg: BoundArg): seq<int> {
    match arg
    case BoundTarget(player) => [player]
    case BoundTargets(players) => players
    case BoundPlayerOrSteamId(Some(player), _) => [player]
    case _ => []
  }

  lemma TargetMayBeActedOn(b: Binder, token: string, slot: int)
    requires BindTarget(b, token).Ok? && slot in PlayersIn(BindTarget(b, token).value)
    ensures MayActOn(b, token, slot)
  {
    var resolved := Resolve(b, token, false);
    if resolved.Ok? {
      assert resolved.value[0] in resolved.value;
    }
  }

  lemma OnlinePlayerIsResolved(b: Binder, token: string)
    requires BindPlayerOrSteamId(b, token).Ok? && BindPlayerOrSteamId(b, token).value.online.Some?
    ensures Resolve(b, token, false).Ok?
    ensures BindPlayerOrSteamId(b, token).value.online == Some(Resolve(b, token, false).value[0])
  {
  }

  lemma OnlinePlayerMayBeActedOn(b: Binder, token: string, slot: int)
    requires BindPlayerOrSteamId(b, token).Ok? && BindPlayerOrSteamId(b, token).value.online == Some(slot)
    ensures MayActOn(b, token, slot)
  {
    OnlinePlayerIsResolved(b, token);
    var resolved := Resolve(b, token, false);
    assert resolved.value[0] in resolved.value;
  }

  lemma BoundPlayersMayBeActedOn(b: Binder, kind: ArgKind, token: string, slot: int)
    requires !kind.Rest?
    ensures var bound := BindToken(b, kind, token);
            bound.Ok? && slot in PlayersIn(bound.value) ==> MayActOn(b, token, slot)
  {
    var bound := BindToken(b, kind, token);
    if bound.Ok? && slot in PlayersIn(bound.value) {
      match kind {
        case Target => TargetMayBeActedOn(b, token, slot);
        case Targets => assert slot in Resolve(b, token, true).value;
        case PlayerOrSteamId =>
          if bound.value.online.Some? {
            OnlinePlayerMayBeActedOn(b, token, slot);
          }
        case _ =>
      }
    }
  }

  /** Every player a handler is handed was named by its own token and may be acted on by the caller. */
  lemma {:induction false} HandlersGetOnlyTargetablePlayers(b: Binder, args: seq<ArgDesc>, tokens: seq<string>,
                                                                    k: nat, slot: int)
    requires Bound(b, args, tokens).Ok? && k < |args|
    requires k < |Bound(b, args, tokens).value| && slot in PlayersIn(Bound(b, args, tokens).value[k])
    ensures Shares(args, tokens)[k] != [] && MayActOn(b, Shares(args, tokens)[k][0], slot)
  {
    var shares := Shares(args, tokens);
    EachArgumentIsItsShare(b, args, shares);
    assert BindShare(b, args[k], shares[k]) == Ok(Bound(b, args, tokens).value[k]);
    assert !args[k].kind.Rest? && shares[k] != [];
    BoundPlayersMayBeActedOn(b, args[k].kind, shares[k][0], slot);
  }

  /** A SteamID stands in for a player exactly when the token is one and nobody answers to it: never for a
      player who is online but protected, nor for an ambiguous name. */
  lemma {:induction false} FallsBackExactlyWhenNobodyAnswers(b: Binder, token: string)
    ensures var bound := BindPlayerOrSteamId(b, token);
            (bound.Ok? && bound.value.online.None?)
            <==> IsNumeric(token) && ParseInt64(token).Some? && !AnyMeant(b.players, b.parseTarget(token), b.callerSlot)
  {
    if token != "" {
      FailureSaysWhy(b.players, b.parseTarget(token), Rules(false, true, true), b.callerSlot, b.random,
                     Failure(NoMatch, 0));
      NoMatchCountsNobody(b, token);
    }
  }

  lemma NoMatchCountsNobody(b: Binder, token: string)
    ensures var resolved := Resolve(b, token, false);
            resolved.Err? && resolved.error.error == NoMatch ==> resolved.error == Failure(NoMatch, 0)
  {
    var resolved := Resolve(b, token, false);
    if token != "" && resolved.Err? {
      FailureSaysWhy(b.players, b.parseTarget(token), Rules(false, true, true), b.callerSlot, b.random, resolved.error);
    }
  }

  lemma OnlyProtectedMeansImmune(b: Binder, query: Query, rules: Rules, p: PlayerView)
    requires p in b.players && Means(b.players, query, b.callerSlot, p) && rules.allowBots && rules.allowDead
    requires forall q | q in b.players && Means(b.players, query, b.callerSlot, q) :: !q.targetable
    ensures Filtered(b.players, query, rules, b.callerSlot, b.random) == Err(Failure(Immune, 0))
  {
    assert AllowedBot(rules, p) && AllowedLife(rules, p);
    assert Eligibles(b.players, query, rules, b.callerSlot) == [] by {
      SelectsSome(b.players, EligibleFor(b.players, query, rules, b.callerSlot));
    }
    FailureSaysWhy(b.players, query, rules, b.callerSlot, b.random, Failure(Immune, 0));
  }

  /** So a token that means somebody, each of whom the policy protects, is refused, id or not. */
  lemma {:induction false} ProtectedPlayerIsRefused(b: Binder, token: string)
    requires token != "" && AnyMeant(b.players, b.parseTarget(token), b.callerSlot)
    requires forall p | p in b.players && Means(b.players, b.parseTarget(token), b.callerSlot, p) :: !p.targetable
    ensures BindPlayerOrSteamId(b, token) == Err(ArgError("target.immune", token, 0))
  {
    var p :| p in b.players && Means(b.players, b.parseTarget(token), b.callerSlot, p);
    OnlyProtectedMeansImmune(b, b.parseTarget(token), Rules(false, true, true), p);
    assert Resolve(b, token, false) == Err(Failure(Immune, 0));
  }

  /** Such as the SteamID64 of any player who is online and protected from the caller. */
  lemma {:induction false} OwnIdOfAProtectedPlayerIsRefused(b: Binder, token: string, p: PlayerView)
    requires IsNumeric(token) && ParseInt64(token) == Some(p.steamId) && b.parseTarget(token) == WithSteamId(p.steamId)
    requires p in b.players && forall q | q in b.players && q.steamId == p.steamId :: !q.targetable
    ensures BindPlayerOrSteamId(b, token) == Err(ArgError("target.immune", token, 0))
  {
    assert Means(b.players, b.parseTarget(token), b.callerSlot, p);
    ProtectedPlayerIsRefused(b, token);
  }

  // ---- What an argument binds to ----

  /** A reached handler is given, for each argument, what that argument alone makes of its tokens. */
  lemma {:induction false} EachArgumentBindsAsAlone(b: Binder, args: seq<ArgDesc>, tokens: seq<string>, k: nat)
    requires Bound(b, args, tokens).Ok? && k < |args|
    ensures |Bound(b, args, tokens).value| == |args|
    ensures Bound(b, [args[k]], Shares(args, tokens)[k]) == Ok([Bound(b, args, tokens).value[k]])
  {
    var shares := Shares(args, tokens);
    EachArgumentIsItsShare(b, args, shares);
    SharesFit(args, tokens, k);
    BindsAlone(b, args[k], shares[k]);
  }

  lemma {:induction false} SharesFit(args: seq<ArgDesc>, tokens: seq<string>, k: nat)
    requires k < |args|
    ensures !args[k].kind.Rest? ==> |Shares(args, tokens)[k]| <= 1
  {
    if k > 0 {
      SharesFit(args[1..], if tokens == [] || args[0].kind.Rest? then [] else tokens[1..], k - 1);
    }
  }

  lemma BindsAlone(b: Binder, arg: ArgDesc, share: seq<string>)
    requires arg.kind.Rest? || |share| <= 1
    ensures var one := BindShare(b, arg, share);
            Bound(b, [arg], share) == if one.Err? then Err(one.error) else Ok([one.value])
  {
    var args, shares := [arg], [share];
    if share != [] && !arg.kind.Rest? {
      assert [share[0]] == share;
    }
    assert args[1..] == [] && shares[1..] == [];
    assert Shares(args, share) == shares;
    var one := BindShare(b, arg, share);
    if one.Ok? {
      assert BindShares(b, args[1..], shares[1..]) == Ok([]);
      assert Bound(b, args, share) == Prepended([one.value], Ok([]));
      assert [one.value] + [] == [one.value];
    }
  }

  lemma NothingBindsEmpty(b: Binder, arg: ArgDesc)
    ensures Bound(b, [arg], []) == Ok([Empty])
  {
    BindsAlone(b, arg, []);
  }

  lemma WordIsItsToken(b: Binder, optional: bool, token: string)
    ensures Bound(b, [ArgDesc(Word, optional)], [token]) == Ok([BoundWord(token)])
  {
    BindsAlone(b, ArgDesc(Word, optional), [token]);
  }

  /** A duration that is a bare number is that many minutes: sixty times what the parser reads. Any other is what
      the parser reads, unless it reads nothing. */
  lemma DurationCountsMinutes(b: Binder, optional: bool, token: string)
    ensures var read, bound := b.parseDuration(token), Bound(b, [ArgDesc(Duration, optional)], [token]);
            && (read < 0 ==> bound == Err(ArgError("cmd.badDuration", token, 0)))
            && (read >= 0 && (exists n :: Spells(token, n)) ==> bound == Ok([BoundDuration(60 * read)]))
            && (read >= 0 && !(exists n :: Spells(token, n)) ==> bound == Ok([BoundDuration(read)]))
  {
    BindsAlone(b, ArgDesc(Duration, optional), [token]);
    NumericSpells(token);
  }

  lemma NumericSpells(token: string)
    ensures IsNumeric(token) <==> exists n :: Spells(token, n)
  {
    if IsNumeric(token) {
      ReadsWhatIsSpelt(token, Value(token));
    }
    if n :| Spells(token, n) {
      ReadsWhatIsSpelt(token, n);
    }
  }

  /** The token spells the number, or a minus sign and then what is left when it is taken away. */
  predicate SpellsInt(token: string, n: int) {
    (n >= 0 && Spells(token, n)) || (n <= 0 && token != "" && token[0] == '-' && Spells(token[1..], -n))
  }

  lemma ParsesWhatIsSpelt(token: string, n: int)
    ensures ParseInt64(token) == Some(n)
       <==> SpellsInt(token, n) && -0x8000_0000_0000_0000 <= n <= 0x7FFF_FFFF_FFFF_FFFF
  {
    if n >= 0 {
      ReadsWhatIsSpelt(token, n);
    }
    if n <= 0 && token != "" {
      ReadsWhatIsSpelt(token[1..], -n);
    }
    assert token != "" && token[0] == '-' ==> !IsNumeric(token) by {
      assert !IsDigit('-');
    }
  }

  /** An Int is the number its token spells, minus sign and all, where that fits 32 bits; a token that spells no
      such number is refused. */
  lemma IntIsTheNumberSpelt(b: Binder, optional: bool, token: string, n: int)
    ensures var bound := Bound(b, [ArgDesc(Int, optional)], [token]);
            && (bound == Ok([BoundInt(n)]) <==> SpellsInt(token, n) && -0x8000_0000 <= n <= 0x7FFF_FFFF)
            && (bound == Err(ArgError("cmd.badNumber", token, 0))
                <==> forall v | -0x8000_0000 <= v <= 0x7FFF_FFFF :: !SpellsInt(token, v))
  {
    BindsAlone(b, ArgDesc(Int, optional), [token]);
    ParsesWhatIsSpelt(token, n);
    forall v ensures ParseInt64(token) == Some(v) <==>
                     SpellsInt(token, v) && -0x8000_0000_0000_0000 <= v <= 0x7FFF_FFFF_FFFF_FFFF
    {
      ParsesWhatIsSpelt(token, v);
    }
  }

  lemma SpeltOnce(token: string)
    ensures forall v: nat :: Spells(token, v) <==> IsNumeric(token) && Value(token) == v
    ensures IsNumeric(token) ==> Spells(token, Value(token))
  {
    forall v: nat ensures Spells(token, v) <==> IsNumeric(token) && Value(token) == v {
      ReadsWhatIsSpelt(token, v);
    }
    if IsNumeric(token) {
      ReadsWhatIsSpelt(token, Value(token));
    }
  }

  /** A U64 is the number its token spells in digits alone, where that fits 64 bits. */
  lemma U64IsTheNumberSpelt(b: Binder, optional: bool, token: string, n: nat)
    ensures var bound := Bound(b, [ArgDesc(U64, optional)], [token]);
            && (bound == Ok([BoundU64(n)]) <==> Spells(token, n) && n <= 0xFFFF_FFFF_FFFF_FFFF)
            && (bound == Err(ArgError("cmd.badNumber", token, 0))
                <==> forall v: nat | v <= 0xFFFF_FFFF_FFFF_FFFF :: !Spells(token, v))
  {
    BindsAlone(b, ArgDesc(U64, optional), [token]);
    SpeltOnce(token);
  }

  /** A SteamID64 is the number its token spells in digits alone, where that fits 63 bits. */
  lemma SteamIdIsTheNumberSpelt(b: Binder, optional: bool, token: string, n: nat)
    ensures var bound := Bound(b, [ArgDesc(SteamId, optional)], [token]);
            && (bound == Ok([BoundSteamId(n)]) <==> Spells(token, n) && n <= 0x7FFF_FFFF_FFFF_FFFF)
            && (bound == Err(ArgError("cmd.badSteamId", token, 0))
                <==> forall v: nat | v <= 0x7FFF_FFFF_FFFF_FFFF :: !Spells(token, v))
  {
    BindsAlone(b, ArgDesc(SteamId, optional), [token]);
    SpeltOnce(token);
  }

  lemma RestOfOneToken(b: Binder, optional: bool, token: string)
    ensures Bound(b, [ArgDesc(Rest, optional)], [token]) == Ok([BoundRest(token)])
  {
    BindsAlone(b, ArgDesc(Rest, optional), [token]);
  }

  lemma {:induction false} JoinSplits(before: seq<string>, after: seq<string>)
    requires before != [] && after != []
    ensures Join(before + after) == Join(before) + " " + Join(after)
  {
    assert (before + after)[1..] == before[1..] + after;
    if |before| > 1 {
      JoinSplits(before[1..], after);
      assert before[0] + " " + (Join(before[1..]) + " " + Join(after))
          == (before[0] + " " + Join(before[1..])) + " " + Join(after);
    }
  }

  /** Wherever the tokens of a Rest are split, its text is the text of both parts with one space between. With
      RestOfOneToken, this leaves it no other text. */
  lemma RestIsSpaced(b: Binder, optional: bool, before: seq<string>, after: seq<string>, x: string, y: string)
    requires before != [] && after != []
    requires Bound(b, [ArgDesc(Rest, optional)], before) == Ok([BoundRest(x)])
    requires Bound(b, [ArgDesc(Rest, optional)], after) == Ok([BoundRest(y)])
    ensures Bound(b, [ArgDesc(Rest, optional)], before + after) == Ok([BoundRest(x + " " + y)])
  {
    var rest := ArgDesc(Rest, optional);
    BindsAlone(b, rest, before);
    BindsAlone(b, rest, after);
    BindsAlone(b, rest, before + after);
    assert [BoundRest(x)][0] == BoundRest(Join(before)) && [BoundRest(y)][0] == BoundRest(Join(after));
    JoinSplits(before, after);
  }

  /** The players a token names, with bots and the dead allowed. */
  function FoundBy(b: Binder, token: string, several: bool): Result<seq<int>, Failure> {
    Filtered(b.players, b.parseTarget(token), Rules(several, true, true), b.callerSlot, b.random)
  }

  /** A token that finds one player binds to that player, and as a SteamID to the player's own; a Targets takes
      all that it finds. */
  lemma TargetsAreThoseFound(b: Binder, optional: bool, token: string, p: PlayerView, slots: seq<int>)
    requires token != "" && p in b.players && forall q | q in b.players && q.slot == p.slot :: q == p
    ensures FoundBy(b, token, false) == Ok([p.slot]) ==>
              && Bound(b, [ArgDesc(Target, optional)], [token]) == Ok([BoundTarget(p.slot)])
              && Bound(b, [ArgDesc(PlayerOrSteamId, optional)], [token])
                 == Ok([BoundPlayerOrSteamId(Some(p.slot), p.steamId)])
    ensures FoundBy(b, token, true) == Ok(slots) ==>
              Bound(b, [ArgDesc(Targets, optional)], [token]) == Ok([BoundTargets(slots)])
  {
    BindsAlone(b, ArgDesc(Target, optional), [token]);
    BindsAlone(b, ArgDesc(Targets, optional), [token]);
    BindsAlone(b, ArgDesc(PlayerOrSteamId, optional), [token]);
    SteamIdOfTheOne(b.players, p);
  }

  lemma {:induction false} SteamIdOfTheOne(players: seq<PlayerView>, p: PlayerView)
    requires p in players && forall q | q in players && q.slot == p.slot :: q == p
    ensures SteamIdOf(players, p.slot) == p.steamId
  {
    if players[0].slot != p.slot {
      SteamIdOfTheOne(players[1..], p);
    }
  }

  /** A token that finds nobody to bind is refused by the reason it found nobody, with the token, and with the
      number of players where there were too many. */
  lemma RefusalNamesItsReason(b: Binder, several: bool, optional: bool, token: string)
    requires token == "" || FoundBy(b, token, several).Err?
    ensures var bound := Bound(b, [ArgDesc(if several then Targets else Target, optional)], [token]);
            && bound.Err? && bound.error.token == token
            && if token == "" then bound.error.key == "target.noMatch" && bound.error.count == 0 else
               match FoundBy(b, token, several).error
               case Failure(NoMatch, _) => bound.error.key == "target.noMatch" && bound.error.count == 0
               case Failure(Immune, _) => bound.error.key == "target.immune" && bound.error.count == 0
               case Failure(DeadNotAllowed, _) => bound.error.key == "target.dead" && bound.error.count == 0
               case Failure(BotNotAllowed, _) => bound.error.key == "target.bot" && bound.error.count == 0
               case Failure(_, n) => bound.error.key == "target.ambiguous" && bound.error.count == n
  {
    BindsAlone(b, ArgDesc(if several then Targets else Target, optional), [token]);
  }

  /** And a token that may be a player or a SteamID is refused as it would be for a player, except where it is a
      SteamID64 that nobody answers to, which it then binds to. */
  lemma RefusedUnlessAnId(b: Binder, optional: bool, token: string, n: nat)
    requires token == "" || FoundBy(b, token, false).Err?
    ensures var asPlayer := Bound(b, [ArgDesc(Target, optional)], [token]);
            var bound := Bound(b, [ArgDesc(PlayerOrSteamId, optional)], [token]);
            && asPlayer.Err?
            && (bound == Ok([BoundPlayerOrSteamId(None, n)])
                <==> asPlayer.error.key == "target.noMatch" && Spells(token, n) && n <= 0x7FFF_FFFF_FFFF_FFFF)
            && (bound.Err? ==> bound == asPlayer)
            && (bound.Ok? ==> exists v: nat :: bound == Ok([BoundPlayerOrSteamId(None, v)]))
  {
    BindsAlone(b, ArgDesc(Target, optional), [token]);
    BindsAlone(b, ArgDesc(PlayerOrSteamId, optional), [token]);
    SpeltOnce(token);
  }

  // ---- Which line reaches its handler ----

  /** Under a signature that puts nothing required after an optional argument: what each reply says of the line. */
  lemma {:induction false} ReplyNamesTheGate(def: Definition, authorized: bool, tokens: seq<string>, b: Binder)
    requires OptionalsLast(def.args)
    ensures var reply := Dispatched(def, authorized, tokens, b);
            var tooMany := |tokens| > |def.args| && forall k | 0 <= k < |def.args| :: !def.args[k].kind.Rest?;
            var tooFew := exists k | |tokens| <= k < |def.args| :: !def.args[k].optional;
            && (reply == Denied <==> !authorized)
            && (reply == TooManyArgs <==> authorized && tooMany)
            && (reply == Usage <==> authorized && tooFew)
            && (authorized && !tooMany && !tooFew ==>
                  match Bound(b, def.args, tokens)
                  case Err(error) => reply == BadArgument(error)
                  case Ok(bound) => reply == if def.hasInvoke then Invoked(bound) else NothingToRun)
  {
    CountsTheRequired(def.args, |tokens|);
  }

  lemma {:induction false} CountsTheRequired(args: seq<ArgDesc>, n: nat)
    requires OptionalsLast(args)
    ensures n < RequiredArgs(args) <==> exists k | n <= k < |args| :: !args[k].optional
  {
    if args == [] {
    } else if args[0].optional {
      NoneRequired(args);
      assert forall k | 1 <= k < |args| :: args[k].optional;
    } else {
      assert forall i, j | 0 <= i < j < |args| - 1 && args[1..][i].optional :: args[1..][j].optional by {
        assert forall i | 0 <= i < |args| - 1 :: args[1..][i] == args[i + 1];
      }
      if n > 0 {
        CountsTheRequired(args[1..], n - 1);
        assert forall k | 1 <= k < |args| :: args[k] == args[1..][k - 1];
        assert forall k | 0 <= k < |args| - 1 :: args[1..][k] == args[k + 1];
      } else {
        assert !args[0].optional;
      }
    }
  }
}
