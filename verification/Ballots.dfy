/** The yes/no vote: ballots, the two timers that end it, and callbacks that call back into the service. */
module Ballots {
  import opened Slots

  datatype EndReason = AllVoted | TimeUp | Cancelled

  datatype Tally = Tally(eligible: int, yes: int, no: int) {
    function Cast(): int {
      yes + no
    }
  }

  /** What a caller asks for. The callbacks' own calls into the service are finite trees. */
  datatype Request = Request(hasPassed: bool, passes: Tally -> bool, inPassed: Calls, inFinished: Calls)

  datatype Calls = NoCalls | Then(call: Call, rest: Calls)

  /** humans are the slots of the connected players that are not bots. */
  datatype Call =
    | Start(humans: set<int>, request: Request, changed: Acts)
    | Do(act: Act)
    | End(reason: EndReason)

  /** What can be done to a running vote, with what the listeners of its own events do to it in turn: cast are
      those of vote_cast, entered in the middle of counting the ballot, and changed those of vote_changed. They
      do not end the vote, whose ballot is still in use. */
  datatype Act =
    | CastBallot(slot: int, option: string, cast: Acts, changed: Acts)
    | DropVoter(slot: int, changed: Acts)

  datatype Acts = NoActs | And(act: Act, rest: Acts)

  datatype Ballot = Ballot(id: nat, request: Request, tally: Tally, waiting: set<int>, timeout: nat, close: Option<nat>)

  datatype Timer = Timer(vote: nat, reason: EndReason)

  // History.
  datatype Record = Record(vote: nat, slot: int, yes: bool)
  datatype Outcome = Outcome(vote: nat, tally: Tally, reason: EndReason, passed: bool)

  datatype State = State(
    running: Option<Ballot>,
    issueActive: bool,          // the controller takes key presses
    timers: map<nat, Timer>,    // what the scheduler holds
    nextTimer: nat,
    started: nat,               // history from here on
    records: seq<Record>,
    spoilt: multiset<nat>,      // for each vote, its ballots whose slot their own listeners had settled
    outcomes: seq<Outcome>,
    muted: Option<nat>)         // the vote that was running when another one's end shut the panel

  const INITIAL := State(None, false, map[], 0, 0, [], multiset{}, [], None)

  // ---- Sizes, for termination ----

  function RequestSize(request: Request): nat {
    1 + CallsSize(request.inPassed) + CallsSize(request.inFinished)
  }

  function CallsSize(calls: Calls): nat {
    match calls
    case NoCalls => 0
    case Then(call, rest) => 1 + CallSize(call) + CallsSize(rest)
  }

  function CallSize(call: Call): nat {
    match call
    case Start(_, request, _) => 1 + RequestSize(request)
    case _ => 1
  }

  function Weight(s: State): nat {
    if s.running.Some? then RequestSize(s.running.value.request) else 0
  }

  // ---- The operations ----

  function Voters(humans: set<int>): set<int> {
    set slot | slot in humans && IsValidSlot(slot)
  }

  /** The vote is up before its counts are published, and its time limit is set after that. */
  function Begun(s: State, humans: set<int>, request: Request): State {
    var voters := Voters(humans);
    s.(running := Some(Ballot(s.started, request, Tally(|voters|, 0, 0), voters, s.nextTimer, None)),
       issueActive := true,
       nextTimer := s.nextTimer + 1,
       started := s.started + 1)
  }

  function Limited(s: State): State
    requires s.running.Some?
  {
    s.(timers := s.timers[s.running.value.timeout := Timer(s.running.value.id, TimeUp)])
  }

  function Opened(s: State, humans: set<int>, request: Request, changed: Acts): State {
    if s.running.Some? || !request.hasPassed || |Voters(humans)| == 0 then s
    else Limited(AllDone(Begun(s, humans, request), changed))
  }

  /** CloseIfAllVoted. Replacing the subscription would cancel an earlier close. */
  function ClosedIfAllVoted(s: State): State
    requires s.running.Some?
  {
    var ballot := s.running.value;
    if ballot.tally.Cast() < ballot.tally.eligible then s else
    var others := if ballot.close.Some? then s.timers - {ballot.close.value} else s.timers;
    s.(running := Some(ballot.(close := Some(s.nextTimer))),
       timers := others[s.nextTimer := Timer(ballot.id, AllVoted)],
       nextTimer := s.nextTimer + 1)
  }

  predicate Awaits(s: State, slot: int) {
    s.running.Some? && IsValidSlot(slot) && slot in s.running.value.waiting
  }

  predicate IsOption(option: string) {
    option == "option1" || option == "option2"
  }

  function Tallied(s: State, slot: int, yes: bool): State
    requires Awaits(s, slot)
  {
    var ballot := s.running.value;
    var tally := if yes then ballot.tally.(yes := ballot.tally.yes + 1) else ballot.tally.(no := ballot.tally.no + 1);
    s.(running := Some(ballot.(tally := tally)), records := s.records + [Record(ballot.id, slot, yes)])
  }

  /** The slot of a counted ballot is no longer waited for; its listeners may have seen to that already. */
  function Cut(s: State, slot: int): State
    requires s.running.Some?
  {
    var ballot := s.running.value;
    s.(running := Some(ballot.(waiting := ballot.waiting - {slot})),
       spoilt := if slot in ballot.waiting then s.spoilt else s.spoilt + multiset{ballot.id})
  }

  function Struck(s: State, slot: int): State
    requires Awaits(s, slot)
  {
    var ballot := s.running.value;
    s.(running := Some(ballot.(tally := ballot.tally.(eligible := ballot.tally.eligible - 1),
                               waiting := ballot.waiting - {slot})))
  }

  /** The same vote as before, whatever has been counted in it. */
  ghost predicate SameVote(s: State, t: State) {
    && t == s.(running := t.running, timers := t.timers, nextTimer := t.nextTimer, records := t.records,
               spoilt := t.spoilt)
    && s.nextTimer <= t.nextTimer
    && (s.running.None? ==> t == s)
    && (s.running.Some? ==>
          && t.running.Some? && t.running.value.waiting <= s.running.value.waiting
          && t.running.value == s.running.value.(tally := t.running.value.tally, waiting := t.running.value.waiting,
                                                 close := t.running.value.close))
  }

  /** TryCastBallot and DropVoter. Counting a ballot fires vote_cast before its slot stops being waited for. */
  function Done(s: State, act: Act): (t: State)
    ensures SameVote(s, t)
    decreases act
  {
    if !Awaits(s, act.slot) then s else
    match act
    case CastBallot(slot, option, cast, changed) =>
      if !IsOption(option) then s else
      var heard := AllDone(Tallied(s, slot, option == "option1"), cast);
      ClosedIfAllVoted(AllDone(Cut(heard, slot), changed))
    case DropVoter(slot, changed) => ClosedIfAllVoted(AllDone(Struck(s, slot), changed))
  }

  function AllDone(s: State, acts: Acts): (t: State)
    ensures SameVote(s, t)
    decreases acts
  {
    if acts.NoActs? then s else AllDone(Done(s, acts.act), acts.rest)
  }

  /** The panel is told the outcome and the controller takes no more keys, whatever Passed has started. */
  function Announced(s: State, ballot: Ballot, reason: EndReason): State {
    var passed := reason != Cancelled && ballot.request.passes(ballot.tally);
    s.(outcomes := s.outcomes + [Outcome(ballot.id, ballot.tally, reason, passed)],
       issueActive := false,
       muted := if s.running.Some? then Some(s.running.value.id) else s.muted)
  }

  /** Dropping the ballot cancels both of its timers. */
  function Released(s: State, ballot: Ballot): State {
    s.(timers := s.timers - {ballot.timeout} - (if ballot.close.Some? then {ballot.close.value} else {}))
  }

  /** Finish: the ballot is taken out first and dropped last, with the two callbacks in between. */
  function Finished(s: State, reason: EndReason): (t: State)
    requires s.running.Some?
    ensures Weight(t) < Weight(s)
    decreases Weight(s), 0
  {
    var ballot := s.running.value;
    var out := s.(running := None);
    var asked := if reason != Cancelled then Exec(out, ballot.request.inPassed) else out;
    Released(Exec(Announced(asked, ballot, reason), ballot.request.inFinished), ballot)
  }

  function Made(s: State, call: Call): (t: State)
    ensures Weight(t) <= Weight(s) + CallSize(call)
    decreases Weight(s) + CallSize(call), 1
  {
    match call
    case Start(humans, request, changed) => Opened(s, humans, request, changed)
    case Do(act) => Done(s, act)
    case End(reason) => if s.running.Some? then Finished(s, reason) else s
  }

  function Exec(s: State, calls: Calls): (t: State)
    ensures Weight(t) <= Weight(s) + CallsSize(calls)
    decreases Weight(s) + CallsSize(calls), 2
  {
    match calls
    case NoCalls => s
    case Then(call, rest) => Exec(Made(s, call), rest)
  }

  /** The game calls, or the scheduler runs a timer it holds. */
  datatype Event = Called(call: Call) | Fired(timer: nat)

  function Apply(s: State, e: Event): State {
    match e
    case Called(call) => Made(s, call)
    case Fired(timer) =>
      if timer !in s.timers || s.running.None? then s
      else Finished(s.(timers := s.timers - {timer}), s.timers[timer].reason)
  }

  function After(events: seq<Event>): State {
    if events == [] then INITIAL else Apply(After(events[..|events| - 1]), events[|events| - 1])
  }

  // ---- What holds at every moment, inside callbacks too ----

  function Votes(records: seq<Record>, vote: nat, yes: bool): nat {
    if records == [] then 0 else
    var last := records[|records| - 1];
    Votes(records[..|records| - 1], vote, yes) + if last.vote == vote && last.yes == yes then 1 else 0
  }

  predicate Runs(s: State, vote: nat) {
    s.running.Some? && s.running.value.id == vote
  }

  predicate HasOutcome(s: State, vote: nat) {
    exists i | 0 <= i < |s.outcomes| :: s.outcomes[i].vote == vote
  }

  /** Started, not running, and not announced: its Finish is under way. */
  predicate Ending(s: State, vote: nat) {
    vote < s.started && !Runs(s, vote) && !HasOutcome(s, vote)
  }

  /** counting ballots are in the tally while their slots may still be waited for. Those apart, the ballots counted
      and the slots waited for make up the eligible and one more for each spoilt ballot; the tally counts the
      ballots cast in this vote. */
  ghost predicate TallyGood(s: State, counting: nat) {
    s.running.Some? ==>
      var ballot := s.running.value;
      && ballot.id < s.started && !HasOutcome(s, ballot.id)
      && ballot.tally.Cast() + |ballot.waiting| == ballot.tally.eligible + s.spoilt[ballot.id] + counting
      && ballot.tally.yes == Votes(s.records, ballot.id, true)
      && ballot.tally.no == Votes(s.records, ballot.id, false)
      && (forall slot | slot in ballot.waiting :: IsValidSlot(slot))
  }

  /** It owns exactly the timers that carry its name. */
  ghost predicate OwnsTimers(s: State) {
    s.running.Some? ==>
      var ballot := s.running.value;
      && ballot.timeout < s.nextTimer && (ballot.close.Some? ==> ballot.timeout < ballot.close.value < s.nextTimer)
      && (forall k | k in s.timers ::
            s.timers[k].vote == ballot.id <==> k == ballot.timeout || ballot.close == Some(k))
      && (ballot.timeout in s.timers ==> s.timers[ballot.timeout].reason == TimeUp)
      && (ballot.close.Some? && ballot.close.value in s.timers ==> s.timers[ballot.close.value].reason == AllVoted)
  }

  /** It is about to close exactly when enough ballots have been counted. */
  ghost predicate CloseGood(s: State) {
    s.running.Some? ==>
      (s.running.value.close.Some? <==> s.running.value.tally.Cast() >= s.running.value.tally.eligible)
  }

  /** Inside an operation, which looks for itself before it is done. */
  ghost predicate CloseNotEarly(s: State) {
    s.running.Some? && s.running.value.close.Some? ==> s.running.value.tally.Cast() >= s.running.value.tally.eligible
  }

  predicate CloseArmed(s: State) {
    s.running.Some? && s.running.value.close.Some? ==> s.running.value.close.value in s.timers
  }

  /** The running ballot's timers are in the scheduler. */
  predicate Armed(s: State) {
    CloseArmed(s) && (s.running.Some? ==> s.running.value.timeout in s.timers)
  }

  ghost predicate TimersGood(s: State) {
    forall k | k in s.timers :: k < s.nextTimer && s.timers[k].vote < s.started
  }

  /** No ballot of the running vote is spoilt, nor can any in progress be: counting holds the slots being counted,
      each once and still waited for. */
  ghost predicate Unspoilt(s: State, counting: multiset<int>) {
    s.running.Some? && s.spoilt[s.running.value.id] == 0
    && forall slot | slot in counting :: counting[slot] == 1 && slot in s.running.value.waiting
  }

  ghost predicate OncePerSlot(records: seq<Record>, vote: nat) {
    forall i, j | 0 <= i < j < |records| && records[i].vote == records[j].vote == vote ::
      records[i].slot != records[j].slot
  }

  ghost predicate RecordsGood(s: State, counting: multiset<int>) {
    && (forall i | 0 <= i < |s.records| :: s.records[i].vote < s.started)
    && (forall vote | vote in s.spoilt :: vote < s.started)
    && (forall vote: nat | !Runs(s, vote) && s.spoilt[vote] == 0 :: OncePerSlot(s.records, vote))
    && (Unspoilt(s, counting) ==>
          && OncePerSlot(s.records, s.running.value.id)
          && forall i | 0 <= i < |s.records| && Runs(s, s.records[i].vote) ::
               s.records[i].slot in s.running.value.waiting ==> s.records[i].slot in counting)
  }

  ghost predicate OutcomesGood(s: State) {
    && (forall i | 0 <= i < |s.outcomes| ::
          var o := s.outcomes[i];
          && o.vote < s.started
          && o.tally.yes == Votes(s.records, o.vote, true) && o.tally.no == Votes(s.records, o.vote, false)
          && o.tally.Cast() <= o.tally.eligible + s.spoilt[o.vote]
          && (o.reason == Cancelled ==> !o.passed))
    && (forall i, j | 0 <= i < j < |s.outcomes| :: s.outcomes[i].vote != s.outcomes[j].vote)
  }

  ghost predicate Good(s: State) {
    TallyGood(s, 0) && OwnsTimers(s) && CloseGood(s) && TimersGood(s) && RecordsGood(s, multiset{}) && OutcomesGood(s)
  }

  /** In the middle of operations on a running vote. */
  ghost predicate GoodWithin(s: State, counting: multiset<int>) {
    && s.running.Some? && TallyGood(s, |counting|) && OwnsTimers(s) && CloseNotEarly(s) && CloseArmed(s)
    && TimersGood(s) && RecordsGood(s, counting) && OutcomesGood(s)
  }

  /** Timers whose vote is not the running one. */
  ghost function Strays(s: State): map<nat, Timer> {
    map k | k in s.timers && !Runs(s, s.timers[k].vote) :: s.timers[k]
  }

  /** The vote running in t was running in s already, or its timers were all set since. */
  ghost predicate Newer(s: State, t: State) {
    t.running.Some? ==>
      if Runs(s, t.running.value.id) then t.running.value.timeout == s.running.value.timeout
      else t.running.value.timeout >= s.nextTimer && t.running.value.id >= s.started
  }

  /** What calls made while some votes are ending leave alone: those votes, and their timers. */
  ghost predicate Steady(s: State, t: State) {
    && s.started <= t.started && s.nextTimer <= t.nextTimer && s.outcomes <= t.outcomes
    && Newer(s, t)
    && Strays(s) == Strays(t)
    && (forall vote: nat :: Ending(t, vote) <==> Ending(s, vote))
    && (forall vote: nat, yes: bool | Ending(s, vote) :: Votes(t.records, vote, yes) == Votes(s.records, vote, yes))
    && (forall vote: nat | vote < s.started && !Runs(s, vote) :: t.spoilt[vote] == s.spoilt[vote])
  }

  ghost predicate Kept(s: State, t: State) {
    Good(t) && Armed(t) && Steady(s, t)
  }

  // ---- Each operation keeps it ----

  lemma {:induction false} NoRecordsYet(records: seq<Record>, vote: nat, yes: bool)
    requires forall i | 0 <= i < |records| :: records[i].vote != vote
    ensures Votes(records, vote, yes) == 0
  {
    if records != [] {
      NoRecordsYet(records[..|records| - 1], vote, yes);
    }
  }

  // Inside a running vote.

  /** The vote goes on: only its own timers and ballots have changed. */
  ghost predicate GoesOn(s: State, t: State, counting: multiset<int>) {
    && SameVote(s, t) && GoodWithin(t, counting) && Strays(s) == Strays(t)
    && (s.running.value.timeout in t.timers <==> s.running.value.timeout in s.timers)
    && (forall vote: nat, yes: bool | !Runs(s, vote) :: Votes(t.records, vote, yes) == Votes(s.records, vote, yes))
    && (forall vote: nat | !Runs(s, vote) :: t.spoilt[vote] == s.spoilt[vote])
  }

  /** Only the close and the timers have changed. */
  lemma SameBooks(s: State, t: State, counting: multiset<int>)
    requires s.running.Some? && t.running.Some?
    requires t == s.(running := Some(s.running.value.(close := t.running.value.close)), timers := t.timers,
                     nextTimer := t.nextTimer)
    requires TallyGood(s, |counting|) && RecordsGood(s, counting) && OutcomesGood(s)
    ensures TallyGood(t, |counting|) && RecordsGood(t, counting) && OutcomesGood(t)
  {
    assert Unspoilt(t, counting) == Unspoilt(s, counting);
  }

  lemma ClosingKeepsTimers(s: State)
    requires s.running.Some? && OwnsTimers(s) && CloseArmed(s) && TimersGood(s) && s.running.value.id < s.started
    ensures var t := ClosedIfAllVoted(s);
            && OwnsTimers(t) && CloseArmed(t) && TimersGood(t) && Strays(s) == Strays(t)
            && (s.running.value.timeout in t.timers <==> s.running.value.timeout in s.timers)
  {
  }

  lemma ClosingGoesOn(s: State, counting: multiset<int>)
    requires GoodWithin(s, counting)
    ensures GoesOn(s, ClosedIfAllVoted(s), counting) && CloseGood(ClosedIfAllVoted(s))
  {
    ClosingKeepsTimers(s);
    SameBooks(s, ClosedIfAllVoted(s), counting);
  }

  lemma TallyingKeepsRecords(s: State, slot: int, yes: bool, counting: multiset<int>)
    requires RecordsGood(s, counting) && Awaits(s, slot) && s.running.value.id < s.started
    ensures RecordsGood(Tallied(s, slot, yes), counting + multiset{slot})
  {
    var t := Tallied(s, slot, yes);
    var more := counting + multiset{slot};
    if Unspoilt(t, more) {
      assert more[slot] == 1 && slot !in counting;
      forall x | x in counting ensures counting[x] == 1 && x in s.running.value.waiting {
        assert x in more;
      }
      assert Unspoilt(s, counting);
    }
  }

  lemma TallyingGoesOn(s: State, slot: int, yes: bool, counting: multiset<int>)
    requires GoodWithin(s, counting) && Awaits(s, slot)
    ensures GoesOn(s, Tallied(s, slot, yes), counting + multiset{slot})
  {
    var t := Tallied(s, slot, yes);
    assert t.records[..|t.records| - 1] == s.records;
    TallyingKeepsRecords(s, slot, yes, counting);
  }

  lemma CuttingKeepsRecords(s: State, slot: int, counting: multiset<int>)
    requires s.running.Some? && RecordsGood(s, counting + multiset{slot}) && s.running.value.id < s.started
    ensures RecordsGood(Cut(s, slot), counting)
  {
    var t := Cut(s, slot);
    if Unspoilt(t, counting) {
      forall x | x in counting + multiset{slot}
        ensures (counting + multiset{slot})[x] == 1 && x in s.running.value.waiting
      {
        assert x != slot ==> x in counting;
      }
      assert Unspoilt(s, counting + multiset{slot});
    }
  }

  lemma CuttingGoesOn(s: State, slot: int, counting: multiset<int>)
    requires GoodWithin(s, counting + multiset{slot})
    ensures GoesOn(s, Cut(s, slot), counting)
  {
    CuttingKeepsRecords(s, slot, counting);
  }

  lemma StrikingGoesOn(s: State, slot: int, counting: multiset<int>)
    requires GoodWithin(s, counting) && Awaits(s, slot)
    ensures GoesOn(s, Struck(s, slot), counting)
  {
    var t := Struck(s, slot);
    if Unspoilt(t, counting) {
      assert Unspoilt(s, counting);
    }
  }

  lemma GoingOnGoesOn(s: State, t: State, u: State, a: multiset<int>, b: multiset<int>)
    requires s.running.Some? && GoesOn(s, t, a) && GoesOn(t, u, b)
    ensures GoesOn(s, u, b)
  {
  }

  lemma {:induction false} ActGoesOn(s: State, act: Act, counting: multiset<int>)
    requires GoodWithin(s, counting)
    ensures GoesOn(s, Done(s, act), counting) && (CloseGood(s) ==> CloseGood(Done(s, act)))
    decreases act
  {
    if Awaits(s, act.slot) {
      match act {
        case CastBallot(slot, option, cast, changed) =>
          if IsOption(option) {
            BallotGoesOn(s, act, counting);
          }
        case DropVoter(slot, changed) =>
          StrikingGoesOn(s, slot, counting);
          var struck := Struck(s, slot);
          ActsGoOn(struck, changed, counting);
          ClosingGoesOn(AllDone(struck, changed), counting);
          GoingOnGoesOn(s, struck, AllDone(struck, changed), counting, counting);
          GoingOnGoesOn(s, AllDone(struck, changed), Done(s, act), counting, counting);
      }
    }
  }

  lemma {:induction false} BallotGoesOn(s: State, act: Act, counting: multiset<int>)
    requires GoodWithin(s, counting) && act.CastBallot? && Awaits(s, act.slot) && IsOption(act.option)
    ensures GoesOn(s, Done(s, act), counting) && CloseGood(Done(s, act))
    decreases act, 0
  {
    var more := counting + multiset{act.slot};
    var tallied := Tallied(s, act.slot, act.option == "option1");
    TallyingGoesOn(s, act.slot, act.option == "option1", counting);
    var heard := AllDone(tallied, act.cast);
    ActsGoOn(tallied, act.cast, more);
    GoingOnGoesOn(s, tallied, heard, more, more);
    var cut := Cut(heard, act.slot);
    CuttingGoesOn(heard, act.slot, counting);
    GoingOnGoesOn(s, heard, cut, more, counting);
    var shown := AllDone(cut, act.changed);
    ActsGoOn(cut, act.changed, counting);
    GoingOnGoesOn(s, cut, shown, counting, counting);
    ClosingGoesOn(shown, counting);
    GoingOnGoesOn(s, shown, Done(s, act), counting, counting);
  }

  lemma {:induction false} ActsGoOn(s: State, acts: Acts, counting: multiset<int>)
    requires GoodWithin(s, counting)
    ensures GoesOn(s, AllDone(s, acts), counting) && (CloseGood(s) ==> CloseGood(AllDone(s, acts)))
    decreases acts
  {
    if acts.And? {
      ActGoesOn(s, acts.act, counting);
      ActsGoOn(Done(s, acts.act), acts.rest, counting);
      GoingOnGoesOn(s, Done(s, acts.act), AllDone(s, acts), counting, counting);
    }
  }

  lemma GoingOnIsSteady(s: State, t: State)
    requires Good(s) && Armed(s) && s.running.Some? && GoesOn(s, t, multiset{}) && CloseGood(t)
    ensures Kept(s, t)
  {
  }

  lemma {:induction false} ActKeeps(s: State, act: Act)
    requires Good(s) && Armed(s)
    ensures Kept(s, Done(s, act))
  {
    if s.running.Some? {
      ActGoesOn(s, act, multiset{});
      GoingOnIsSteady(s, Done(s, act));
    }
  }

  lemma BeginningKeeps(s: State, humans: set<int>, request: Request)
    requires Good(s) && s.running.None? && |Voters(humans)| > 0
    ensures var t := Begun(s, humans, request);
            && GoodWithin(t, multiset{}) && CloseGood(t) && Strays(t) == s.timers
            && forall vote: nat :: Ending(t, vote) <==> Ending(s, vote)
  {
    NoRecordsYet(s.records, s.started, true);
    NoRecordsYet(s.records, s.started, false);
  }

  lemma {:induction false} OpenKeeps(s: State, humans: set<int>, request: Request, changed: Acts)
    requires Good(s) && Armed(s)
    ensures Kept(s, Opened(s, humans, request, changed))
  {
    if s.running.None? && request.hasPassed && |Voters(humans)| > 0 {
      var begun := Begun(s, humans, request);
      BeginningKeeps(s, humans, request);
      ActsGoOn(begun, changed, multiset{});
      LimitingKeeps(s, begun, AllDone(begun, changed));
    }
  }

  lemma LimitingKeeps(s: State, begun: State, shown: State)
    requires Good(s) && s.running.None? && begun.running.Some? && begun.running.value.id == s.started
    requires begun == s.(running := begun.running, issueActive := true, nextTimer := s.nextTimer + 1,
                         started := s.started + 1)
    requires begun.running.value.timeout == s.nextTimer && Strays(begun) == s.timers
    requires forall vote: nat :: Ending(begun, vote) <==> Ending(s, vote)
    requires GoesOn(begun, shown, multiset{}) && CloseGood(shown)
    ensures Kept(s, Limited(shown))
  {
    var t := Limited(shown);
    forall k ensures k in Strays(t) <==> k in Strays(s) {
      assert k in Strays(t) <==> k in Strays(shown);
    }
    forall vote: nat ensures Ending(t, vote) <==> Ending(s, vote) {
      assert Ending(t, vote) <==> Ending(begun, vote);
    }
  }

  // ---- Ending a vote ----

  function TakenOut(s: State): State {
    s.(running := None)
  }

  lemma TakingOutKeeps(s: State)
    requires Good(s) && s.running.Some?
    ensures Good(TakenOut(s)) && Armed(TakenOut(s)) && Strays(TakenOut(s)) == s.timers
    ensures forall vote: nat :: Ending(TakenOut(s), vote) <==> Ending(s, vote) || vote == s.running.value.id
  {
  }

  /** The state in which a taken-out ballot is announced. */
  ghost predicate Awaited(s: State, ballot: Ballot) {
    && Good(s) && Armed(s) && Ending(s, ballot.id)
    && ballot.tally.yes == Votes(s.records, ballot.id, true)
    && ballot.tally.no == Votes(s.records, ballot.id, false)
    && ballot.tally.Cast() <= ballot.tally.eligible + s.spoilt[ballot.id]
  }

  lemma AnnouncingKeeps(s: State, ballot: Ballot, reason: EndReason)
    requires Awaited(s, ballot)
    ensures var t := Announced(s, ballot, reason);
            && Good(t) && Armed(t)
            && forall vote: nat :: Ending(t, vote) <==> Ending(s, vote) && vote != ballot.id
  {
    var t := Announced(s, ballot, reason);
    forall vote: nat ensures HasOutcome(t, vote) <==> HasOutcome(s, vote) || vote == ballot.id {
      if HasOutcome(s, vote) {
        var i :| 0 <= i < |s.outcomes| && s.outcomes[i].vote == vote;
        assert t.outcomes[i].vote == vote;
      }
      assert t.outcomes[|s.outcomes|].vote == ballot.id;
    }
    forall i | 0 <= i < |s.outcomes| ensures t.outcomes[i].vote != ballot.id {
      assert t.outcomes[i] == s.outcomes[i];
      assert HasOutcome(s, s.outcomes[i].vote);
    }
  }

  /** From the vote running in s, through its first callback, to its announcement. */
  ghost predicate Asked(s: State, asked: State, reason: EndReason) {
    Good(s) && s.running.Some? && Kept(TakenOut(s), asked)
  }

  lemma OtherTimersKeepBooks(s: State, t: State)
    requires Good(s) && t == s.(timers := t.timers)
    ensures TallyGood(t, 0) && CloseGood(t) && RecordsGood(t, multiset{}) && OutcomesGood(t)
  {
    assert Unspoilt(t, multiset{}) == Unspoilt(s, multiset{});
  }

  lemma ReleasingKeeps(s: State, asked: State, done: State, reason: EndReason)
    requires Asked(s, asked, reason) && Kept(Announced(asked, s.running.value, reason), done)
    ensures Good(Released(done, s.running.value)) && Armed(Released(done, s.running.value))
  {
    OtherTimersKeepBooks(done, Released(done, s.running.value));
    TakingOutKeeps(s);
    ReleasingKeepsTimers(s, done);
  }

  lemma ReleasingKeepsTimers(s: State, done: State)
    requires s.running.Some? && OwnsTimers(s) && OwnsTimers(done) && TimersGood(done) && Armed(done)
    requires s.running.value.id < s.started && Newer(TakenOut(s), done)
    ensures var t := Released(done, s.running.value); OwnsTimers(t) && TimersGood(t) && Armed(t)
  {
  }

  /** Dropping the ballot removes its own timers and no others. */
  lemma StraysAfterRelease(s: State, done: State)
    requires s.running.Some? && OwnsTimers(s) && Strays(done) == s.timers && Newer(TakenOut(s), done)
    ensures Strays(Released(done, s.running.value)) == Strays(s)
  {
    var t := Released(done, s.running.value);
    forall k ensures k in Strays(t) <==> k in Strays(s) {
      assert k in Strays(t) ==> k in Strays(done);
      assert k in Strays(s) ==> k in Strays(done);
    }
    forall k | k in Strays(t) ensures Strays(t)[k] == Strays(s)[k] {
      assert Strays(t)[k] == Strays(done)[k];
    }
  }

  lemma ReleasingKeepsEnding(s: State, asked: State, done: State, reason: EndReason)
    requires Asked(s, asked, reason) && Kept(Announced(asked, s.running.value, reason), done)
    ensures forall vote: nat :: Ending(Released(done, s.running.value), vote) <==> Ending(s, vote)
  {
    var told := Announced(asked, s.running.value, reason);
    TakingOutKeeps(s);
    AnnouncingKeeps(asked, s.running.value, reason);
    forall vote: nat ensures Ending(Released(done, s.running.value), vote) <==> Ending(s, vote) {
      assert Ending(Released(done, s.running.value), vote) <==> Ending(done, vote);
      assert Ending(done, vote) <==> Ending(told, vote);
    }
  }

  lemma ReleasingKeepsBallots(s: State, asked: State, done: State, reason: EndReason)
    requires Asked(s, asked, reason) && Kept(Announced(asked, s.running.value, reason), done)
    ensures forall vote: nat, yes: bool | Ending(s, vote) ::
              Votes(done.records, vote, yes) == Votes(s.records, vote, yes)
    ensures forall vote: nat | vote < s.started && !Runs(s, vote) :: done.spoilt[vote] == s.spoilt[vote]
  {
    TakingOutKeeps(s);
    AnnouncingKeeps(asked, s.running.value, reason);
  }

  lemma ReleasingIsSteady(s: State, asked: State, done: State, reason: EndReason)
    requires Asked(s, asked, reason) && Kept(Announced(asked, s.running.value, reason), done)
    ensures Steady(s, Released(done, s.running.value))
  {
    ReleasingKeepsEnding(s, asked, done, reason);
    ReleasingKeepsBallots(s, asked, done, reason);
    assert Strays(TakenOut(s)) == s.timers;
    assert Strays(Announced(asked, s.running.value, reason)) == Strays(asked);
    StraysAfterRelease(s, done);
  }

  lemma {:induction false} FinishKeeps(s: State, reason: EndReason)
    requires Good(s) && s.running.Some?
    ensures Kept(s, Finished(s, reason))
    decreases Weight(s), 0
  {
    var ballot := s.running.value;
    var out := TakenOut(s);
    TakingOutKeeps(s);
    if reason != Cancelled {
      ExecKeeps(out, ballot.request.inPassed);
    }
    var asked := if reason != Cancelled then Exec(out, ballot.request.inPassed) else out;
    AnnouncingKeeps(asked, ballot, reason);
    var told := Announced(asked, ballot, reason);
    ExecKeeps(told, ballot.request.inFinished);
    var done := Exec(told, ballot.request.inFinished);
    ReleasingKeeps(s, asked, done, reason);
    ReleasingIsSteady(s, asked, done, reason);
  }

  lemma {:induction false} CallKeeps(s: State, call: Call)
    requires Good(s) && Armed(s)
    ensures Kept(s, Made(s, call))
    decreases Weight(s) + CallSize(call), 1
  {
    match call {
      case Start(humans, request, changed) => OpenKeeps(s, humans, request, changed);
      case Do(act) => ActKeeps(s, act);
      case End(reason) =>
        if s.running.Some? {
          FinishKeeps(s, reason);
        }
    }
  }

  lemma {:induction false} ExecKeeps(s: State, calls: Calls)
    requires Good(s) && Armed(s)
    ensures Kept(s, Exec(s, calls))
    decreases Weight(s) + CallsSize(calls), 2
  {
    match calls {
      case NoCalls =>
      case Then(call, rest) =>
        CallKeeps(s, call);
        ExecKeeps(Made(s, call), rest);
    }
  }

  // ---- Whole runs ----

  /** Between events: nothing is ending, and every timer the scheduler holds is the running vote's. */
  ghost predicate Quiet(s: State) {
    Good(s) && Armed(s) && Strays(s) == map[] && forall vote: nat :: !Ending(s, vote)
  }

  lemma FiringKeepsQuiet(s: State, timer: nat)
    requires Quiet(s) && timer in s.timers && s.running.Some?
    ensures Quiet(Finished(s.(timers := s.timers - {timer}), s.timers[timer].reason))
  {
    var m := s.(timers := s.timers - {timer});
    assert timer !in Strays(s);
    forall k ensures k !in Strays(m) {
      assert k !in Strays(s);
    }
    forall vote: nat ensures !Ending(m, vote) {
      assert !Ending(s, vote);
    }
    FinishKeeps(m, s.timers[timer].reason);
  }

  lemma {:induction false} EveryRunIsQuiet(events: seq<Event>)
    ensures Quiet(After(events))
  {
    if events != [] {
      EveryRunIsQuiet(events[..|events| - 1]);
      var s := After(events[..|events| - 1]);
      match events[|events| - 1] {
        case Called(call) => CallKeeps(s, call);
        case Fired(timer) =>
          if timer in s.timers && s.running.Some? {
            FiringKeepsQuiet(s, timer);
          }
      }
    }
  }

  // ---- Main results ----

  /** While a vote runs, the ballots counted and the slots still waited for make up the eligible and one more for
      each spoilt ballot, so it adds up exactly when none is; the tally counts exactly the ballots cast in this
      vote; and a close is scheduled exactly when no more are waited for than are spoilt. */
  lemma RunningVoteAddsUp(events: seq<Event>)
    requires After(events).running.Some?
    ensures var s := After(events);
            var ballot := s.running.value;
            && ballot.tally.Cast() + |ballot.waiting| == ballot.tally.eligible + s.spoilt[ballot.id]
            && ballot.tally.yes == Votes(s.records, ballot.id, true)
            && ballot.tally.no == Votes(s.records, ballot.id, false)
            && (|ballot.waiting| <= s.spoilt[ballot.id] <==>
                exists k :: k in s.timers && s.timers[k] == Timer(ballot.id, AllVoted))
  {
    EveryRunIsQuiet(events);
    var s := After(events);
    if s.running.value.close.Some? {
      assert s.timers[s.running.value.close.value] == Timer(s.running.value.id, AllVoted);
    }
  }

  /** No slot is counted twice in a vote without spoilt ballots, and every announced tally counts exactly the
      vote's ballots. */
  lemma NoSlotIsCountedTwice(events: seq<Event>, vote: nat)
    requires After(events).spoilt[vote] == 0
    ensures var s := After(events);
            && OncePerSlot(s.records, vote)
            && forall i | 0 <= i < |s.outcomes| && s.outcomes[i].vote == vote ::
                 var o := s.outcomes[i];
                 && o.tally.yes == Votes(s.records, vote, true) && o.tally.no == Votes(s.records, vote, false)
                 && o.tally.Cast() <= o.tally.eligible && (o.reason == Cancelled ==> !o.passed)
  {
    EveryRunIsQuiet(events);
    var s := After(events);
    if Runs(s, vote) {
      assert Unspoilt(s, multiset{});
    }
  }

  /** Between events every vote ever started either runs or has been announced, once. */
  lemma EachVoteEndsOnce(events: seq<Event>, vote: nat)
    requires vote < After(events).started
    ensures var s := After(events);
            && (Runs(s, vote) <==> !HasOutcome(s, vote))
            && forall i, j | 0 <= i < |s.outcomes| && 0 <= j < |s.outcomes| ::
                 s.outcomes[i].vote == vote && s.outcomes[j].vote == vote ==> i == j
  {
    EveryRunIsQuiet(events);
    assert !Ending(After(events), vote);
  }

  predicate Announces(s: State, ballot: Ballot, reason: EndReason) {
    exists i :: 0 <= i < |s.outcomes| && s.outcomes[i].vote == ballot.id
             && s.outcomes[i].tally == ballot.tally && s.outcomes[i].reason == reason
             && s.outcomes[i].passed == (reason != Cancelled && ballot.request.passes(ballot.tally))
  }

  /** Finish announces the ballot it took out, with the reason it was given; it passed if it was not cancelled and
      the caller's own test of the tally says so. */
  lemma FinishAnnounces(s: State, reason: EndReason)
    requires Good(s) && s.running.Some?
    ensures Announces(Finished(s, reason), s.running.value, reason)
  {
    var ballot := s.running.value;
    TakingOutKeeps(s);
    ExecKeeps(TakenOut(s), ballot.request.inPassed);
    var asked := if reason != Cancelled then Exec(TakenOut(s), ballot.request.inPassed) else TakenOut(s);
    AnnouncingKeeps(asked, ballot, reason);
    var told := Announced(asked, ballot, reason);
    ExecKeeps(told, ballot.request.inFinished);
    assert Finished(s, reason).outcomes[|asked.outcomes|] == told.outcomes[|asked.outcomes|];
  }

  /** A timer that fires always finds the vote that set it still running, and ends that vote and no other: even
      when callbacks start votes of their own. When it is the close, the ballots cast reach the
      eligible number. */
  lemma FiredTimerEndsItsOwnVote(events: seq<Event>, timer: nat)
    requires timer in After(events).timers
    ensures var s, t := After(events), After(events + [Fired(timer)]);
            && s.running.Some? && s.timers[timer].vote == s.running.value.id
            && (s.timers[timer].reason == AllVoted ==> s.running.value.tally.Cast() >= s.running.value.tally.eligible)
            && Announces(t, s.running.value, s.timers[timer].reason)
  {
    EveryRunIsQuiet(events);
    var s := After(events);
    assert timer !in Strays(s);
    assert (events + [Fired(timer)])[..|events|] == events;
    var m := s.(timers := s.timers - {timer});
    FinishAnnounces(m, s.timers[timer].reason);
    assert Apply(s, Fired(timer)) == Finished(m, s.timers[timer].reason);
  }

  // ---- The panel ----

  ghost predicate PanelGood(s: State) {
    s.issueActive <==> s.running.Some? && s.muted != Some(s.running.value.id)
  }

  ghost predicate MutedGood(s: State) {
    s.muted.Some? ==> s.muted.value < s.started
  }

  lemma {:induction false} FinishKeepsPanel(s: State, reason: EndReason)
    requires Good(s) && s.running.Some? && MutedGood(s)
    ensures PanelGood(Finished(s, reason)) && MutedGood(Finished(s, reason))
    decreases Weight(s), 0
  {
    var ballot := s.running.value;
    TakingOutKeeps(s);
    if reason != Cancelled {
      ExecKeeps(TakenOut(s), ballot.request.inPassed);
      ExecKeepsPanel(TakenOut(s), ballot.request.inPassed);
    }
    var asked := if reason != Cancelled then Exec(TakenOut(s), ballot.request.inPassed) else TakenOut(s);
    AnnouncingKeeps(asked, ballot, reason);
    ExecKeepsPanel(Announced(asked, ballot, reason), ballot.request.inFinished);
  }

  lemma {:induction false} ExecKeepsPanel(s: State, calls: Calls)
    requires Good(s) && Armed(s) && MutedGood(s)
    ensures MutedGood(Exec(s, calls)) && (PanelGood(s) ==> PanelGood(Exec(s, calls)))
    decreases Weight(s) + CallsSize(calls), 2
  {
    match calls {
      case NoCalls =>
      case Then(call, rest) =>
        CallKeeps(s, call);
        CallKeepsPanel(s, call);
        ExecKeepsPanel(Made(s, call), rest);
    }
  }

  lemma {:induction false} CallKeepsPanel(s: State, call: Call)
    requires Good(s) && Armed(s) && MutedGood(s)
    ensures MutedGood(Made(s, call)) && (PanelGood(s) ==> PanelGood(Made(s, call)))
    decreases Weight(s) + CallSize(call), 1
  {
    if call.End? && s.running.Some? {
      FinishKeepsPanel(s, call.reason);
    }
  }

  /** Between events the controller takes key presses exactly while a vote runs that was not already running when
      another vote was announced; only a vote started by that other vote's Passed can have been. */
  lemma {:induction false} PanelIsOpenUnlessMuted(events: seq<Event>)
    ensures PanelGood(After(events)) && MutedGood(After(events))
  {
    if events != [] {
      var before, last := events[..|events| - 1], events[|events| - 1];
      PanelIsOpenUnlessMuted(before);
      EveryRunIsQuiet(before);
      var s := After(before);
      match last {
        case Called(call) =>
          ExecKeepsPanel(s, Then(call, NoCalls));
          assert Exec(s, Then(call, NoCalls)) == Exec(Made(s, call), NoCalls) == Made(s, call);
        case Fired(timer) =>
          if timer in s.timers && s.running.Some? {
            FinishKeepsPanel(s.(timers := s.timers - {timer}), s.timers[timer].reason);
          }
      }
    }
  }

  /** A vote started from another's Passed runs with its panel shut, so no one can press a key in it. */
  lemma PassedStartingAVoteShutsItsPanel(events: seq<Event>, reason: EndReason, humans: set<int>, next: Request)
    requires After(events).running.Some? && reason != Cancelled
    requires var request := After(events).running.value.request;
             request.inPassed == Then(Start(humans, next, NoActs), NoCalls) && request.inFinished == NoCalls
    requires next.hasPassed && Voters(humans) != {}
    ensures var t := After(events + [Called(End(reason))]);
            Runs(t, After(events).started) && !t.issueActive
  {
    var s := After(events);
    assert (events + [Called(End(reason))])[..|events|] == events;
    var begun := Opened(TakenOut(s), humans, next, NoActs);
    assert begun.running.Some?;
    assert Exec(TakenOut(s), Then(Start(humans, next, NoActs), NoCalls)) == Exec(begun, NoCalls) == begun;
    var told := Announced(begun, s.running.value, reason);
    assert Finished(s, reason) == Released(Exec(told, NoCalls), s.running.value);
    assert Exec(told, NoCalls) == told;
    assert After(events + [Called(End(reason))]) == Made(s, End(reason));
  }

  // ---- When a ballot is spoilt ----

  /** Nothing the act sets off settles the slot of a ballot that is being counted as it does: counting are those
      slots. Only a ballot that counts has listeners. */
  ghost predicate Clean(s: State, act: Act, counting: set<int>)
    requires s.running.Some?
    decreases act
  {
    Awaits(s, act.slot) ==>
      match act
      case CastBallot(slot, option, cast, changed) =>
        IsOption(option) ==>
          var tallied := Tallied(s, slot, option == "option1");
          && slot !in counting && AllClean(tallied, cast, counting + {slot})
          && AllClean(Cut(AllDone(tallied, cast), slot), changed, counting)
      case DropVoter(slot, changed) => slot !in counting && AllClean(Struck(s, slot), changed, counting)
  }

  ghost predicate AllClean(s: State, acts: Acts, counting: set<int>)
    requires s.running.Some?
    decreases acts
  {
    acts.And? ==> Clean(s, acts.act, counting) && AllClean(Done(s, acts.act), acts.rest, counting)
  }

  /** How many of this vote's ballots are spoilt. */
  function Spoilt(s: State): nat
    requires s.running.Some?
  {
    s.spoilt[s.running.value.id]
  }

  ghost predicate StillWaited(s: State, counting: set<int>)
    requires s.running.Some?
  {
    counting <= s.running.value.waiting
  }

  lemma {:induction false} SpoiltOnlyGrows(s: State, act: Act)
    requires s.running.Some?
    ensures Spoilt(Done(s, act)) >= Spoilt(s)
    decreases act
  {
    if Awaits(s, act.slot) {
      match act {
        case CastBallot(slot, option, cast, changed) =>
          if IsOption(option) {
            var heard := AllDone(Tallied(s, slot, option == "option1"), cast);
            SpoiltOnlyGrowsAll(Tallied(s, slot, option == "option1"), cast);
            SpoiltOnlyGrowsAll(Cut(heard, slot), changed);
          }
        case DropVoter(slot, changed) => SpoiltOnlyGrowsAll(Struck(s, slot), changed);
      }
    }
  }

  lemma {:induction false} SpoiltOnlyGrowsAll(s: State, acts: Acts)
    requires s.running.Some?
    ensures Spoilt(AllDone(s, acts)) >= Spoilt(s)
    decreases acts
  {
    if acts.And? {
      SpoiltOnlyGrows(s, acts.act);
      SpoiltOnlyGrowsAll(Done(s, acts.act), acts.rest);
    }
  }

  lemma {:induction false} CleanExactly(s: State, act: Act, counting: set<int>)
    requires s.running.Some? && StillWaited(s, counting)
    requires forall slot | slot in counting :: IsValidSlot(slot)
    ensures Clean(s, act, counting)
       <==> Spoilt(Done(s, act)) == Spoilt(s) && StillWaited(Done(s, act), counting)
    decreases act
  {
    if Awaits(s, act.slot) {
      match act {
        case CastBallot(slot, option, cast, changed) =>
          if IsOption(option) {
            CleanBallotExactly(s, act, counting);
          }
        case DropVoter(slot, changed) =>
          SpoiltOnlyGrowsAll(Struck(s, slot), changed);
          if slot !in counting {
            AllCleanExactly(Struck(s, slot), changed, counting);
          }
      }
    }
  }

  lemma {:induction false} CleanBallotExactly(s: State, act: Act, counting: set<int>)
    requires s.running.Some? && StillWaited(s, counting)
    requires forall slot | slot in counting :: IsValidSlot(slot)
    requires act.CastBallot? && Awaits(s, act.slot) && IsOption(act.option)
    ensures Clean(s, act, counting)
       <==> Spoilt(Done(s, act)) == Spoilt(s) && StillWaited(Done(s, act), counting)
    decreases act, 0
  {
    var slot := act.slot;
    var tallied := Tallied(s, slot, act.option == "option1");
    var heard := AllDone(tallied, act.cast);
    var cut := Cut(heard, slot);
    SpoiltOnlyGrowsAll(tallied, act.cast);
    SpoiltOnlyGrowsAll(cut, act.changed);
    if slot in counting {
      assert slot !in Done(s, act).running.value.waiting;
    } else {
      AllCleanExactly(tallied, act.cast, counting + {slot});
      if StillWaited(cut, counting) {
        AllCleanExactly(cut, act.changed, counting);
      }
    }
  }

  lemma {:induction false} AllCleanExactly(s: State, acts: Acts, counting: set<int>)
    requires s.running.Some? && StillWaited(s, counting)
    requires forall slot | slot in counting :: IsValidSlot(slot)
    ensures AllClean(s, acts, counting)
       <==> Spoilt(AllDone(s, acts)) == Spoilt(s) && StillWaited(AllDone(s, acts), counting)
    decreases acts
  {
    if acts.And? {
      SpoiltOnlyGrows(s, acts.act);
      SpoiltOnlyGrowsAll(Done(s, acts.act), acts.rest);
      CleanExactly(s, acts.act, counting);
      if StillWaited(Done(s, acts.act), counting) {
        AllCleanExactly(Done(s, acts.act), acts.rest, counting);
      }
    }
  }

  /** A running vote that adds up goes on adding up through an act, and all its listeners do, exactly when none
      of them, at any depth, votes for or drops a slot whose own ballot is still being counted. */
  lemma {:induction false} ActAddsUpExactlyWhen(s: State, act: Act)
    requires Good(s) && Armed(s) && s.running.Some? && Spoilt(s) == 0
    ensures var ballot := Done(s, act).running.value;
            ballot.tally.Cast() + |ballot.waiting| == ballot.tally.eligible <==> Clean(s, act, {})
  {
    ActKeeps(s, act);
    CleanExactly(s, act, {});
  }

  function Vote(slot: int, cast: Acts): Act {
    CastBallot(slot, "option1", cast, NoActs)
  }

  function Only(act: Act): Acts {
    And(act, NoActs)
  }

  lemma VoteUnheard(s: State, slot: int)
    requires Awaits(s, slot)
    ensures Done(s, Vote(slot, NoActs)) == ClosedIfAllVoted(Cut(Tallied(s, slot, true), slot))
  {
    var tallied := Tallied(s, slot, true);
    assert AllDone(tallied, NoActs) == tallied;
    assert AllDone(Cut(tallied, slot), NoActs) == Cut(tallied, slot);
  }

  lemma VoteHeard(s: State, slot: int, act: Act)
    requires Awaits(s, slot)
    ensures Done(s, Vote(slot, Only(act))) == ClosedIfAllVoted(Cut(Done(Tallied(s, slot, true), act), slot))
  {
    var tallied := Tallied(s, slot, true);
    assert AllDone(tallied, Only(act)) == AllDone(Done(tallied, act), NoActs) == Done(tallied, act);
    assert AllDone(Cut(Done(tallied, act), slot), NoActs) == Cut(Done(tallied, act), slot);
  }

  /** A listener that votes again for the slot has it counted twice. */
  lemma {:induction false} ListenerCanCountASlotTwice(s: State, slot: int)
    requires Awaits(s, slot)
    ensures var t := Done(s, Vote(slot, Only(Vote(slot, NoActs))));
            && t.records == s.records + [Record(s.running.value.id, slot, true), Record(s.running.value.id, slot, true)]
            && Spoilt(t) == Spoilt(s) + 1 && t.running.value.waiting == s.running.value.waiting - {slot}
  {
    VoteHeard(s, slot, Vote(slot, NoActs));
    VoteUnheard(Tallied(s, slot, true), slot);
  }

  /** So has one that hears a ballot cast by another listener: no listener of the outer ballot touches its slot. */
  lemma {:induction false} NestedListenerCanCountASlotTwice(s: State, slot: int, other: int)
    requires Awaits(s, slot) && Awaits(s, other) && slot != other
    ensures var twice := Vote(other, Only(Vote(other, NoActs)));
            var t := Done(s, Vote(slot, Only(twice)));
            var r := Record(s.running.value.id, other, true);
            && t.records == s.records + [Record(s.running.value.id, slot, true), r, r]
            && Spoilt(t) == Spoilt(s) + 1
  {
    var tallied := Tallied(s, slot, true);
    VoteHeard(s, slot, Vote(other, Only(Vote(other, NoActs))));
    ListenerCanCountASlotTwice(tallied, other);
  }

  // ---- The tally and the options cast ----

  /** What one ballot does to the tally: the first option is a yes, the second a no, and nothing else counts. */
  lemma {:induction false} OptionCountsOnItsSide(s: State, slot: int, option: string)
    requires s.running.Some?
    ensures var before, after := s.running.value, Done(s, CastBallot(slot, option, NoActs, NoActs)).running.value;
            if IsValidSlot(slot) && slot in before.waiting && option == "option1" then
              && after.tally == Tally(before.tally.eligible, before.tally.yes + 1, before.tally.no)
              && after.waiting == before.waiting - {slot}
            else if IsValidSlot(slot) && slot in before.waiting && option == "option2" then
              && after.tally == Tally(before.tally.eligible, before.tally.yes, before.tally.no + 1)
              && after.waiting == before.waiting - {slot}
            else after == before
  {
    if Awaits(s, slot) && IsOption(option) {
      var tallied := Tallied(s, slot, option == "option1");
      assert AllDone(tallied, NoActs) == tallied;
      assert AllDone(Cut(tallied, slot), NoActs) == Cut(tallied, slot);
    }
  }

  /** And what a leaver does. */
  lemma {:induction false} LeaverIsNoLongerEligible(s: State, slot: int)
    requires s.running.Some?
    ensures var before, after := s.running.value, Done(s, DropVoter(slot, NoActs)).running.value;
            if IsValidSlot(slot) && slot in before.waiting then
              && after.tally == Tally(before.tally.eligible - 1, before.tally.yes, before.tally.no)
              && after.waiting == before.waiting - {slot}
            else after == before
  {
    if Awaits(s, slot) {
      assert AllDone(Struck(s, slot), NoActs) == Struck(s, slot);
    }
  }

  // How many ballots of a vote count with an option, read off the calls as they are carried out.

  ghost function ActCasts(s: State, act: Act, vote: nat, option: string): nat
    decreases act
  {
    if !Awaits(s, act.slot) then 0 else
    match act
    case CastBallot(slot, chosen, cast, changed) =>
      if chosen != "option1" && chosen != "option2" then 0 else
      var tallied := Tallied(s, slot, chosen == "option1");
      (if chosen == option && s.running.value.id == vote then 1 else 0)
      + ActsCasts(tallied, cast, vote, option)
      + ActsCasts(Cut(AllDone(tallied, cast), slot), changed, vote, option)
    case DropVoter(slot, changed) => ActsCasts(Struck(s, slot), changed, vote, option)
  }

  ghost function ActsCasts(s: State, acts: Acts, vote: nat, option: string): nat
    decreases acts
  {
    if acts.NoActs? then 0
    else ActCasts(s, acts.act, vote, option) + ActsCasts(Done(s, acts.act), acts.rest, vote, option)
  }

  ghost function FinishCasts(s: State, reason: EndReason, vote: nat, option: string): nat
    requires s.running.Some?
    decreases Weight(s), 0
  {
    var ballot := s.running.value;
    var out := TakenOut(s);
    var asked := if reason != Cancelled then Exec(out, ballot.request.inPassed) else out;
    (if reason != Cancelled then CallsCasts(out, ballot.request.inPassed, vote, option) else 0)
    + CallsCasts(Announced(asked, ballot, reason), ballot.request.inFinished, vote, option)
  }

  ghost function CallCasts(s: State, call: Call, vote: nat, option: string): nat
    decreases Weight(s) + CallSize(call), 1
  {
    match call
    case Start(humans, request, changed) =>
      if s.running.Some? || !request.hasPassed || |Voters(humans)| == 0 then 0
      else ActsCasts(Begun(s, humans, request), changed, vote, option)
    case Do(act) => ActCasts(s, act, vote, option)
    case End(reason) => if s.running.Some? then FinishCasts(s, reason, vote, option) else 0
  }

  ghost function CallsCasts(s: State, calls: Calls, vote: nat, option: string): nat
    decreases Weight(s) + CallsSize(calls), 2
  {
    match calls
    case NoCalls => 0
    case Then(call, rest) => CallCasts(s, call, vote, option) + CallsCasts(Made(s, call), rest, vote, option)
  }

  ghost function RunCasts(events: seq<Event>, vote: nat, option: string): nat {
    if events == [] then 0 else
    var s := After(events[..|events| - 1]);
    RunCasts(events[..|events| - 1], vote, option)
    + match events[|events| - 1]
      case Called(call) => CallCasts(s, call, vote, option)
      case Fired(timer) =>
        if timer !in s.timers || s.running.None? then 0
        else FinishCasts(s.(timers := s.timers - {timer}), s.timers[timer].reason, vote, option)
  }

  /** The records have gained so many of the vote on that side. */
  predicate Gained(s: State, t: State, vote: nat, option: string, n: nat) {
    Votes(t.records, vote, option == "option1") == Votes(s.records, vote, option == "option1") + n
  }

  lemma TallyGains(s: State, slot: int, chosen: string, vote: nat, option: string)
    requires Awaits(s, slot) && IsOption(chosen) && IsOption(option)
    ensures Gained(s, Tallied(s, slot, chosen == "option1"), vote, option,
                   if chosen == option && s.running.value.id == vote then 1 else 0)
  {
    var t := Tallied(s, slot, chosen == "option1");
    assert t.records[..|t.records| - 1] == s.records;
  }

  lemma {:induction false} ActGains(s: State, act: Act, vote: nat, option: string)
    requires IsOption(option)
    ensures Gained(s, Done(s, act), vote, option, ActCasts(s, act, vote, option))
    decreases act
  {
    if Awaits(s, act.slot) {
      match act {
        case CastBallot(slot, chosen, cast, changed) =>
          if IsOption(chosen) {
            var tallied := Tallied(s, slot, chosen == "option1");
            TallyGains(s, slot, chosen, vote, option);
            ActsGain(tallied, cast, vote, option);
            var heard := Cut(AllDone(tallied, cast), slot);
            ActsGain(heard, changed, vote, option);
            assert heard.records == AllDone(tallied, cast).records;
            assert Done(s, act).records == AllDone(heard, changed).records;
          }
        case DropVoter(slot, changed) => ActsGain(Struck(s, slot), changed, vote, option);
      }
    }
  }

  lemma {:induction false} ActsGain(s: State, acts: Acts, vote: nat, option: string)
    requires IsOption(option)
    ensures Gained(s, AllDone(s, acts), vote, option, ActsCasts(s, acts, vote, option))
    decreases acts
  {
    if acts.And? {
      ActGains(s, acts.act, vote, option);
      ActsGain(Done(s, acts.act), acts.rest, vote, option);
    }
  }

  lemma {:induction false} FinishGains(s: State, reason: EndReason, vote: nat, option: string)
    requires s.running.Some? && IsOption(option)
    ensures Gained(s, Finished(s, reason), vote, option, FinishCasts(s, reason, vote, option))
    decreases Weight(s), 0
  {
    var ballot := s.running.value;
    var out := TakenOut(s);
    if reason != Cancelled {
      CallsGain(out, ballot.request.inPassed, vote, option);
    }
    var asked := if reason != Cancelled then Exec(out, ballot.request.inPassed) else out;
    CallsGain(Announced(asked, ballot, reason), ballot.request.inFinished, vote, option);
  }

  lemma {:induction false} CallGains(s: State, call: Call, vote: nat, option: string)
    requires IsOption(option)
    ensures Gained(s, Made(s, call), vote, option, CallCasts(s, call, vote, option))
    decreases Weight(s) + CallSize(call), 1
  {
    match call {
      case Start(humans, request, changed) =>
        if s.running.None? && request.hasPassed && |Voters(humans)| > 0 {
          ActsGain(Begun(s, humans, request), changed, vote, option);
        }
      case Do(act) => ActGains(s, act, vote, option);
      case End(reason) =>
        if s.running.Some? {
          FinishGains(s, reason, vote, option);
        }
    }
  }

  lemma {:induction false} CallsGain(s: State, calls: Calls, vote: nat, option: string)
    requires IsOption(option)
    ensures Gained(s, Exec(s, calls), vote, option, CallsCasts(s, calls, vote, option))
    decreases Weight(s) + CallsSize(calls), 2
  {
    match calls {
      case NoCalls =>
      case Then(call, rest) =>
        CallGains(s, call, vote, option);
        CallsGain(Made(s, call), rest, vote, option);
    }
  }

  lemma {:induction false} RunGains(events: seq<Event>, vote: nat, option: string)
    requires IsOption(option)
    ensures Votes(After(events).records, vote, option == "option1") == RunCasts(events, vote, option)
  {
    if events != [] {
      var before := events[..|events| - 1];
      RunGains(before, vote, option);
      match events[|events| - 1] {
        case Called(call) => CallGains(After(before), call, vote, option);
        case Fired(timer) =>
          var s := After(before);
          if timer in s.timers && s.running.Some? {
            FinishGains(s.(timers := s.timers - {timer}), s.timers[timer].reason, vote, option);
          }
      }
    }
  }

  /** In every run, listeners and callbacks included, an announced tally and that of a running vote have as many
      yes as ballots counted with the first option, and as many no as with the second. */
  lemma {:induction false} TallyCountsTheOptionsCast(events: seq<Event>)
    ensures var s := After(events);
            && (forall i | 0 <= i < |s.outcomes| ::
                  && s.outcomes[i].tally.yes == RunCasts(events, s.outcomes[i].vote, "option1")
                  && s.outcomes[i].tally.no == RunCasts(events, s.outcomes[i].vote, "option2"))
            && (s.running.Some? ==>
                  && s.running.value.tally.yes == RunCasts(events, s.running.value.id, "option1")
                  && s.running.value.tally.no == RunCasts(events, s.running.value.id, "option2"))
  {
    EveryRunIsQuiet(events);
    forall vote: nat
      ensures Votes(After(events).records, vote, true) == RunCasts(events, vote, "option1")
      ensures Votes(After(events).records, vote, false) == RunCasts(events, vote, "option2")
    {
      RunGains(events, vote, "option1");
      RunGains(events, vote, "option2");
    }
  }

  // ---- How a vote begins ----

  /** A vote begins only while none runs, with a test of the tally and some human to ask: it waits for each of them
      in the 64 slots, once, with nothing counted, its panel open and its time limit set. */
  lemma VoteAsksEveryHuman(s: State, humans: set<int>, request: Request)
    ensures var t := Made(s, Start(humans, request, NoActs));
            var asked := set slot | slot in humans && 0 <= slot < 64;
            if s.running.Some? || !request.hasPassed || asked == {} then t == s
            else
              && t.running == Some(Ballot(s.started, request, Tally(|asked|, 0, 0), asked, s.nextTimer, None))
              && t.issueActive && t.records == s.records && t.outcomes == s.outcomes
              && t.timers == s.timers[s.nextTimer := Timer(s.started, TimeUp)]
  {
    var asked := set slot | slot in humans && 0 <= slot < 64;
    assert Voters(humans) == asked;
    assert |asked| == 0 <==> asked == {};
  }
}
