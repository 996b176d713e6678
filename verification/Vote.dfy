/** The vote service as the class that runs it. */
module Vote {
  import opened Slots
  import opened Ballots

  datatype Player = Player(slot: int, isBot: bool)

  /** The roster lists players by ascending slot. */
  predicate BySlot(players: seq<Player>) {
    forall i, j | 0 <= i < j < |players| :: players[i].slot < players[j].slot
  }

  function Humans(players: seq<Player>): set<int> {
    set i | 0 <= i < |players| && !players[i].isBot :: players[i].slot
  }

  /** Who votes among the first n players. */
  function VotersIn(players: seq<Player>, n: nat): set<int>
    requires n <= |players|
  {
    Voters(Humans(players[..n]))
  }

  lemma OneMorePlayer(players: seq<Player>, n: nat)
    requires BySlot(players) && n < |players|
    ensures players[n].slot !in VotersIn(players, n)
    ensures VotersIn(players, n + 1)
         == VotersIn(players, n) + if !players[n].isBot && IsValidSlot(players[n].slot) then {players[n].slot} else {}
  {
    var before, upTo := players[..n], players[..n + 1];
    assert forall k | 0 <= k < n :: before[k] == upTo[k] == players[k];
    forall slot
      ensures slot in Humans(upTo) <==> slot in Humans(before) || (slot == players[n].slot && !players[n].isBot)
    {
      if slot in Humans(before) {
        var k :| 0 <= k < n && !before[k].isBot && before[k].slot == slot;
        assert upTo[k].slot == slot;
      }
      if slot == players[n].slot && !players[n].isBot {
        assert upTo[n].slot == slot;
      }
    }
  }

  class Service {
    var running: Option<Ballot>
    var issueActive: bool
    var timers: map<nat, Timer>
    var nextTimer: nat
    var started: nat  // names the votes
    ghost var records: seq<Record>
    ghost var spoilt: multiset<nat>
    ghost var outcomes: seq<Outcome>
    ghost var muted: Option<nat>

    constructor ()
      ensures View() == INITIAL
    {
      running, issueActive, timers, nextTimer, muted := None, false, map[], 0, None;
      started, records, spoilt, outcomes := 0, [], multiset{}, [];
    }

    ghost function View(): State
      reads this
    {
      State(running, issueActive, timers, nextTimer, started, records, spoilt, outcomes, muted)
    }

    /** changed is what the listeners of vote_changed do, here and below; cast, those of vote_cast. */
    method Start(players: seq<Player>, request: Request, changed: Acts) returns (ok: bool)
      requires BySlot(players)
      modifies this
      ensures View() == Made(old(View()), Call.Start(Humans(players), request, changed))
      ensures ok <==> old(running).None? && request.hasPassed && Voters(Humans(players)) != {}
    {
      if running.Some? || !request.hasPassed {
        return false;
      }
      var waiting, eligible := CountVoters(players);
      if eligible == 0 {
        return false;
      }
      assert Voters(waiting) == waiting;
      Open(waiting, eligible, request, changed);
      ok := true;
    }

    /** Every connected human is waited for. Slots are distinct, so each counts once. */
    method CountVoters(players: seq<Player>) returns (waiting: set<int>, eligible: int)
      requires BySlot(players)
      ensures waiting == Voters(Humans(players)) && eligible == |waiting|
    {
      waiting, eligible := {}, 0;
      for i := 0 to |players|
        invariant waiting == VotersIn(players, i) && eligible == |waiting|
      {
        var player := players[i];
        OneMorePlayer(players, i);
        if !player.isBot && IsValidSlot(player.slot) {
          waiting := waiting + {player.slot};
          eligible := eligible + 1;
        }
      }
      assert players[..|players|] == players;
    }

    method Open(waiting: set<int>, eligible: int, request: Request, changed: Acts)
      requires running.None? && request.hasPassed
      requires eligible == |waiting| && waiting != {} && forall slot | slot in waiting :: IsValidSlot(slot)
      modifies this
      ensures View() == Opened(old(View()), waiting, request, changed)
    {
      assert Voters(waiting) == waiting;
      issueActive := true;
      running := Some(Ballot(started, request, Tally(eligible, 0, 0), waiting, nextTimer, None));
      nextTimer, started := nextTimer + 1, started + 1;
      Publish(changed);
      var ballot := running.value;
      timers := timers[ballot.timeout := Timer(ballot.id, TimeUp)];
    }

    /** The listeners of one event, in order. */
    method Publish(acts: Acts)
      modifies this
      ensures View() == AllDone(old(View()), acts)
      decreases acts
    {
      if acts.And? {
        match acts.act {
          case CastBallot(slot, option, cast, changed) => var _ := TryCastBallot(slot, option, cast, changed);
          case DropVoter(slot, changed) => DropVoter(slot, changed);
        }
        Publish(acts.rest);
      }
    }

    /** True while a vote runs, whatever the slot and the option: the engine must not see the command. */
    method TryCastBallot(slot: int, option: string, cast: Acts, changed: Acts) returns (taken: bool)
      modifies this
      ensures View() == Done(old(View()), CastBallot(slot, option, cast, changed))
      ensures taken <==> old(running).Some?
      decreases CastBallot(slot, option, cast, changed)
    {
      if running.None? {
        return false;
      }
      var ballot := running.value;
      if !IsValidSlot(slot) || slot !in ballot.waiting {
        return true;
      }
      if option != "option1" && option != "option2" {
        return true;
      }
      Count(slot, option == "option1");
      Publish(cast);
      StopWaiting(slot);
      Publish(changed);
      CloseIfAllVoted();
      taken := true;
    }

    method Count(slot: int, yes: bool)
      requires Awaits(View(), slot)
      modifies this
      ensures View() == Tallied(old(View()), slot, yes)
    {
      var ballot := running.value;
      var tally := ballot.tally;
      if yes {
        tally := tally.(yes := tally.yes + 1);
      } else {
        tally := tally.(no := tally.no + 1);
      }
      running := Some(ballot.(tally := tally));
      records := records + [Record(ballot.id, slot, yes)];
    }

    method StopWaiting(slot: int)
      requires running.Some?
      modifies this
      ensures View() == Cut(old(View()), slot)
    {
      var ballot := running.value;
      spoilt := if slot in ballot.waiting then spoilt else spoilt + multiset{ballot.id};
      running := Some(ballot.(waiting := ballot.waiting - {slot}));
    }

    method DropVoter(slot: int, changed: Acts)
      modifies this
      ensures View() == Done(old(View()), Act.DropVoter(slot, changed))
      decreases Act.DropVoter(slot, changed)
    {
      if running.None? || !IsValidSlot(slot) || slot !in running.value.waiting {
        return;
      }
      var ballot := running.value;
      running := Some(ballot.(waiting := ballot.waiting - {slot},
                              tally := ballot.tally.(eligible := ballot.tally.eligible - 1)));
      Publish(changed);
      CloseIfAllVoted();
    }

    method CloseIfAllVoted()
      requires running.Some?
      modifies this
      ensures View() == ClosedIfAllVoted(old(View()))
    {
      var ballot := running.value;
      if ballot.tally.Cast() < ballot.tally.eligible {
        return;
      }
      if ballot.close.Some? {
        timers := timers - {ballot.close.value};
      }
      timers := timers[nextTimer := Timer(ballot.id, AllVoted)];
      running := Some(ballot.(close := Some(nextTimer)));
      nextTimer := nextTimer + 1;
    }

    method End(reason: EndReason)
      modifies this
      ensures View() == Made(old(View()), Call.End(reason))
      decreases Weight(View()) + 1, 1
    {
      if running.Some? {
        var _ := Finish(reason);
      }
    }

    /** The callbacks run with the ballot out of the service but not yet dropped. */
    method Finish(reason: EndReason) returns (passed: bool)
      requires running.Some?
      modifies this
      ensures View() == Finished(old(View()), reason)
      ensures passed == (reason != Cancelled && old(running).value.request.passes(old(running).value.tally))
      decreases Weight(View()), 0
    {
      var ballot := running.value;
      running := None;
      passed := false;
      if reason != Cancelled {
        Run(ballot.request.inPassed);
        passed := ballot.request.passes(ballot.tally);
      }
      Announce(ballot, reason, passed);
      Run(ballot.request.inFinished);
      Release(ballot);
    }

    method Announce(ballot: Ballot, reason: EndReason, passed: bool)
      requires passed == (reason != Cancelled && ballot.request.passes(ballot.tally))
      modifies this
      ensures View() == Announced(old(View()), ballot, reason)
    {
      outcomes := outcomes + [Outcome(ballot.id, ballot.tally, reason, passed)];
      issueActive := false;
      muted := if running.Some? then Some(running.value.id) else muted;
    }

    method Release(ballot: Ballot)
      modifies this
      ensures View() == Released(old(View()), ballot)
    {
      timers := timers - {ballot.timeout} - (if ballot.close.Some? then {ballot.close.value} else {});
    }

    /** What a callback calls back into the service, in order. Start's players are given by their slots. */
    method Run(calls: Calls)
      modifies this
      ensures View() == Exec(old(View()), calls)
      decreases Weight(View()) + CallsSize(calls), 2
    {
      match calls {
        case NoCalls =>
        case Then(call, rest) =>
          match call {
            case Start(humans, request, changed) =>
              var voters := Voters(humans);
              assert Voters(voters) == voters;
              if running.None? && request.hasPassed && |voters| > 0 {
                Open(voters, |voters|, request, changed);
              }
            case Do(act) => Publish(And(act, NoActs));
            case End(reason) => End(reason);
          }
          assert View() == Made(old(View()), call);
          Run(rest);
      }
    }

    /** The scheduler runs a timer it holds. The vote that set it must be running: see FiredTimerEndsItsOwnVote. */
    method Fire(timer: nat)
      requires timer in timers && running.Some?
      modifies this
      ensures View() == Apply(old(View()), Fired(timer))
    {
      var reason := timers[timer].reason;
      timers := timers - {timer};
      var _ := Finish(reason);
    }
  }
}
