/** The HTTP worker pool as a state machine: every mutex section, wake-up and notification is one step. */
module HttpPool {

  const MAX_WORKERS := 4
  const MAX_WAITING := 64

  /** What one worker thread is doing. */
  datatype Phase =
    | Looking           // started, or back from a request, and about to lock the mutex in Take
    | Asleep            // blocked on the condition variable
    | Woken             // notified (or woken spuriously) and about to lock the mutex again
    | Running(id: nat)  // performing a request, outside the mutex
    | Exited

  /** How far the game thread is through Stop. */
  datatype StopPhase = Serving | Flagged | Joining | Closed

  /** Requests are numbered in the order they reach the mutex. The last five fields are history. */
  datatype State = State(
    waiting: seq<nat>,
    workers: seq<Phase>,
    idleWorkers: int,
    stopped: bool,
    admitted: nat,         // sends that read `Stopped` as false and have not locked the mutex yet
    owed: nat,             // sends that released the mutex and have not notified yet
    stop: StopPhase,
    completions: seq<nat>,
    ready: seq<nat>,       // the rest of the batch RunAll is running
    sent: nat,
    taken: seq<nat>,
    accepted: seq<nat>,
    delivered: seq<nat>,
    discarded: seq<nat>,   // completions Stop cleared
    dropped: seq<nat>)     // waiting requests Stop cleared

  datatype Step =
    | Admit             // Send reads `Stopped`
    | Push              // Send's locked section
    | Notify(w: nat)    // Send's notify_one, which wakes worker w when any worker sleeps
    | Spurious(w: nat)
    | Lock(w: nat)      // worker w runs the locked part of Take
    | Finish(w: nat)    // worker w completes its request
    | Collect           // RunAll swaps the queue out
    | Deliver           // RunAll runs the next completion of its batch
    | StopFlag
    | StopNotify
    | StopFinish        // every join has returned: clear everything

  const INITIAL := State([], [], 0, false, 0, 0, Serving, [], [], 0, [], [], [], [], [])

  predicate IsIdle(p: Phase) {
    p.Asleep? || p.Woken?
  }

  predicate IsAwake(p: Phase) {
    p.Looking? || p.Woken? || p.Running?
  }

  predicate SomeAsleep(workers: seq<Phase>) {
    exists w | 0 <= w < |workers| :: workers[w].Asleep?
  }

  predicate Enabled(s: State, step: Step) {
    match step
    case Admit => true
    case Push => s.admitted > 0
    case Notify(w) => s.owed > 0 && (SomeAsleep(s.workers) ==> w < |s.workers| && s.workers[w].Asleep?)
    case Spurious(w) => w < |s.workers| && s.workers[w].Asleep?
    case Lock(w) => w < |s.workers| && (s.workers[w].Looking? || s.workers[w].Woken?)
    case Finish(w) => w < |s.workers| && s.workers[w].Running?
    case Collect => s.ready == [] && (s.stop.Serving? || s.stop.Closed?)
    case Deliver => s.ready != [] && (s.stop.Serving? || s.stop.Closed?)
    case StopFlag => s.stop.Serving? || s.stop.Closed?
    case StopNotify => s.stop.Flagged?
    case StopFinish => s.stop.Joining? && forall w | 0 <= w < |s.workers| :: s.workers[w].Exited?
  }

  function WakeAll(workers: seq<Phase>): (woken: seq<Phase>)
    ensures |woken| == |workers|
    ensures forall w | 0 <= w < |workers| :: woken[w] == if workers[w].Asleep? then Woken else workers[w]
  {
    seq(|workers|, w requires 0 <= w < |workers| => if workers[w].Asleep? then Woken else workers[w])
  }

  function DoPush(s: State): State
    requires s.admitted > 0
  {
    var id := s.sent;
    var s := s.(sent := id + 1, admitted := s.admitted - 1);
    if |s.waiting| >= MAX_WAITING then
      s.(completions := s.completions + [id])
    else
      s.(waiting := s.waiting + [id],
         accepted := s.accepted + [id],
         workers := if s.idleWorkers == 0 && |s.workers| < MAX_WORKERS then s.workers + [Looking] else s.workers,
         owed := s.owed + 1)
  }

  /** The wait leaves the worker counted as idle only while it sleeps or has yet to lock again. */
  function DoLock(s: State, w: nat): State
    requires Enabled(s, Lock(w))
  {
    var others := s.idleWorkers - (if s.workers[w].Woken? then 1 else 0);
    if s.stopped then
      s.(idleWorkers := others, workers := s.workers[w := Exited])
    else if s.waiting == [] then
      s.(idleWorkers := others + 1, workers := s.workers[w := Asleep])
    else
      s.(idleWorkers := others,
         workers := s.workers[w := Running(s.waiting[0])],
         waiting := s.waiting[1..],
         taken := s.taken + [s.waiting[0]])
  }

  function DoStopFinish(s: State): State {
    s.(workers := [], waiting := [], completions := [], stop := Closed,
       dropped := s.dropped + s.waiting, discarded := s.discarded + s.completions)
  }

  /** One step; a step that is not enabled leaves the state alone, so every step sequence is a run. */
  function Apply(s: State, step: Step): State {
    if !Enabled(s, step) then s else
    match step
    case Admit => if s.stopped then s else s.(admitted := s.admitted + 1)
    case Push => DoPush(s)
    case Notify(w) =>
      s.(owed := s.owed - 1, workers := if SomeAsleep(s.workers) then s.workers[w := Woken] else s.workers)
    case Spurious(w) => s.(workers := s.workers[w := Woken])
    case Lock(w) => DoLock(s, w)
    case Finish(w) =>
      s.(workers := s.workers[w := Looking], completions := s.completions + [s.workers[w].id])
    case Collect => s.(ready := s.completions, completions := [])
    case Deliver => s.(ready := s.ready[1..], delivered := s.delivered + [s.ready[0]])
    case StopFlag => s.(stopped := true, stop := Flagged)
    case StopNotify => s.(stop := Joining, workers := WakeAll(s.workers))
    case StopFinish => DoStopFinish(s)
  }

  function From(s: State, steps: seq<Step>): State {
    if steps == [] then s else Apply(From(s, steps[..|steps| - 1]), steps[|steps| - 1])
  }

  /** The state after a run from a new client. */
  function After(steps: seq<Step>): State {
    From(INITIAL, steps)
  }

  // ---- Counting over the worker list ----

  function CountIdle(workers: seq<Phase>): nat {
    if workers == [] then 0
    else CountIdle(workers[..|workers| - 1]) + if IsIdle(workers[|workers| - 1]) then 1 else 0
  }

  /** How many workers perform request id. */
  function Performing(workers: seq<Phase>, id: nat): nat {
    if workers == [] then 0
    else Performing(workers[..|workers| - 1], id) + if workers[|workers| - 1] == Running(id) then 1 else 0
  }

  /** How many internal steps a worker can take before it must wait for something. */
  function Effort(workers: seq<Phase>): nat {
    if workers == [] then 0
    else Effort(workers[..|workers| - 1]) + PhaseEffort(workers[|workers| - 1])
  }

  function PhaseEffort(p: Phase): nat {
    match p
    case Looking => 1
    case Woken => 1
    case Running(_) => 2
    case Asleep => 0
    case Exited => 0
  }

  lemma {:induction false} CountsAfterUpdate(workers: seq<Phase>, w: nat, p: Phase)
    requires w < |workers|
    ensures CountIdle(workers[w := p]) - CountIdle(workers)
         == (if IsIdle(p) then 1 else 0) - (if IsIdle(workers[w]) then 1 else 0)
    ensures Effort(workers[w := p]) - Effort(workers) == PhaseEffort(p) - PhaseEffort(workers[w])
  {
    var last := |workers| - 1;
    if w == last {
      assert workers[w := p][..last] == workers[..last];
    } else {
      CountsAfterUpdate(workers[..last], w, p);
      assert workers[w := p][..last] == workers[..last][w := p];
    }
  }

  lemma {:induction false} PerformingAfterUpdate(workers: seq<Phase>, w: nat, p: Phase, id: nat)
    requires w < |workers|
    ensures Performing(workers[w := p], id) - Performing(workers, id)
         == (if p == Running(id) then 1 else 0) - (if workers[w] == Running(id) then 1 else 0)
  {
    var last := |workers| - 1;
    if w == last {
      assert workers[w := p][..last] == workers[..last];
    } else {
      PerformingAfterUpdate(workers[..last], w, p, id);
      assert workers[w := p][..last] == workers[..last][w := p];
    }
  }

  lemma CountsAfterSpawn(workers: seq<Phase>, id: nat)
    ensures CountIdle(workers + [Looking]) == CountIdle(workers)
    ensures Performing(workers + [Looking], id) == Performing(workers, id)
  {
    assert (workers + [Looking])[..|workers|] == workers;
  }

  lemma {:induction false} CountsAfterWakeAll(workers: seq<Phase>, id: nat)
    ensures CountIdle(WakeAll(workers)) == CountIdle(workers)
    ensures Performing(WakeAll(workers), id) == Performing(workers, id)
    ensures Effort(WakeAll(workers)) <= Effort(workers) + |workers|
  {
    if workers != [] {
      var last := |workers| - 1;
      CountsAfterWakeAll(workers[..last], id);
      assert WakeAll(workers)[..last] == WakeAll(workers[..last]);
    }
  }

  lemma {:induction false} NobodyIdle(workers: seq<Phase>)
    ensures CountIdle(workers) == 0 <==> forall w | 0 <= w < |workers| :: !IsIdle(workers[w])
  {
    if workers != [] {
      NobodyIdle(workers[..|workers| - 1]);
    }
  }

  lemma {:induction false} NobodyRunning(workers: seq<Phase>, id: nat)
    requires forall w | 0 <= w < |workers| :: !workers[w].Running?
    ensures Performing(workers, id) == 0
  {
    if workers != [] {
      NobodyRunning(workers[..|workers| - 1], id);
    }
  }

  // ---- What every step keeps ----

  ghost predicate Bounded(s: State) {
    && |s.workers| <= MAX_WORKERS
    && |s.waiting| <= MAX_WAITING
    && s.idleWorkers == CountIdle(s.workers)
  }

  ghost predicate StopOrder(s: State) {
    && (s.stopped <==> !s.stop.Serving?)
    && (forall w | 0 <= w < |s.workers| :: s.workers[w].Exited? ==> s.stopped)
    && (forall w | 0 <= w < |s.workers| :: s.workers[w].Asleep? ==> s.stop.Serving? || s.stop.Flagged?)
  }

  /** A waiting request always has somebody coming for it. */
  ghost predicate Attended(s: State) {
    s.waiting != [] && !s.stopped ==>
      s.workers != [] && (s.owed > 0 || exists w | 0 <= w < |s.workers| :: IsAwake(s.workers[w]))
  }

  /** In how many places request id is. */
  function Places(s: State, id: nat): nat {
    multiset(s.waiting)[id] + Performing(s.workers, id) + multiset(s.completions)[id] + multiset(s.ready)[id]
    + multiset(s.delivered)[id] + multiset(s.discarded)[id] + multiset(s.dropped)[id]
  }

  /** Every request that reached the mutex is in exactly one place, and no other number is anywhere. */
  ghost predicate Conserved(s: State) {
    forall id: nat :: Places(s, id) == if id < s.sent then 1 else 0
  }

  /** Requests start in the order they were accepted. */
  ghost predicate InOrder(s: State) {
    && s.accepted == s.taken + s.dropped + s.waiting
    && (s.dropped != [] ==> s.stopped)
  }

  ghost predicate Inv(s: State) {
    Bounded(s) && StopOrder(s) && Attended(s) && Conserved(s) && InOrder(s)
  }

  lemma StepKeepsBounds(s: State, step: Step)
    requires Bounded(s)
    ensures Bounded(Apply(s, step))
  {
    if Enabled(s, step) {
      match step {
        case Push => CountsAfterSpawn(s.workers, 0);
        case Notify(w) => if SomeAsleep(s.workers) { CountsAfterUpdate(s.workers, w, Woken); }
        case Spurious(w) => CountsAfterUpdate(s.workers, w, Woken);
        case Lock(w) => LockKeepsBounds(s, w);
        case Finish(w) => CountsAfterUpdate(s.workers, w, Looking);
        case StopNotify => CountsAfterWakeAll(s.workers, 0);
        case StopFinish => NobodyIdle(s.workers);
        case _ =>
      }
    }
  }

  lemma LockKeepsBounds(s: State, w: nat)
    requires Bounded(s) && Enabled(s, Lock(w))
    ensures Bounded(DoLock(s, w))
  {
    CountsAfterUpdate(s.workers, w, DoLock(s, w).workers[w]);
  }

  lemma StepKeepsStopOrder(s: State, step: Step)
    requires StopOrder(s)
    ensures StopOrder(Apply(s, step))
  {
  }

  lemma StepKeepsAttended(s: State, step: Step)
    requires Bounded(s) && StopOrder(s) && Attended(s)
    ensures Attended(Apply(s, step))
  {
    var t := Apply(s, step);
    NobodyIdle(s.workers);
    if t.waiting != [] && !t.stopped && Enabled(s, step) {
      match step {
        case Push =>
        case Notify(w) =>
          if !SomeAsleep(s.workers) {
            assert IsAwake(s.workers[0]);
          } else {
            assert IsAwake(t.workers[w]);
          }
        case Spurious(w) => assert IsAwake(t.workers[w]);
        case Lock(w) => assert IsAwake(t.workers[w]);
        case Finish(w) => assert IsAwake(t.workers[w]);
        case _ =>
      }
    }
  }

  lemma StepKeepsOrder(s: State, step: Step)
    requires StopOrder(s) && InOrder(s)
    ensures InOrder(Apply(s, step))
  {
    if Enabled(s, step) && step.Lock? && !s.stopped && s.waiting != [] {
      assert s.waiting == [s.waiting[0]] + s.waiting[1..];
    }
  }

  lemma StepKeepsPlaces(s: State, step: Step, id: nat)
    requires Places(s, id) == if id < s.sent then 1 else 0
    ensures Places(Apply(s, step), id) == if id < Apply(s, step).sent then 1 else 0
  {
    if Enabled(s, step) {
      match step {
        case Admit =>
        case Collect => CollectKeepsPlaces(s, id);
        case Push => PushKeepsPlaces(s, id);
        case Notify(w) => WakingKeepsPlaces(s, step, id);
        case Spurious(w) => WakingKeepsPlaces(s, step, id);
        case Lock(w) => LockKeepsPlaces(s, w, id);
        case Finish(w) => FinishKeepsPlaces(s, w, id);
        case Deliver => DeliverKeepsPlaces(s, id);
        case StopNotify => WakingKeepsPlaces(s, step, id);
        case StopFinish => StopFinishKeepsPlaces(s, id);
        case StopFlag =>
      }
    }
  }

  lemma WakingKeepsPlaces(s: State, step: Step, id: nat)
    requires (step.Notify? || step.Spurious? || step.StopNotify?) && Enabled(s, step)
    ensures Places(Apply(s, step), id) == Places(s, id) && Apply(s, step).sent == s.sent
  {
    match step {
      case Notify(w) => if SomeAsleep(s.workers) { PerformingAfterUpdate(s.workers, w, Woken, id); }
      case Spurious(w) => PerformingAfterUpdate(s.workers, w, Woken, id);
      case StopNotify => CountsAfterWakeAll(s.workers, id);
    }
  }

  lemma PushKeepsPlaces(s: State, id: nat)
    requires s.admitted > 0
    ensures Places(DoPush(s), id) == Places(s, id) + if id == s.sent then 1 else 0
  {
    var t := DoPush(s);
    if |s.waiting| >= MAX_WAITING {
      AddedOnce(s.completions, s.sent, id);
    } else {
      AddedOnce(s.waiting, s.sent, id);
      if s.idleWorkers == 0 && |s.workers| < MAX_WORKERS {
        CountsAfterSpawn(s.workers, id);
      } else {
        assert t.workers == s.workers;
      }
    }
  }

  lemma AddedOnce(ids: seq<nat>, added: nat, id: nat)
    ensures multiset(ids + [added])[id] == multiset(ids)[id] + if id == added then 1 else 0
  {
  }

  lemma FinishKeepsPlaces(s: State, w: nat, id: nat)
    requires Enabled(s, Finish(w))
    ensures Places(Apply(s, Finish(w)), id) == Places(s, id)
  {
    PerformingAfterUpdate(s.workers, w, Looking, id);
  }

  lemma CollectKeepsPlaces(s: State, id: nat)
    requires Enabled(s, Collect)
    ensures Places(Apply(s, Collect), id) == Places(s, id)
  {
  }

  lemma DeliverKeepsPlaces(s: State, id: nat)
    requires Enabled(s, Deliver)
    ensures Places(Apply(s, Deliver), id) == Places(s, id)
  {
    assert s.ready == [s.ready[0]] + s.ready[1..];
  }

  lemma LockKeepsPlaces(s: State, w: nat, id: nat)
    requires Enabled(s, Lock(w))
    ensures Places(DoLock(s, w), id) == Places(s, id)
  {
    PerformingAfterUpdate(s.workers, w, DoLock(s, w).workers[w], id);
    if s.waiting != [] {
      assert s.waiting == [s.waiting[0]] + s.waiting[1..];
    }
  }

  lemma StopFinishKeepsPlaces(s: State, id: nat)
    requires Enabled(s, StopFinish)
    ensures Places(DoStopFinish(s), id) == Places(s, id)
  {
    NobodyRunning(s.workers, id);
  }

  lemma StepKeepsInv(s: State, step: Step)
    requires Inv(s)
    ensures Inv(Apply(s, step))
  {
    StepKeepsBounds(s, step);
    StepKeepsStopOrder(s, step);
    StepKeepsAttended(s, step);
    StepKeepsOrder(s, step);
    forall id: nat ensures Places(Apply(s, step), id) == if id < Apply(s, step).sent then 1 else 0 {
      StepKeepsPlaces(s, step, id);
    }
  }

  lemma {:induction false} EveryRunKeeps(s: State, steps: seq<Step>)
    requires Inv(s)
    ensures Inv(From(s, steps))
  {
    if steps != [] {
      var before := steps[..|steps| - 1];
      EveryRunKeeps(s, before);
      StepKeepsInv(From(s, before), steps[|steps| - 1]);
    }
  }

  // ---- Main results ----

  /** No interleaving strands a request: while one waits and the client is not stopped, a worker is awake
      or a notification is still to come. The two caps hold throughout. */
  lemma NoRequestIsStranded(steps: seq<Step>)
    ensures var s := After(steps);
            s.waiting != [] && !s.stopped ==>
              s.owed > 0 || exists w | 0 <= w < |s.workers| :: IsAwake(s.workers[w])
    ensures |After(steps).workers| <= 4 && |After(steps).waiting| <= 64
  {
    EveryRunKeeps(INITIAL, steps);
  }

  /** A request is in exactly one of waiting, running, completed, being delivered, delivered and cleared by
      Stop; in particular its callback runs at most once. Requests start in the order they were accepted. */
  lemma EachRequestIsInOnePlace(steps: seq<Step>, id: nat)
    ensures var s := After(steps);
            && multiset(s.waiting)[id] + Performing(s.workers, id) + multiset(s.completions)[id]
               + multiset(s.ready)[id] + multiset(s.delivered)[id] + multiset(s.discarded)[id]
               + multiset(s.dropped)[id] == (if id < s.sent then 1 else 0)
            && s.taken + s.dropped + s.waiting == s.accepted
  {
    EveryRunKeeps(INITIAL, steps);
    assert Places(After(steps), id) == if id < After(steps).sent then 1 else 0;
  }

  // ---- The order of requests ----

  /** What a step completes: the request its worker was running, or a request refused because 64 wait. */
  function CompletedBy(s: State, step: Step): seq<nat> {
    match step
    case Finish(w) => if w < |s.workers| && s.workers[w].Running? then [s.workers[w].id] else []
    case Push => if s.admitted > 0 && |s.waiting| >= 64 then [s.sent] else []
    case _ => []
  }

  /** The requests a run completes or refuses, in the order it does. */
  function CompletedIn(steps: seq<Step>): seq<nat> {
    if steps == [] then []
    else
      var before := steps[..|steps| - 1];
      CompletedIn(before) + CompletedBy(After(before), steps[|steps| - 1])
  }

  function Without(ids: seq<nat>, gone: seq<nat>): seq<nat> {
    if ids == [] then [] else
    var last := ids[|ids| - 1];
    Without(ids[..|ids| - 1], gone) + if last in gone then [] else [last]
  }

  lemma {:induction false} WithoutMore(ids: seq<nat>, more: seq<nat>, gone: seq<nat>)
    ensures Without(ids + more, gone) == Without(ids, gone) + Without(more, gone)
  {
    if more == [] {
      assert ids + more == ids;
    } else {
      var front, last := more[..|more| - 1], more[|more| - 1];
      var kept := if last in gone then [] else [last];
      WithoutMore(ids, front, gone);
      assert (ids + more)[..|ids + more| - 1] == ids + front;
      assert Without(more, gone) == Without(front, gone) + kept;
      assert Without(ids + more, gone) == Without(ids + front, gone) + kept;
    }
  }

  lemma {:induction false} WithoutTwice(ids: seq<nat>, gone: seq<nat>, also: seq<nat>)
    ensures Without(ids, gone + also) == Without(Without(ids, gone), also)
  {
    if ids != [] {
      var front, last := ids[..|ids| - 1], ids[|ids| - 1];
      WithoutTwice(front, gone, also);
      assert last in gone + also <==> last in gone || last in also;
      WithoutMore(Without(front, gone), if last in gone then [] else [last], also);
    }
  }

  lemma {:induction false} WithoutStrangers(ids: seq<nat>, gone: seq<nat>)
    ensures (forall id | id in ids :: id !in gone) ==> Without(ids, gone) == ids
    ensures (forall id | id in ids :: id in gone) ==> Without(ids, gone) == []
  {
    if ids != [] {
      var front, last := ids[..|ids| - 1], ids[|ids| - 1];
      WithoutStrangers(front, gone);
      assert ids == front + [last] && forall id | id in front :: id in ids;
    }
  }

  lemma {:induction false} IsPerformed(workers: seq<Phase>, w: nat, id: nat)
    requires w < |workers| && workers[w] == Running(id)
    ensures Performing(workers, id) > 0
  {
    if w < |workers| - 1 {
      IsPerformed(workers[..|workers| - 1], w, id);
    }
  }

  /** What is completed has not been discarded. */
  lemma CompletedIsNew(s: State, step: Step)
    requires Conserved(s)
    ensures forall id | id in CompletedBy(s, step) :: id !in s.discarded
  {
    forall id | id in CompletedBy(s, step) ensures id !in s.discarded {
      assert Places(s, id) == if id < s.sent then 1 else 0;
      if step.Finish? {
        IsPerformed(s.workers, step.w, id);
      }
      assert multiset(s.discarded)[id] == 0;
    }
  }

  lemma DiscardsOnlyCompletions(s: State)
    requires Conserved(s)
    ensures Without(s.delivered + s.ready + s.completions, s.completions) == s.delivered + s.ready
  {
    forall id | id in s.delivered + s.ready ensures id !in s.completions {
      assert Places(s, id) == if id < s.sent then 1 else 0;
      assert multiset(s.delivered)[id] + multiset(s.ready)[id] > 0;
      assert multiset(s.completions)[id] == 0;
    }
    WithoutMore(s.delivered + s.ready, s.completions, s.completions);
    WithoutStrangers(s.delivered + s.ready, s.completions);
    WithoutStrangers(s.completions, s.completions);
  }

  lemma StepDeliversInOrder(s: State, step: Step, ids: seq<nat>)
    requires Conserved(s) && s.delivered + s.ready + s.completions == Without(ids, s.discarded)
    ensures var t := Apply(s, step);
            t.delivered + t.ready + t.completions == Without(ids + CompletedBy(s, step), t.discarded)
  {
    var t, done := Apply(s, step), CompletedBy(s, step);
    WithoutMore(ids, done, t.discarded);
    if step == StopFinish && Enabled(s, step) {
      WithoutTwice(ids, s.discarded, s.completions);
      DiscardsOnlyCompletions(s);
      assert t.delivered + t.ready + t.completions == s.delivered + s.ready;
    } else {
      CompletedIsNew(s, step);
      WithoutStrangers(done, s.discarded);
      OnlyCompletionsAreAdded(s, step);
    }
  }

  lemma OnlyCompletionsAreAdded(s: State, step: Step)
    requires !(step == StopFinish && Enabled(s, step))
    ensures var t := Apply(s, step);
            && t.delivered + t.ready + t.completions == s.delivered + s.ready + s.completions + CompletedBy(s, step)
            && t.discarded == s.discarded
  {
    if step.Deliver? && Enabled(s, step) {
      assert s.ready == [s.ready[0]] + s.ready[1..];
    }
  }

  /** Completions run in the order in which requests completed or were refused: at any time, those that have run,
      the rest of the batch and the queue are together what the run completed, less what Stop discarded. */
  lemma {:induction false} CompletionsRunInOrder(steps: seq<Step>)
    ensures var s := After(steps);
            s.delivered + s.ready + s.completions == Without(CompletedIn(steps), s.discarded)
  {
    if steps != [] {
      var before := steps[..|steps| - 1];
      CompletionsRunInOrder(before);
      EveryRunKeeps(INITIAL, before);
      StepDeliversInOrder(After(before), steps[|steps| - 1], CompletedIn(before));
    }
  }

  predicate Ascending(ids: seq<nat>, below: nat) {
    (forall i, j | 0 <= i < j < |ids| :: ids[i] < ids[j]) && forall i | 0 <= i < |ids| :: ids[i] < below
  }

  lemma StepKeepsAscending(s: State, step: Step)
    requires Ascending(s.accepted, s.sent)
    ensures Ascending(Apply(s, step).accepted, Apply(s, step).sent)
  {
  }

  /** Requests are started, dropped and left waiting in the order in which they were sent. */
  lemma {:induction false} RequestsStartInOrder(steps: seq<Step>)
    ensures Ascending(After(steps).taken + After(steps).dropped + After(steps).waiting, After(steps).sent)
  {
    AcceptedInOrder(steps);
    EveryRunKeeps(INITIAL, steps);
  }

  lemma {:induction false} AcceptedInOrder(steps: seq<Step>)
    ensures Ascending(After(steps).accepted, After(steps).sent)
  {
    if steps != [] {
      AcceptedInOrder(steps[..|steps| - 1]);
      StepKeepsAscending(After(steps[..|steps| - 1]), steps[|steps| - 1]);
    }
  }

  /** Once Stop has raised its flag, no request starts that had not, whatever happens next. */
  lemma {:induction false} NothingStartsOnceStopped(s: State, more: seq<Step>)
    requires s.stopped
    ensures From(s, more).stopped && From(s, more).taken == s.taken
  {
    if more != [] {
      NothingStartsOnceStopped(s, more[..|more| - 1]);
    }
  }

  // ---- Progress: the pool always drains ----

  /** Steps the pool takes by itself: no new send, no spurious wake-up, no new call on the game thread. */
  predicate Internal(step: Step) {
    step.Notify? || step.Lock? || step.Finish? || step.StopNotify? || step.StopFinish?
  }

  function Measure(s: State): nat {
    2 * |s.waiting| + 2 * s.owed + Effort(s.workers)
    + match s.stop
      case Serving => 0
      case Flagged => 2 + MAX_WORKERS
      case Joining => 1
      case Closed => 0
  }

  /** Runs without outside help are finite. */
  lemma InternalStepsDecrease(s: State, step: Step)
    requires Bounded(s) && Internal(step) && Enabled(s, step)
    ensures Measure(Apply(s, step)) < Measure(s)
  {
    match step {
      case Notify(w) => if SomeAsleep(s.workers) { CountsAfterUpdate(s.workers, w, Woken); }
      case Lock(w) => LockDecreases(s, w);
      case Finish(w) => CountsAfterUpdate(s.workers, w, Looking);
      case StopNotify => CountsAfterWakeAll(s.workers, 0);
      case StopFinish =>
    }
  }

  lemma LockDecreases(s: State, w: nat)
    requires Enabled(s, Lock(w))
    ensures Measure(DoLock(s, w)) < Measure(s)
  {
    CountsAfterUpdate(s.workers, w, DoLock(s, w).workers[w]);
  }

  ghost predicate Quiet(s: State) {
    forall step | Internal(step) :: !Enabled(s, step)
  }

  /** Where such a run ends: nothing waits and nothing runs, and a Stop that began has closed the client. */
  lemma QuietMeansDrained(steps: seq<Step>)
    requires Quiet(After(steps))
    ensures var s := After(steps);
            && (forall id: nat :: Performing(s.workers, id) == 0)
            && (s.stop.Serving? || s.stop.Closed?)
            && (!s.stopped ==> s.waiting == [] && forall w | 0 <= w < |s.workers| :: s.workers[w].Asleep?)
            && (s.stopped ==> forall w | 0 <= w < |s.workers| :: s.workers[w].Exited?)
  {
    var s := After(steps);
    EveryRunKeeps(INITIAL, steps);
    forall w | 0 <= w < |s.workers|
      ensures !s.workers[w].Looking? && !s.workers[w].Woken? && !s.workers[w].Running?
    {
      assert !Enabled(s, Lock(w)) && !Enabled(s, Finish(w));
    }
    forall id: nat ensures Performing(s.workers, id) == 0 {
      NobodyRunning(s.workers, id);
    }
    assert !Enabled(s, StopNotify) && !Enabled(s, StopFinish);
    var w: nat :| SomeAsleep(s.workers) ==> w < |s.workers| && s.workers[w].Asleep?;
    assert !Enabled(s, Notify(w));
  }

  // ---- Stop ----

  /** Nothing is left that could touch the queues again. */
  ghost predicate Settled(s: State) {
    && s.stopped && !s.stop.Serving?
    && s.waiting == [] && s.workers == [] && s.completions == []
    && s.ready == []
    && s.admitted == 0
  }

  ghost predicate NothingMore(s: State, steps: seq<Step>) {
    From(s, steps).waiting == [] && From(s, steps).delivered == s.delivered
  }

  lemma {:induction false} SettledStaysSettled(s: State, steps: seq<Step>)
    requires Settled(s)
    ensures Settled(From(s, steps)) && From(s, steps).delivered == s.delivered
  {
    if steps != [] {
      SettledStaysSettled(s, steps[..|steps| - 1]);
    }
  }

  /** What Stop promises holds exactly when it is not called from a completion that has others behind it in
      the same batch, and no send sits between its check and the mutex: then no request waits and no
      completion runs in any continuation, a second Stop included. Otherwise some continuation breaks one of
      the two. */
  lemma StopIsFinalExactlyWhen(steps: seq<Step>)
    requires Enabled(After(steps), StopFinish)
    ensures var closed := Apply(After(steps), StopFinish);
            (forall more: seq<Step> :: NothingMore(closed, more)) <==> (closed.ready == [] && closed.admitted == 0)
  {
    EveryRunKeeps(INITIAL, steps);
    var s := After(steps);
    var closed := Apply(s, StopFinish);
    StepKeepsBounds(s, StopFinish);
    if closed.ready == [] && closed.admitted == 0 {
      forall more: seq<Step> ensures NothingMore(closed, more) {
        SettledStaysSettled(closed, more);
      }
    } else if closed.ready != [] {
      LateDelivery(closed);
    } else {
      LatePush(closed);
    }
  }

  lemma LateDelivery(closed: State)
    requires closed.stop.Closed? && closed.ready != []
    ensures !NothingMore(closed, [Deliver])
  {
    FromThen(closed, [], Deliver);
    assert [] + [Deliver] == [Deliver];
    assert |Apply(closed, Deliver).delivered| == |closed.delivered| + 1;
  }

  lemma LatePush(closed: State)
    requires closed.waiting == [] && closed.admitted > 0
    ensures !NothingMore(closed, [Push])
  {
    FromThen(closed, [], Push);
    assert [] + [Push] == [Push];
  }

  const OVERTAKEN := State([0], [Looking], 0, true, 1, 1, Joining, [], [], 1, [], [0], [], [], [])

  /** A send that has passed the check when Stop begins. */
  lemma StopCanOvertakeASend()
    ensures var s := Apply(From(INITIAL, [Admit, Admit, Push, StopFlag, StopNotify]), Lock(0));
            Enabled(s, StopFinish) && Apply(s, StopFinish).admitted == 1
  {
    FromFive(INITIAL, Admit, Admit, Push, StopFlag, StopNotify);
    Overtaken();
    assert Apply(OVERTAKEN, Lock(0)) == OVERTAKEN.(workers := [Exited]);
  }

  lemma Overtaken()
    ensures Apply(Apply(Apply(Apply(Apply(INITIAL, Admit), Admit), Push), StopFlag), StopNotify) == OVERTAKEN
  {
    var s := Apply(Apply(Apply(INITIAL, Admit), Admit), Push);
    assert s == State([0], [Looking], 0, false, 1, 1, Serving, [], [], 1, [], [0], [], [], []);
    assert WakeAll(s.workers) == s.workers;
  }

  const TWO_SENDS := [Admit, Push, Notify(0), Admit, Push]
  const BOTH_FINISH := [Notify(0), Lock(0), Finish(0), Lock(0), Finish(0)]
  const STOP_IN_THE_FIRST := [Collect, Deliver, StopFlag, StopNotify, Lock(0)]

  /** A completion that calls Stop with another behind it in its batch. */
  lemma StopCanLeaveABatch()
    ensures var s := From(From(From(INITIAL, TWO_SENDS), BOTH_FINISH), STOP_IN_THE_FIRST);
            var t := Apply(s, Lock(1));
            && Enabled(t, StopFinish) && t.delivered == [0]
            && Apply(t, StopFinish).ready == [1]
  {
    FromFive(INITIAL, Admit, Push, Notify(0), Admit, Push);
    SentTwice();
    FromFive(BOTH_SENT, Notify(0), Lock(0), Finish(0), Lock(0), Finish(0));
    FinishedBoth();
    FromFive(BOTH_DONE, Collect, Deliver, StopFlag, StopNotify, Lock(0));
    StoppedInTheFirst();
    LastWorkerExits();
  }

  const BOTH_SENT := State([0, 1], [Looking, Looking], 0, false, 0, 1, Serving, [], [], 2, [], [0, 1], [], [], [])
  const BOTH_DONE := State([], [Looking, Looking], 0, false, 0, 0, Serving, [0, 1], [], 2, [0, 1], [0, 1], [], [], [])

  const ONE_EXITED :=
    State([], [Exited, Looking], 0, true, 0, 0, Joining, [], [1], 2, [0, 1], [0, 1], [0], [], [])

  lemma LastWorkerExits()
    ensures var t := Apply(ONE_EXITED, Lock(1));
            Enabled(t, StopFinish) && t.delivered == [0] && Apply(t, StopFinish).ready == [1]
  {
  }

  lemma SentTwice()
    ensures Apply(Apply(Apply(Apply(Apply(INITIAL, Admit), Push), Notify(0)), Admit), Push) == BOTH_SENT
  {
    var one := Apply(Apply(INITIAL, Admit), Push);
    assert one == State([0], [Looking], 0, false, 0, 1, Serving, [], [], 1, [], [0], [], [], []);
    assert !SomeAsleep(one.workers);
    assert Apply(Apply(one, Notify(0)), Admit) == one.(owed := 0, admitted := 1);
  }

  lemma FinishedBoth()
    ensures Apply(Apply(Apply(Apply(Apply(BOTH_SENT, Notify(0)), Lock(0)), Finish(0)), Lock(0)), Finish(0)) == BOTH_DONE
  {
    assert !SomeAsleep(BOTH_SENT.workers);
    var told := BOTH_SENT.(owed := 0);
    assert Apply(BOTH_SENT, Notify(0)) == told;
    var half := told.(waiting := [1], taken := [0], completions := [0]);
    assert Apply(Apply(told, Lock(0)), Finish(0)) == half;
  }

  lemma StoppedInTheFirst()
    ensures Apply(Apply(Apply(Apply(Apply(BOTH_DONE, Collect), Deliver), StopFlag), StopNotify), Lock(0)) == ONE_EXITED
  {
    var first := BOTH_DONE.(completions := [], ready := [1], delivered := [0]);
    assert Apply(Apply(BOTH_DONE, Collect), Deliver) == first;
    assert WakeAll(first.workers) == first.workers;
  }

  // ---- Spawning ----

  function Pushes(n: nat): seq<Step> {
    if n == 0 then [] else Pushes(n - 1) + [Push]
  }

  /** However many sends come in a burst, none of them spawns a worker exactly when a worker counts as idle as
      the burst begins, or the cap is reached: the counter takes in a worker that sleeps or has been notified
      but has not locked yet, so a single one of these is shared by the whole burst. */
  lemma {:induction false} BurstSharesOneIdleWorker(steps: seq<Step>, n: nat)
    requires 0 < n <= After(steps).admitted && |After(steps).waiting| + n <= 64
    ensures var s := After(steps);
            var t := From(s, Pushes(n));
            && (t.workers == s.workers <==>
                (exists w | 0 <= w < |s.workers| :: IsIdle(s.workers[w])) || |s.workers| == 4)
            && |t.waiting| == |s.waiting| + n
  {
    EveryRunKeeps(INITIAL, steps);
    var s := After(steps);
    NobodyIdle(s.workers);
    PushesSpawn(s, n);
  }

  lemma PushSpawns(s: State)
    requires 0 < s.admitted && |s.waiting| < MAX_WAITING
    ensures var t := Apply(s, Push);
            && t.admitted == s.admitted - 1 && |t.waiting| == |s.waiting| + 1 && t.idleWorkers == s.idleWorkers
            && t.workers == if s.idleWorkers == 0 && |s.workers| < MAX_WORKERS then s.workers + [Looking] else s.workers
  {
  }

  /** With nobody idle, each send of a burst spawns until the cap. */
  lemma {:induction false} PushesSpawn(s: State, n: nat)
    requires s.idleWorkers >= 0 && |s.workers| <= MAX_WORKERS && n <= s.admitted && |s.waiting| + n <= MAX_WAITING
    ensures var t := From(s, Pushes(n));
            && t.admitted == s.admitted - n && |t.waiting| == |s.waiting| + n && t.idleWorkers == s.idleWorkers
            && s.workers <= t.workers
            && |t.workers| == if s.idleWorkers > 0 then |s.workers|
                              else if |s.workers| + n <= MAX_WORKERS then |s.workers| + n else MAX_WORKERS
  {
    if n > 0 {
      PushesSpawn(s, n - 1);
      FromThen(s, Pushes(n - 1), Push);
      PushSpawns(From(s, Pushes(n - 1)));
    }
  }

  const ONE_REQUEST := [Admit, Push, Notify(0), Lock(0), Finish(0)]
  const THEN_TWO := [Lock(0), Admit, Admit, Push, Push]

  /** So two requests can wait for one sleeping worker although three more could be started. */
  lemma TwoRequestsCanShareAWorker()
    ensures var s := From(From(INITIAL, ONE_REQUEST), THEN_TWO);
            s.workers == [Asleep] && s.waiting == [1, 2] && !s.stopped
  {
    FromFive(INITIAL, Admit, Push, Notify(0), Lock(0), Finish(0));
    OneRequestRuns();
    FromFive(ONE_DONE, Lock(0), Admit, Admit, Push, Push);
    TwoMoreShare();
  }

  lemma TwoMoreShare()
    ensures var s := Apply(Apply(Apply(Apply(Apply(ONE_DONE, Lock(0)), Admit), Admit), Push), Push);
            s.workers == [Asleep] && s.waiting == [1, 2] && !s.stopped
  {
    var asleep := ONE_DONE.(workers := [Asleep], idleWorkers := 1);
    assert Apply(ONE_DONE, Lock(0)) == asleep;
    var two := asleep.(admitted := 2);
    assert Apply(Apply(asleep, Admit), Admit) == two;
    assert Apply(two, Push) == two.(admitted := 1, sent := 2, waiting := [1], accepted := [0, 1], owed := 1);
  }

  const ONE_DONE := State([], [Looking], 0, false, 0, 0, Serving, [0], [], 1, [0], [0], [], [], [])

  lemma OneRequestRuns()
    ensures Apply(Apply(Apply(Apply(Apply(INITIAL, Admit), Push), Notify(0)), Lock(0)), Finish(0)) == ONE_DONE
  {
    var one := Apply(Apply(INITIAL, Admit), Push);
    assert one == State([0], [Looking], 0, false, 0, 1, Serving, [], [], 1, [], [0], [], [], []);
    assert !SomeAsleep(one.workers);
    var told := one.(owed := 0);
    assert Apply(one, Notify(0)) == told;
    assert Apply(told, Lock(0)) == told.(waiting := [], workers := [Running(0)], taken := [0]);
  }

  lemma FromThen(s: State, before: seq<Step>, step: Step)
    ensures From(s, before + [step]) == Apply(From(s, before), step)
  {
    assert (before + [step])[..|before|] == before;
  }

  lemma FromFive(s: State, a: Step, b: Step, c: Step, d: Step, e: Step)
    ensures From(s, [a, b, c, d, e]) == Apply(Apply(Apply(Apply(Apply(s, a), b), c), d), e)
  {
    assert [a, b, c, d, e] == [a, b, c, d] + [e] && [a, b, c, d] == [a, b, c] + [d];
    assert [a, b, c] == [a, b] + [c] && [a, b] == [a] + [b] && [a] == [] + [a];
    FromThen(s, [], a);
    FromThen(s, [a], b);
    FromThen(s, [a, b], c);
    FromThen(s, [a, b, c], d);
    FromThen(s, [a, b, c, d], e);
  }
}
