/** The database worker, its bounded job queue and the connect/disconnect protocol as a state machine. */
module DatabaseWorker {

  const MAX_QUEUED_JOBS := 4096
  const RECONNECT_BACKOFF := 5000  // milliseconds

  datatype Mode = Stopped | Running | Stopping

  /** The worker thread. Holding has taken a job; Opening is inside OpenConnection since time at. */
  datatype Worker =
    | NoThread
    | Looking
    | Asleep
    | Woken
    | Holding(job: nat)
    | Opening(job: nat, at: nat)
    | Executing(job: nat)
    | Exited

  /** Where the thread that owns the client is inside Connect or Disconnect. */
  datatype Owner = Free | Spawning | Notifying | Joining | Closing

  datatype Outcome = Ran | Failed

  datatype Answer = Answer(job: nat, outcome: Outcome)

  datatype Attempt = Attempt(at: nat, ok: bool)

  /** Jobs are numbered in the order they reach Enqueue's mutex. The last five fields are history. */
  datatype State = State(
    mode: Mode,
    queue: seq<nat>,
    stopDeadline: nat,
    worker: Worker,
    owner: Owner,
    owed: nat,              // Enqueue calls that have yet to notify
    refused: seq<nat>,      // refused jobs whose Fail has yet to run
    open: bool,
    retryAt: nat,
    now: nat,
    jobs: nat,
    accepted: seq<nat>,
    answered: seq<Answer>,  // answers to accepted jobs, in the order they were given
    turnedAway: seq<nat>,   // refused jobs whose Fail has run
    started: seq<nat>,
    attempts: seq<Attempt>)

  datatype Step =
    | Tick(ms: nat)
    | LoseConnection
    | Enqueue
    | NotifyOne
    | FailRefused(i: nat)
    | Spurious
    | TakeJob
    | EnsureOpen
    | OpenDone(ok: bool)
    | Execute(throws: bool)
    | BeginConnect
    | Spawn
    | BeginDisconnect(allowance: nat)
    | NotifyAll
    | Join
    | Close

  const INITIAL :=
    State(Stopped, [], 0, NoThread, Free, 0, [], false, 0, 0, 0, [], [], [], [], [])

  predicate Enabled(s: State, step: Step) {
    match step
    case Tick(_) => true
    case LoseConnection => true
    case Enqueue => true
    case NotifyOne => s.owed > 0
    case FailRefused(i) => i < |s.refused|
    case Spurious => s.worker.Asleep?
    case TakeJob => s.worker.Looking? || s.worker.Woken?
    case EnsureOpen => s.worker.Holding?
    case OpenDone(_) => s.worker.Opening?
    case Execute(_) => s.worker.Executing?
    case BeginConnect => s.owner.Free?
    case Spawn => s.owner.Spawning?
    case BeginDisconnect(_) => s.owner.Free?
    case NotifyAll => s.owner.Notifying?
    case Join => s.owner.Joining? && s.worker.Exited?
    case Close => s.owner.Closing?
  }

  function WakeUp(w: Worker): Worker {
    if w.Asleep? then Woken else w
  }

  function PastDeadline(s: State): bool {
    s.mode.Stopping? && s.now >= s.stopDeadline
  }

  function FailAll(jobs: seq<nat>): (answers: seq<Answer>)
    ensures |answers| == |jobs|
    ensures forall i | 0 <= i < |jobs| :: answers[i] == Answer(jobs[i], Failed)
  {
    seq(|jobs|, i requires 0 <= i < |jobs| => Answer(jobs[i], Failed))
  }

  function DoEnqueue(s: State): State {
    var id := s.jobs;
    var s := s.(jobs := id + 1);
    if !s.mode.Running? || |s.queue| >= MAX_QUEUED_JOBS then
      s.(refused := s.refused + [id])
    else
      s.(queue := s.queue + [id], accepted := s.accepted + [id], owed := s.owed + 1)
  }

  function DoTakeJob(s: State): State {
    if s.queue == [] && !s.mode.Stopping? then s.(worker := Asleep)
    else if PastDeadline(s) then
      s.(answered := s.answered + FailAll(s.queue), queue := [], worker := Exited, open := false)
    else if s.queue == [] then s.(worker := Exited, open := false)
    else s.(worker := Holding(s.queue[0]), queue := s.queue[1..], started := s.started + [s.queue[0]])
  }

  function Reply(s: State, job: nat, outcome: Outcome): State {
    s.(answered := s.answered + [Answer(job, outcome)], worker := Looking)
  }

  function DoEnsureOpen(s: State): State
    requires s.worker.Holding?
  {
    if s.open then s.(worker := Executing(s.worker.job))
    else if s.now < s.retryAt then Reply(s, s.worker.job, Failed)
    else s.(worker := Opening(s.worker.job, s.now))
  }

  function DoOpenDone(s: State, ok: bool): State
    requires s.worker.Opening?
  {
    var s' := s.(attempts := s.attempts + [Attempt(s.worker.at, ok)], open := ok);
    if ok then s'.(worker := Executing(s.worker.job))
    else Reply(s'.(retryAt := s.worker.at + RECONNECT_BACKOFF), s.worker.job, Failed)
  }

  function DoExecute(s: State, throws: bool): State
    requires s.worker.Executing?
  {
    if throws then Reply(s.(open := false), s.worker.job, Failed) else Reply(s, s.worker.job, Ran)
  }

  function Apply(s: State, step: Step): State {
    if !Enabled(s, step) then s else
    match step
    case Tick(ms) => s.(now := s.now + ms)
    case LoseConnection => s.(open := false)
    case Enqueue => DoEnqueue(s)
    case NotifyOne => s.(owed := s.owed - 1, worker := WakeUp(s.worker))
    case FailRefused(i) =>
      s.(refused := s.refused[..i] + s.refused[i + 1..], turnedAway := s.turnedAway + [s.refused[i]])
    case Spurious => s.(worker := Woken)
    case TakeJob => DoTakeJob(s)
    case EnsureOpen => DoEnsureOpen(s)
    case OpenDone(ok) => DoOpenDone(s, ok)
    case Execute(throws) => DoExecute(s, throws)
    case BeginConnect => if s.mode.Stopped? then s.(mode := Running, owner := Spawning) else s
    case Spawn => s.(worker := Looking, owner := Free)
    case BeginDisconnect(allowance) =>
      if s.mode.Running? then s.(mode := Stopping, stopDeadline := s.now + allowance, owner := Notifying) else s
    case NotifyAll => s.(owner := Joining, worker := WakeUp(s.worker))
    case Join => s.(worker := NoThread, owner := Closing)
    case Close => s.(mode := Stopped, owner := Free)
  }

  function From(s: State, steps: seq<Step>): State {
    if steps == [] then s else Apply(From(s, steps[..|steps| - 1]), steps[|steps| - 1])
  }

  function After(steps: seq<Step>): State {
    From(INITIAL, steps)
  }

  // ---- What every step keeps ----

  /** The job in the worker's hands. */
  function InHand(w: Worker): seq<nat> {
    match w
    case Holding(job) => [job]
    case Opening(job, _) => [job]
    case Executing(job) => [job]
    case _ => []
  }

  function JobsOf(answers: seq<Answer>): (jobs: seq<nat>)
    ensures |jobs| == |answers|
    ensures forall i | 0 <= i < |answers| :: jobs[i] == answers[i].job
  {
    seq(|answers|, i requires 0 <= i < |answers| => answers[i].job)
  }

  /** Accepted jobs are answered, in hand, or queued, and in that order. */
  ghost predicate Ordered(s: State) {
    && s.accepted == JobsOf(s.answered) + InHand(s.worker) + s.queue
    && |s.queue| <= MAX_QUEUED_JOBS
  }

  ghost predicate Lifecycle(s: State) {
    && (s.mode.Stopped? ==> s.owner.Free? && s.worker.NoThread? && s.queue == [])
    && (s.mode.Running? ==> (s.owner.Free? && !s.worker.NoThread?) || (s.owner.Spawning? && s.worker.NoThread?))
    && (s.mode.Stopping? ==>
          || (s.owner.Notifying? && !s.worker.NoThread?)
          || (s.owner.Joining? && !s.worker.NoThread? && !s.worker.Asleep?)
          || (s.owner.Closing? && s.worker.NoThread? && s.queue == []))
    && (s.worker.Exited? ==> s.mode.Stopping? && s.queue == [])
    && (s.worker.Exited? || s.worker.NoThread? ==> !s.open)
  }

  /** A queued job always has somebody coming for it. */
  ghost predicate Attended(s: State) {
    s.queue != [] ==>
      s.owed > 0 || s.owner.Spawning? || s.worker.Looking? || s.worker.Woken? || InHand(s.worker) != []
      || s.owner.Notifying?
  }

  function Places(s: State, id: nat): nat {
    multiset(s.accepted)[id] + multiset(s.refused)[id] + multiset(s.turnedAway)[id]
  }

  ghost predicate Conserved(s: State) {
    forall id: nat :: Places(s, id) == if id < s.jobs then 1 else 0
  }

  /** After a failed attempt the next one waits out the backoff. */
  ghost predicate Spaced(s: State) {
    && (forall i | 0 <= i < |s.attempts| - 1 ::
          !s.attempts[i].ok ==> s.attempts[i + 1].at >= s.attempts[i].at + RECONNECT_BACKOFF)
    && (s.attempts != [] && !s.attempts[|s.attempts| - 1].ok ==>
          && s.retryAt >= s.attempts[|s.attempts| - 1].at + RECONNECT_BACKOFF
          && (s.worker.Opening? ==> s.worker.at >= s.attempts[|s.attempts| - 1].at + RECONNECT_BACKOFF))
  }

  ghost predicate Inv(s: State) {
    Ordered(s) && Lifecycle(s) && Attended(s) && Conserved(s) && Spaced(s)
  }

  lemma StepKeepsOrdered(s: State, step: Step)
    requires Ordered(s) && Lifecycle(s)
    ensures Ordered(Apply(s, step))
  {
    if Enabled(s, step) && step.TakeJob? {
      TakeJobKeepsOrdered(s);
    }
  }

  lemma TakeJobKeepsOrdered(s: State)
    requires Ordered(s) && InHand(s.worker) == []
    ensures Ordered(DoTakeJob(s))
  {
    var t := DoTakeJob(s);
    if s.queue != [] && !PastDeadline(s) {
      assert s.queue == [s.queue[0]] + s.queue[1..];
    } else if PastDeadline(s) {
      assert JobsOf(t.answered) == JobsOf(s.answered) + s.queue;
    }
  }

  lemma StepKeepsLifecycle(s: State, step: Step)
    requires Lifecycle(s)
    ensures Lifecycle(Apply(s, step))
  {
  }

  lemma StepKeepsAttended(s: State, step: Step)
    requires Lifecycle(s) && Attended(s)
    ensures Attended(Apply(s, step))
  {
  }

  lemma {:induction false} StepKeepsPlaces(s: State, step: Step, id: nat)
    requires Places(s, id) == if id < s.jobs then 1 else 0
    ensures Places(Apply(s, step), id) == if id < Apply(s, step).jobs then 1 else 0
  {
    if step.FailRefused? {
      if step.i < |s.refused| {
        FailRefusedKeepsPlaces(s, step.i, id);
      }
    } else if step.Enqueue? {
      EnqueueKeepsPlaces(s, id);
    } else {
      OthersMoveNoJob(s, step);
    }
  }

  lemma OthersMoveNoJob(s: State, step: Step)
    requires !step.FailRefused? && !step.Enqueue?
    ensures var t := Apply(s, step);
            t.accepted == s.accepted && t.refused == s.refused && t.turnedAway == s.turnedAway && t.jobs == s.jobs
  {
  }

  lemma FailRefusedKeepsPlaces(s: State, i: nat, id: nat)
    requires i < |s.refused|
    ensures Places(Apply(s, FailRefused(i)), id) == Places(s, id)
  {
    TakenOutOnce(s.refused, i, id);
    AddedOnce(s.turnedAway, s.refused[i], id);
  }

  lemma TakenOutOnce(jobs: seq<nat>, i: nat, id: nat)
    requires i < |jobs|
    ensures multiset(jobs)[id] == multiset(jobs[..i] + jobs[i + 1..])[id] + if id == jobs[i] then 1 else 0
  {
    assert jobs == jobs[..i] + [jobs[i]] + jobs[i + 1..];
  }

  lemma AddedOnce(jobs: seq<nat>, job: nat, id: nat)
    ensures multiset(jobs + [job])[id] == multiset(jobs)[id] + if id == job then 1 else 0
  {
  }

  lemma EnqueueKeepsPlaces(s: State, id: nat)
    ensures Places(DoEnqueue(s), id) == Places(s, id) + if id == s.jobs then 1 else 0
  {
    var t := DoEnqueue(s);
    if s.mode.Running? && |s.queue| < MAX_QUEUED_JOBS {
      assert t.accepted == s.accepted + [s.jobs] && t.refused == s.refused;
    } else {
      assert t.refused == s.refused + [s.jobs] && t.accepted == s.accepted;
    }
  }

  lemma StepKeepsSpaced(s: State, step: Step)
    requires Spaced(s)
    ensures Spaced(Apply(s, step))
  {
  }

  lemma StepKeepsInv(s: State, step: Step)
    requires Inv(s)
    ensures Inv(Apply(s, step))
  {
    StepKeepsOrdered(s, step);
    StepKeepsLifecycle(s, step);
    StepKeepsAttended(s, step);
    StepKeepsSpaced(s, step);
    forall id: nat ensures Places(Apply(s, step), id) == if id < Apply(s, step).jobs then 1 else 0 {
      StepKeepsPlaces(s, step, id);
    }
  }

  lemma {:induction false} EveryRunKeeps(steps: seq<Step>)
    ensures Inv(After(steps))
  {
    if steps != [] {
      EveryRunKeeps(steps[..|steps| - 1]);
      StepKeepsInv(After(steps[..|steps| - 1]), steps[|steps| - 1]);
    }
  }

  // ---- Main results ----

  /** Every job given to Enqueue is, at any moment of any run, in exactly one of: answered, in the worker's
      hands, queued, refused and answered, refused and about to be. Accepted jobs are answered in the order
      they were accepted, and the queue never outgrows its cap. */
  lemma EachJobIsAnsweredOnce(steps: seq<Step>, id: nat)
    ensures var s := After(steps);
            && multiset(JobsOf(s.answered))[id] + multiset(InHand(s.worker))[id] + multiset(s.queue)[id]
               + multiset(s.refused)[id] + multiset(s.turnedAway)[id] == (if id < s.jobs then 1 else 0)
            && JobsOf(s.answered) <= s.accepted
            && |s.queue| <= 4096
  {
    EveryRunKeeps(steps);
    assert Places(After(steps), id) == if id < After(steps).jobs then 1 else 0;
  }

  /** A stopped client owes nobody an accepted job: no blocking Run is left waiting. */
  lemma StoppedMeansAnswered(steps: seq<Step>)
    requires After(steps).mode.Stopped?
    ensures After(steps).queue == [] && JobsOf(After(steps).answered) == After(steps).accepted
  {
    EveryRunKeeps(steps);
  }

  /** Failed connection attempts are at least the backoff apart from the next one, whatever jobs, disconnects
      and reconnects come between. */
  lemma FailedAttemptsBackOff(steps: seq<Step>, i: nat)
    requires i + 1 < |After(steps).attempts| && !After(steps).attempts[i].ok
    ensures After(steps).attempts[i + 1].at >= After(steps).attempts[i].at + 5000
  {
    EveryRunKeeps(steps);
  }

  /** A job is queued, behind the others, exactly while the client runs and fewer than 4096 wait; otherwise it is
      turned away. */
  lemma AcceptedExactlyBelowTheCap(s: State)
    ensures var t := Apply(s, Enqueue);
            if s.mode == Running && |s.queue| < 4096
            then t.accepted == s.accepted + [s.jobs] && t.queue == s.queue + [s.jobs] && t.refused == s.refused
            else t.accepted == s.accepted && t.queue == s.queue && t.refused == s.refused + [s.jobs]
  {
  }

  /** The steps the client takes by itself. */
  predicate Internal(step: Step) {
    step.NotifyOne? || step.FailRefused? || step.TakeJob? || step.EnsureOpen? || step.OpenDone? || step.Execute?
    || step.Spawn? || step.NotifyAll? || step.Join? || step.Close?
  }

  function Measure(s: State): nat {
    4 * |s.queue| + 2 * s.owed + |s.refused|
    + (match s.worker
       case Looking => 1
       case Woken => 1
       case Holding(_) => 4
       case Opening(_, _) => 3
       case Executing(_) => 2
       case _ => 0)
    + (match s.owner
       case Free => 0
       case Spawning => 2
       case Notifying => 4
       case Joining => 2
       case Closing => 1)
  }

  lemma InternalStepsDecrease(s: State, step: Step)
    requires Internal(step) && Enabled(s, step)
    ensures Measure(Apply(s, step)) < Measure(s)
  {
  }

  ghost predicate Quiet(s: State) {
    forall step | Internal(step) :: !Enabled(s, step)
  }

  /** Left alone, the client always comes to rest, and at rest every job ever enqueued has been answered and
      a disconnect that began has finished. */
  lemma RestMeansEverythingAnswered(steps: seq<Step>)
    requires Quiet(After(steps))
    ensures var s := After(steps);
            JobsOf(s.answered) == s.accepted && s.refused == [] && s.owner.Free? && !s.mode.Stopping?
  {
    EveryRunKeeps(steps);
    var s := After(steps);
    assert !Enabled(s, NotifyOne) && !Enabled(s, FailRefused(0)) && !Enabled(s, TakeJob);
    assert !Enabled(s, EnsureOpen) && !Enabled(s, OpenDone(true)) && !Enabled(s, Execute(true));
    assert !Enabled(s, Spawn) && !Enabled(s, NotifyAll) && !Enabled(s, Join) && !Enabled(s, Close);
  }

  // ---- Stop deadline and backoff over whole continuations ----

  ghost predicate NoConnect(steps: seq<Step>) {
    forall step | step in steps :: !step.BeginConnect?
  }

  lemma StepKeepsDeadline(s: State, step: Step)
    requires !s.mode.Running? && !step.BeginConnect?
    ensures !Apply(s, step).mode.Running? && Apply(s, step).stopDeadline == s.stopDeadline
  {
  }

  /** A disconnect's deadline is the moment it began and its allowance, until the next Connect. */
  lemma {:induction false} DisconnectKeepsItsDeadline(s: State, allowance: nat, more: seq<Step>)
    requires s.mode.Running? && s.owner.Free? && NoConnect(more)
    ensures var t := From(Apply(s, BeginDisconnect(allowance)), more);
            !t.mode.Running? && t.stopDeadline == s.now + allowance
  {
    if more != [] {
      var before := more[..|more| - 1];
      DisconnectKeepsItsDeadline(s, allowance, before);
      StepKeepsDeadline(From(Apply(s, BeginDisconnect(allowance)), before), more[|more| - 1]);
    }
  }

  /** Once a disconnect is past its deadline, no further queued job starts before the next Connect. */
  lemma {:induction false} PastDeadlineNothingStarts(before: seq<Step>, more: seq<Step>)
    requires PastDeadline(After(before)) && NoConnect(more)
    ensures From(After(before), more).started == After(before).started
  {
    NothingStartsAnyMore(before, more);
  }

  lemma {:induction false} NothingStartsAnyMore(before: seq<Step>, more: seq<Step>)
    requires PastDeadline(After(before)) && NoConnect(more)
    ensures var s := From(After(before), more);
            && s.started == After(before).started
            && (PastDeadline(s) || s.mode.Stopped?)
            && Lifecycle(s)
  {
    EveryRunKeeps(before);
    if more != [] {
      NothingStartsAnyMore(before, more[..|more| - 1]);
      StepStartsNothing(From(After(before), more[..|more| - 1]), more[|more| - 1]);
    }
  }

  lemma StepStartsNothing(s: State, step: Step)
    requires Lifecycle(s) && (PastDeadline(s) || s.mode.Stopped?) && !step.BeginConnect?
    ensures var t := Apply(s, step);
            t.started == s.started && (PastDeadline(t) || t.mode.Stopped?) && Lifecycle(t)
  {
    StepKeepsLifecycle(s, step);
  }

  ghost predicate Failing(answers: seq<Answer>) {
    forall a | a in answers :: a.outcome.Failed?
  }

  /** The backoff outlives a disconnect: until it has run out, a fresh Connect makes no attempt at all, and
      every job it is given fails. */
  lemma {:induction false} ReconnectWithinBackoffNeverTries(before: seq<Step>, more: seq<Step>)
    requires After(before).mode.Stopped? && From(After(before), more).now < After(before).retryAt
    ensures var s := From(After(before), more);
            && s.attempts == After(before).attempts
            && |s.answered| >= |After(before).answered|
            && Failing(s.answered[|After(before).answered|..])
  {
    EveryRunKeeps(before);
    ClosedUntilRetry(before, more);
  }

  /** What holds until the backoff runs out. */
  ghost predicate Shut(s0: State, s: State) {
    && s.attempts == s0.attempts && s.retryAt == s0.retryAt
    && !s.worker.Opening? && !s.worker.Executing? && !s.open
    && s0.answered <= s.answered && Failing(s.answered[|s0.answered|..])
  }

  /** Before the backoff is over a step tries nothing, and answers with failures only. */
  lemma ShutStepFails(s: State, step: Step)
    requires !s.worker.Opening? && !s.worker.Executing? && !s.open && s.now < s.retryAt
    ensures var t := Apply(s, step);
            && t.attempts == s.attempts && t.retryAt == s.retryAt
            && !t.worker.Opening? && !t.worker.Executing? && !t.open
            && s.answered <= t.answered && Failing(t.answered[|s.answered|..])
  {
  }

  lemma StepKeepsShut(s0: State, s: State, step: Step)
    requires Shut(s0, s) && s.now < s0.retryAt
    ensures Shut(s0, Apply(s, step))
  {
    var t := Apply(s, step);
    ShutStepFails(s, step);
    assert t.answered[|s0.answered|..] == s.answered[|s0.answered|..] + t.answered[|s.answered|..];
  }

  lemma {:induction false} ClosedUntilRetry(before: seq<Step>, more: seq<Step>)
    requires After(before).mode.Stopped? && From(After(before), more).now < After(before).retryAt
    requires Lifecycle(After(before))
    ensures Shut(After(before), From(After(before), more))
  {
    if more != [] {
      ClosedUntilRetry(before, more[..|more| - 1]);
      StepKeepsShut(After(before), From(After(before), more[..|more| - 1]), more[|more| - 1]);
    }
  }

  // ---- The first job after a Connect ----

  /** When the next attempt may be made: the backoff after the last one that failed. */
  function RetryAfter(attempts: seq<Attempt>): nat {
    if attempts == [] then 0
    else if attempts[|attempts| - 1].ok then RetryAfter(attempts[..|attempts| - 1])
    else attempts[|attempts| - 1].at + 5000
  }

  lemma {:induction false} RetryAtIsAfterTheLastFailure(steps: seq<Step>)
    ensures After(steps).retryAt == RetryAfter(After(steps).attempts)
  {
    if steps != [] {
      var s, step := After(steps[..|steps| - 1]), steps[|steps| - 1];
      RetryAtIsAfterTheLastFailure(steps[..|steps| - 1]);
      if Enabled(s, step) && step.OpenDone? {
        assert (s.attempts + [Attempt(s.worker.at, step.ok)])[..|s.attempts|] == s.attempts;
      }
    }
  }

  /** Nothing has been tried since s0. */
  ghost predicate Untried(s0: State, s: State) {
    s.attempts == s0.attempts && s.retryAt == s0.retryAt && !s.open
  }

  /** Up to the moment the first job taken since s0 meets the connection. */
  ghost predicate BeforeFirstLook(s0: State, s: State) {
    && |s0.started| <= |s.started|
    && (|s.started| == |s0.started| ==> InHand(s.worker) == [] && Untried(s0, s))
    && (|s.started| == |s0.started| + 1 && s.worker.Holding? ==> Untried(s0, s))
  }

  lemma {:induction false} NothingIsTriedBeforeTheFirstLook(before: seq<Step>, more: seq<Step>)
    requires After(before).mode.Stopped?
    ensures BeforeFirstLook(After(before), From(After(before), more))
  {
    EveryRunKeeps(before);
    if more != [] {
      NothingIsTriedBeforeTheFirstLook(before, more[..|more| - 1]);
    }
  }

  /** The first job after a Connect makes a connection attempt exactly when the last failed one, of whichever
      connection, is a backoff ago as the worker looks; otherwise it fails there and then, untried. */
  lemma {:induction false} FirstJobTriesExactlyWhenBackoffIsOver(before: seq<Step>, more: seq<Step>)
    requires After(before).mode.Stopped?
    requires var s := From(After(before), more);
             s.worker.Holding? && |s.started| == |After(before).started| + 1
    ensures var s := From(After(before), more);
            var t := Apply(s, EnsureOpen);
            && s.attempts == After(before).attempts
            && (t.worker == Opening(s.worker.job, s.now) <==> s.now >= RetryAfter(s.attempts))
            && (s.now < RetryAfter(s.attempts) <==>
                t == s.(worker := Looking, answered := s.answered + [Answer(s.worker.job, Failed)]))
  {
    NothingIsTriedBeforeTheFirstLook(before, more);
    RetryAtIsAfterTheLastFailure(before);
  }

  lemma {:induction false} FromThen(s: State, more: seq<Step>, step: Step)
    ensures From(s, more + [step]) == Apply(From(s, more), step)
  {
    assert (more + [step])[..|more|] == more;
  }

  lemma FromFive(s: State, a: Step, b: Step, c: Step, d: Step, e: Step)
    ensures From(s, [a, b, c, d, e]) == Apply(Apply(Apply(Apply(Apply(s, a), b), c), d), e)
  {
    assert [a, b, c, d, e] == [a, b, c, d] + [e] && [a, b, c, d] == [a, b, c] + [d];
    assert [a, b, c] == [a, b] + [c] && [a, b] == [a] + [b] && [a] == [] + [a];
    FromThen(s, [], a);
    FromThen(s, [a], b);
    FromThen(s, [a, b], c);
    FromThen(s, [a, b, c], d);
    FromThen(s, [a, b, c, d], e);
  }

  /** A Connect whose ping has reached the worker. */
  const CONNECT := [BeginConnect, Spawn, Enqueue, NotifyOne, TakeJob]

  const FAIL := [EnsureOpen, OpenDone(false)]

  const DISCONNECT := [BeginDisconnect(0), NotifyAll, TakeJob, Join, Close]

  predicate Idle(s: State) {
    s.mode.Stopped? && s.owner.Free? && s.worker.NoThread? && s.queue == [] && s.owed == 0
  }

  function Pinging(s: State): State {
    s.(mode := Running, worker := Holding(s.jobs), jobs := s.jobs + 1,
       accepted := s.accepted + [s.jobs], started := s.started + [s.jobs])
  }

  lemma ConnectReachesTheWorker(s: State)
    requires Idle(s)
    ensures From(s, CONNECT) == Pinging(s)
  {
    FromFive(s, BeginConnect, Spawn, Enqueue, NotifyOne, TakeJob);
    var up := s.(mode := Running, worker := Looking);
    assert Apply(Apply(s, BeginConnect), Spawn) == up;
    assert Apply(Apply(up, Enqueue), NotifyOne)
        == up.(jobs := s.jobs + 1, queue := [s.jobs], accepted := s.accepted + [s.jobs]);
  }

  /** The attempt failed: a backoff is left behind. */
  function BackedOff(s: State): State
    requires s.worker.Holding?
  {
    s.(worker := Looking, retryAt := s.now + RECONNECT_BACKOFF,
       answered := s.answered + [Answer(s.worker.job, Failed)], attempts := s.attempts + [Attempt(s.now, false)])
  }

  lemma FailingLeavesABackoff(s: State)
    requires s.worker.Holding? && !s.open && s.now >= s.retryAt
    ensures From(s, FAIL) == BackedOff(s)
  {
    assert FAIL == [EnsureOpen] + [OpenDone(false)] && [EnsureOpen] == [] + [EnsureOpen];
    FromThen(s, [], EnsureOpen);
    FromThen(s, [EnsureOpen], OpenDone(false));
  }

  function GivenUp(s: State): State {
    s.(mode := Stopped, worker := NoThread, stopDeadline := s.now)
  }

  lemma DisconnectStops(s: State)
    requires s.mode.Running? && s.owner.Free? && s.worker.Looking? && s.queue == [] && !s.open
    ensures From(s, DISCONNECT) == GivenUp(s)
  {
    FromFive(s, BeginDisconnect(0), NotifyAll, TakeJob, Join, Close);
    DisconnectStepByStep(s);
  }

  lemma DisconnectStepByStep(s: State)
    requires s.mode.Running? && s.owner.Free? && s.worker.Looking? && s.queue == [] && !s.open
    ensures Apply(Apply(Apply(Apply(Apply(s, BeginDisconnect(0)), NotifyAll), TakeJob), Join), Close) == GivenUp(s)
  {
    var joining := s.(mode := Stopping, stopDeadline := s.now, owner := Joining);
    assert Apply(Apply(s, BeginDisconnect(0)), NotifyAll) == joining;
    assert s.answered + FailAll([]) == s.answered;
    assert Apply(joining, TakeJob) == joining.(worker := Exited);
  }

  /** Such a run: the second Connect's ping fails although nothing was tried for it. */
  lemma {:induction false} ReconnectCanFailUntried()
    ensures var down := From(From(From(INITIAL, CONNECT), FAIL), DISCONNECT);
            var again := From(down, CONNECT);
            && down.mode.Stopped? && down.attempts == again.attempts == [Attempt(0, false)]
            && Apply(again, EnsureOpen).worker.Looking?
            && Apply(again, EnsureOpen).answered == [Answer(0, Failed), Answer(1, Failed)]
            && Apply(again, EnsureOpen).attempts == [Attempt(0, false)]
  {
    ConnectReachesTheWorker(INITIAL);
    FailingLeavesABackoff(Pinging(INITIAL));
    DisconnectStops(BackedOff(Pinging(INITIAL)));
    ConnectReachesTheWorker(GivenUp(BackedOff(Pinging(INITIAL))));
  }

  // ---- What a job is answered with ----

  /** The step, taken in this state, answers the job so. A job has run only when its own code returned. */
  ghost predicate Settles(s: State, step: Step, job: nat, outcome: Outcome) {
    match outcome
    case Ran => step == Execute(false) && s.worker == Executing(job)
    case Failed =>
      || (step == Execute(true) && s.worker == Executing(job))
      || (step == OpenDone(false) && s.worker.Opening? && s.worker.job == job)
      || (step == EnsureOpen && s.worker == Holding(job) && !s.open && s.now < s.retryAt)
      || (step == TakeJob && (s.worker.Looking? || s.worker.Woken?) && job in s.queue
          && s.mode == Stopping && s.now >= s.stopDeadline)
  }

  lemma StepSettles(s: State, step: Step, job: nat, outcome: Outcome)
    ensures Answer(job, outcome) in Apply(s, step).answered
       <==> Answer(job, outcome) in s.answered || Settles(s, step, job, outcome)
  {
    if Enabled(s, step) && step.TakeJob? && PastDeadline(s) {
      var failed := FailAll(s.queue);
      assert Answer(job, outcome) in failed <==> outcome.Failed? && job in s.queue by {
        if i :| 0 <= i < |s.queue| && s.queue[i] == job {
          assert failed[i] == Answer(job, Failed);
        }
      }
    }
  }

  ghost predicate SettledAt(steps: seq<Step>, i: nat, job: nat, outcome: Outcome)
    requires i < |steps|
  {
    Settles(After(steps[..i]), steps[i], job, outcome)
  }

  lemma SettledInPrefix(steps: seq<Step>, n: nat, i: nat, job: nat, outcome: Outcome)
    requires i < n <= |steps|
    ensures SettledAt(steps[..n], i, job, outcome) <==> SettledAt(steps, i, job, outcome)
  {
    assert steps[..n][..i] == steps[..i];
  }

  /** In every run a job is answered as run exactly when its own code returned, and as failed exactly when its code
      threw, its connection attempt failed, the backoff was on, or it was still queued at the stop deadline. */
  lemma {:induction false} AnswerSaysWhatHappened(steps: seq<Step>, job: nat, outcome: Outcome)
    ensures Answer(job, outcome) in After(steps).answered
       <==> exists i :: 0 <= i < |steps| && SettledAt(steps, i, job, outcome)
  {
    if steps != [] {
      var last := |steps| - 1;
      AnswerSaysWhatHappened(steps[..last], job, outcome);
      StepSettles(After(steps[..last]), steps[last], job, outcome);
      assert SettledAt(steps, last, job, outcome) <==> Settles(After(steps[..last]), steps[last], job, outcome);
      forall i | 0 <= i < last
        ensures SettledAt(steps[..last], i, job, outcome) <==> SettledAt(steps, i, job, outcome)
      {
        SettledInPrefix(steps, last, i, job, outcome);
      }
    }
  }

  /** The connection opens exactly when an attempt succeeds, and closes exactly when it is lost, a job throws in it,
      or its worker exits; an open one is used without another attempt. */
  lemma ConnectionOpensAndCloses(steps: seq<Step>, step: Step)
    ensures var s, t := After(steps), Apply(After(steps), step);
            && (!s.open && t.open <==> !s.open && s.worker.Opening? && step == OpenDone(true))
            && (s.open && !t.open <==>
                  s.open && (|| step == LoseConnection
                             || (s.worker.Executing? && step == Execute(true))
                             || (s.worker.Opening? && step == OpenDone(false))
                             || (!s.worker.Exited? && t.worker.Exited?)))
            && (s.worker.Holding? && s.open && step == EnsureOpen ==>
                  t == s.(worker := Executing(s.worker.job)))
  {
    EveryRunKeeps(steps);
  }
}
