/** The database client's fields, changed in place by the sections Client.cpp runs under its mutex and on its
    worker thread. The clock is a field here; Tick lets time pass. */
module DatabaseClient {
  import opened DatabaseWorker

  class Database {
    var mode: Mode
    var queue: seq<nat>
    var stopDeadline: nat
    var open: bool
    var retryAt: nat
    var now: nat
    var jobs: nat
    var worker: Worker

    ghost var owner: Owner
    ghost var owed: nat
    ghost var refused: seq<nat>
    ghost var accepted: seq<nat>
    ghost var answered: seq<Answer>
    ghost var turnedAway: seq<nat>
    ghost var started: seq<nat>
    ghost var attempts: seq<Attempt>

    ghost function View(): State
      reads this
    {
      State(mode, queue, stopDeadline, worker, owner, owed, refused, open, retryAt, now, jobs,
            accepted, answered, turnedAway, started, attempts)
    }

    constructor ()
      ensures View() == INITIAL
    {
      mode, queue, stopDeadline, open, retryAt, now, jobs := Stopped, [], 0, false, 0, 0, 0;
      worker, owner, owed, refused := NoThread, Free, 0, [];
      accepted, answered, turnedAway, started, attempts := [], [], [], [], [];
    }

    /** Enqueue's locked section. A refused job's Fail runs after the unlock, through FailRefusedJob. */
    method EnqueueJob() returns (isAccepted: bool)
      modifies this
      ensures isAccepted == (old(mode).Running? && |old(queue)| < MAX_QUEUED_JOBS)
      ensures View() == Apply(old(View()), Enqueue)
    {
      var id := jobs;
      jobs := jobs + 1;
      if !mode.Running? {
        refused := refused + [id];
        isAccepted := false;
      } else if |queue| >= MAX_QUEUED_JOBS {
        refused := refused + [id];
        isAccepted := false;
      } else {
        queue := queue + [id];
        accepted := accepted + [id];
        owed := owed + 1;
        isAccepted := true;
      }
    }

    method NotifyWorker()
      requires owed > 0
      modifies this
      ensures View() == Apply(old(View()), NotifyOne)
    {
      owed := owed - 1;
      if worker.Asleep? {
        worker := Woken;
      }
    }

    method FailRefusedJob(ghost i: nat)
      requires i < |refused|
      modifies this
      ensures View() == Apply(old(View()), FailRefused(i))
    {
      turnedAway := turnedAway + [refused[i]];
      refused := refused[..i] + refused[i + 1..];
    }

    /** TakeJob from the moment the worker holds the mutex; past the deadline it fails the whole queue. */
    method Take()
      requires worker.Looking? || worker.Woken?
      modifies this
      ensures View() == Apply(old(View()), TakeJob)
    {
      if queue == [] && mode != Stopping {
        worker := Asleep;
        return;
      }
      if mode == Stopping && now >= stopDeadline {
        FailQueue();
      }
      if queue == [] {
        worker := Exited;
        open := false;
        return;
      }
      started := started + [queue[0]];
      worker := Holding(queue[0]);
      queue := queue[1..];
    }

    /** Every queued job fails, in order, and the queue is empty. */
    method FailQueue()
      modifies this
      ensures View() == old(View()).(answered := old(answered) + FailAll(old(queue)), queue := [])
    {
      ghost var before := View();
      for i := 0 to |queue|
        invariant View() == before.(answered := answered)
        invariant answered == before.answered + FailAll(before.queue)[..i]
      {
        answered := answered + [Answer(queue[i], Failed)];
        assert FailAll(before.queue)[..i + 1] == FailAll(before.queue)[..i] + [Answer(queue[i], Failed)];
      }
      assert FailAll(before.queue)[..|queue|] == FailAll(before.queue);
      queue := [];
    }

    /** EnsureOpen up to the attempt itself. */
    method CheckConnection()
      requires worker.Holding?
      modifies this
      ensures View() == Apply(old(View()), EnsureOpen)
    {
      if open {
        worker := Executing(worker.job);
      } else if now < retryAt {
        FinishJob(Failed);
      } else {
        worker := Opening(worker.job, now);
      }
    }

    method FinishOpening(ok: bool)
      requires worker.Opening?
      modifies this
      ensures View() == Apply(old(View()), OpenDone(ok))
    {
      attempts := attempts + [Attempt(worker.at, ok)];
      open := ok;
      if ok {
        worker := Executing(worker.job);
      } else {
        retryAt := worker.at + RECONNECT_BACKOFF;
        FinishJob(Failed);
      }
    }

    /** The job's callable, which may throw before it delivers. */
    method RunJob(throws: bool)
      requires worker.Executing?
      modifies this
      ensures View() == Apply(old(View()), Execute(throws))
    {
      if throws {
        open := false;
        FinishJob(Failed);
      } else {
        FinishJob(Ran);
      }
    }

    method FinishJob(outcome: Outcome)
      requires worker.Holding? || worker.Opening? || worker.Executing?
      modifies this
      ensures View() == Reply(old(View()), old(worker).job, outcome)
    {
      answered := answered + [Answer(worker.job, outcome)];
      worker := Looking;
    }

    /** Connect's locked section; true when a worker thread has to be started. */
    method StartRunning() returns (starts: bool)
      requires owner.Free?
      modifies this
      ensures starts == old(mode).Stopped?
      ensures View() == Apply(old(View()), BeginConnect)
    {
      starts := mode == Stopped;
      if starts {
        mode := Running;
        owner := Spawning;
      }
    }

    method SpawnWorker()
      requires owner.Spawning?
      modifies this
      ensures View() == Apply(old(View()), Spawn)
    {
      worker := Looking;
      owner := Free;
    }

    /** Disconnect's first locked section; false when it returns at once. */
    method StartStopping(allowance: nat) returns (stops: bool)
      requires owner.Free?
      modifies this
      ensures stops == old(mode).Running?
      ensures View() == Apply(old(View()), BeginDisconnect(allowance))
    {
      stops := mode == Running;
      if stops {
        mode := Stopping;
        stopDeadline := now + allowance;
        owner := Notifying;
      }
    }

    method NotifyAllWorkers()
      requires owner.Notifying?
      modifies this
      ensures View() == Apply(old(View()), NotifyAll)
    {
      if worker.Asleep? {
        worker := Woken;
      }
      owner := Joining;
    }

    method JoinWorker()
      requires owner.Joining? && worker.Exited?
      modifies this
      ensures View() == Apply(old(View()), Join)
    {
      worker := NoThread;
      owner := Closing;
    }

    method FinishStopping()
      requires owner.Closing?
      modifies this
      ensures View() == Apply(old(View()), Close)
    {
      mode := Stopped;
      owner := Free;
    }

    method PassTime(ms: nat)
      modifies this
      ensures View() == Apply(old(View()), Tick(ms))
    {
      now := now + ms;
    }
  }
}
