/** The client's shared state, changed in place. Each method is one section under the mutex, or one
    notification, exactly as in HttpClient.cpp; the thread scheduler decides the order they are called in. */
module HttpClient {
  import opened HttpPool

  class Requests {
    var waiting: seq<nat>
    var workers: seq<Phase>
    var idleWorkers: int
    var stopped: bool
    var completions: seq<nat>
    var ready: seq<nat>
    var nextId: nat

    ghost var admitted: nat
    ghost var owed: nat
    ghost var stop: StopPhase
    ghost var taken: seq<nat>
    ghost var accepted: seq<nat>
    ghost var delivered: seq<nat>
    ghost var discarded: seq<nat>
    ghost var dropped: seq<nat>

    ghost function View(): State
      reads this
    {
      State(waiting, workers, idleWorkers, stopped, admitted, owed, stop, completions, ready, nextId,
            taken, accepted, delivered, discarded, dropped)
    }

    constructor ()
      ensures View() == INITIAL
    {
      waiting, workers, idleWorkers, stopped := [], [], 0, false;
      completions, ready, nextId := [], [], 0;
      admitted, owed, stop := 0, 0, Serving;
      taken, accepted, delivered, discarded, dropped := [], [], [], [], [];
    }

    /** Send's unlocked look at `Stopped`; false drops the request. */
    method Admits() returns (admits: bool)
      modifies this
      ensures admits == !old(stopped)
      ensures View() == Apply(old(View()), Admit)
    {
      admits := !stopped;
      if admits {
        admitted := admitted + 1;
      }
    }

    /** Send's locked section; false when the request was refused and completed with an error. */
    method PushRequest() returns (queued: bool)
      requires admitted > 0
      modifies this
      ensures queued == (|old(waiting)| < MAX_WAITING)
      ensures View() == Apply(old(View()), Push)
    {
      assert Apply(View(), Push) == DoPush(View());
      var id := nextId;
      nextId, admitted := nextId + 1, admitted - 1;
      if |waiting| >= MAX_WAITING {
        completions := completions + [id];
        return false;
      }
      waiting, accepted, owed := waiting + [id], accepted + [id], owed + 1;
      if idleWorkers == 0 && |workers| < MAX_WORKERS {
        workers := workers + [Looking];
      }
      return true;
    }

    /** notify_one; w is the sleeper the system picks, if there is one. */
    method NotifyOne(w: nat)
      requires Enabled(View(), Notify(w))
      modifies this
      ensures View() == Apply(old(View()), Notify(w))
    {
      owed := owed - 1;
      if w < |workers| && workers[w].Asleep? {
        workers := workers[w := Woken];
      }
    }

    method WakeSpuriously(w: nat)
      requires w < |workers| && workers[w].Asleep?
      modifies this
      ensures View() == Apply(old(View()), Spurious(w))
    {
      workers := workers[w := Woken];
    }

    /** What Take does each time worker w holds the mutex: leave, go back to sleep, or take the oldest request. */
    method Take(w: nat)
      requires w < |workers| && (workers[w].Looking? || workers[w].Woken?)
      modifies this
      ensures View() == Apply(old(View()), Lock(w))
    {
      if workers[w].Looking? {
        idleWorkers := idleWorkers + 1;
      }
      if !stopped && waiting == [] {
        workers := workers[w := Asleep];
        return;
      }
      idleWorkers := idleWorkers - 1;
      if stopped {
        workers := workers[w := Exited];
        return;
      }
      var next := waiting[0];
      waiting := waiting[1..];
      workers := workers[w := Running(next)];
      taken := taken + [next];
    }

    method Complete(w: nat)
      requires w < |workers| && workers[w].Running?
      modifies this
      ensures View() == Apply(old(View()), Finish(w))
    {
      completions := completions + [workers[w].id];
      workers := workers[w := Looking];
    }

    method CollectCompletions()
      requires Enabled(View(), Collect)
      modifies this
      ensures View() == Apply(old(View()), Collect)
    {
      ready, completions := completions, [];
    }

    method RunCompletion() returns (id: nat)
      requires Enabled(View(), Deliver)
      modifies this
      ensures id == old(ready)[0]
      ensures View() == Apply(old(View()), Deliver)
    {
      id := ready[0];
      ready := ready[1..];
      delivered := delivered + [id];
    }

    method SetStopped()
      requires Enabled(View(), StopFlag)
      modifies this
      ensures View() == Apply(old(View()), StopFlag)
    {
      stopped := true;
      stop := Flagged;
    }

    method NotifyAll()
      requires Enabled(View(), StopNotify)
      modifies this
      ensures View() == Apply(old(View()), StopNotify)
    {
      ghost var before := workers;
      for w := 0 to |workers|
        invariant |workers| == |before|
        invariant View() == old(View()).(workers := workers)
        invariant forall k | 0 <= k < w :: workers[k] == WakeAll(before)[k]
        invariant forall k | w <= k < |workers| :: workers[k] == before[k]
      {
        if workers[w].Asleep? {
          workers := workers[w := Woken];
        }
      }
      assert workers == WakeAll(before);
      stop := Joining;
    }

    /** After the last join. */
    method ClearAll()
      requires Enabled(View(), StopFinish)
      modifies this
      ensures View() == Apply(old(View()), StopFinish)
    {
      assert Apply(View(), StopFinish) == DoStopFinish(View());
      dropped, discarded := dropped + waiting, discarded + completions;
      workers, waiting, completions, stop := [], [], [], Closed;
    }
  }
}
