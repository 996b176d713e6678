/** What becomes of every held commit, over whole traces. */
module CommitFates {
  import opened Slots
  import opened PendingCommits

  // ---- What should become of a hold, read off the trace alone ----

  datatype Fate = Waiting | Ran | Superseded | Dropped

  /** What a later operation does to the hold made at place i, if it has not been settled yet. */
  function Verdict(held: Op, i: nat, later: Op): Fate
    requires held.Hold?
  {
    match later
    case Hold(slot, index) =>
      if slot != held.slot then Waiting else if index == held.index then Superseded else Ran
    case ApplyNow(slot) => if slot == held.slot then Ran else Waiting
    case Drop(slot) => if slot == held.slot then Dropped else Waiting
    case SlotChanged(slot) => if slot == held.slot then Dropped else Waiting
    case Elapse(timer) => if timer == i then Ran else Waiting
  }

  /** The first operation after place i with a verdict decides. */
  function FateOf(ops: seq<Op>, i: nat): Fate
    requires i < |ops| && ops[i].Hold?
  {
    var last := |ops| - 1;
    if i == last then Waiting
    else if FateOf(ops[..last], i) != Waiting then FateOf(ops[..last], i)
    else Verdict(ops[i], i, ops[last])
  }

  lemma {:induction false} FirstVerdictDecides(ops: seq<Op>, i: nat)
    requires i < |ops| && ops[i].Hold?
    ensures FateOf(ops, i) == Waiting <==> forall j | i < j < |ops| :: Verdict(ops[i], i, ops[j]) == Waiting
    ensures FateOf(ops, i) != Waiting ==>
              exists j :: i < j < |ops| && Verdict(ops[i], i, ops[j]) == FateOf(ops, i)
                          && forall k | i < k < j :: Verdict(ops[i], i, ops[k]) == Waiting
  {
    var last := |ops| - 1;
    if i < last {
      FirstVerdictDecides(ops[..last], i);
      if FateOf(ops[..last], i) != Waiting {
        var j :| i < j < last && Verdict(ops[i], i, ops[..last][j]) == FateOf(ops, i)
                 && forall k | i < k < j :: Verdict(ops[i], i, ops[..last][k]) == Waiting;
        assert ops[..last][j] == ops[j];
        assert forall k | i < k < j :: ops[..last][k] == ops[k];
      } else {
        assert forall k | i < k < last :: ops[..last][k] == ops[k];
      }
    }
  }

  predicate IsHold(ops: seq<Op>, i: nat) {
    i < |ops| && ops[i].Hold? && IsValidSlot(ops[i].slot)
  }

  /** The state says of every hold what the trace says. */
  ghost predicate Agrees(ops: seq<Op>, s: State) {
    && s.next == |ops|
    && (forall slot | slot in s.entries ::
          var e := s.entries[slot];
          IsHold(ops, e.hold) && ops[e.hold] == Hold(slot, e.index) && FateOf(ops, e.hold) == Waiting)
    && (forall i: nat | IsHold(ops, i) && FateOf(ops, i) == Waiting ::
          ops[i].slot in s.entries && s.entries[ops[i].slot].hold == i)
  }

  /** The live timers are exactly those of the current entries. */
  ghost predicate TimersMatch(s: State) {
    && (forall slot | slot in s.entries ::
          s.entries[slot].hold in s.timers && s.timers[s.entries[slot].hold] == slot && s.entries[slot].hold < s.next)
    && (forall t | t in s.timers :: s.timers[t] in s.entries && s.entries[s.timers[t]].hold == t)
  }

  ghost predicate RanMatches(ops: seq<Op>, s: State) {
    forall i: nat :: multiset(s.ran)[i] == if IsHold(ops, i) && FateOf(ops, i) == Ran then 1 else 0
  }

  lemma StepKeepsTimers(s: State, op: Op)
    requires TimersMatch(s)
    ensures TimersMatch(Apply(s, op))
  {
  }

  lemma StepKeepsAgreement(ops: seq<Op>, op: Op, s: State)
    requires Agrees(ops, s) && TimersMatch(s)
    ensures Agrees(ops + [op], Apply(s, op))
  {
    assert (ops + [op])[..|ops|] == ops;
  }

  /** Whether an operation runs what slot holds. */
  predicate Runs(s: State, op: Op, slot: int)
    requires slot in s.entries
  {
    match op
    case Hold(other, index) => IsValidSlot(other) && other == slot && s.entries[slot].index != index
    case ApplyNow(other) => other == slot
    case Drop(_) => false
    case SlotChanged(_) => false
    case Elapse(timer) => timer in s.timers && s.timers[timer] == slot
  }

  /** An operation runs at most the commit of one entry. */
  lemma StepRuns(op: Op, s: State, i: nat)
    requires TimersMatch(s)
    ensures multiset(Apply(s, op).ran)[i] == multiset(s.ran)[i]
         + if exists slot | slot in s.entries :: s.entries[slot].hold == i && Runs(s, op, slot) then 1 else 0
  {
  }

  lemma FateAfterStep(ops: seq<Op>, op: Op, i: nat)
    requires i < |ops| && ops[i].Hold?
    ensures FateOf(ops + [op], i) == if FateOf(ops, i) != Waiting then FateOf(ops, i) else Verdict(ops[i], i, op)
  {
    assert (ops + [op])[..|ops|] == ops;
  }

  lemma StepKeepsRan(ops: seq<Op>, op: Op, s: State)
    requires Agrees(ops, s) && TimersMatch(s) && RanMatches(ops, s)
    ensures RanMatches(ops + [op], Apply(s, op))
  {
    forall i: nat
      ensures multiset(Apply(s, op).ran)[i]
           == if IsHold(ops + [op], i) && FateOf(ops + [op], i) == Ran then 1 else 0
    {
      StepRuns(op, s, i);
      if IsHold(ops, i) {
        FateAfterStep(ops, op, i);
        if FateOf(ops, i) == Waiting {
          assert Runs(s, op, ops[i].slot) <==> Verdict(ops[i], i, op) == Ran;
        }
      }
    }
  }

  lemma {:induction false} EveryRunAgrees(ops: seq<Op>)
    ensures Agrees(ops, After(ops)) && TimersMatch(After(ops)) && RanMatches(ops, After(ops))
  {
    if ops != [] {
      var before := ops[..|ops| - 1];
      EveryRunAgrees(before);
      StepKeepsTimers(After(before), ops[|ops| - 1]);
      StepKeepsAgreement(before, ops[|ops| - 1], After(before));
      StepKeepsRan(before, ops[|ops| - 1], After(before));
      assert before + [ops[|ops| - 1]] == ops;
    }
  }

  // ---- Main results ----

  /** In every run a hold's commit runs exactly once if the first operation that concerns it is a flush, a
      hold of another row or its own timer, and never if it is a repeat of the row, a drop or a slot change.
      A commit that is still held is the slot's entry. */
  lemma {:induction false} EachHoldMeetsItsFate(ops: seq<Op>, i: nat)
    requires IsHold(ops, i)
    ensures multiset(After(ops).ran)[i] == if FateOf(ops, i) == Ran then 1 else 0
    ensures FateOf(ops, i) == Waiting <==>
              ops[i].slot in After(ops).entries && After(ops).entries[ops[i].slot].hold == i
  {
    EveryRunAgrees(ops);
  }

  /** A live timer always belongs to its slot's current entry, and every entry has one. */
  lemma LiveTimersAreCurrent(ops: seq<Op>)
    ensures var s := After(ops);
            && (forall t | t in s.timers :: s.timers[t] in s.entries && s.entries[s.timers[t]].hold == t)
            && (forall slot | slot in s.entries ::
                  s.entries[slot].hold in s.timers && s.timers[s.entries[slot].hold] == slot)
  {
    EveryRunAgrees(ops);
  }
}
