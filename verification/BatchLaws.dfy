// What a concluded batch says of its run: whose result each item carries, what
// was run and offered for admission, and what stopped the rest.
module BatchLaws {
  import opened Batch
  import opened Wrappers

  // ----- results

  // Step `k` ends the execution of item `i` with a result.
  ghost predicate FinishesAt(states: seq<State>, steps: seq<Step>, k: nat, i: nat, result: ItemState) {
    && k < |steps| && k < |states| && steps[k].Finish? && steps[k].result == result
    && steps[k].w < |states[k].workers| && states[k].workers[steps[k].w].Executing?
    && states[k].workers[steps[k].w].index == i
  }

  // The item's result is on record, or with the worker that ran it.
  ghost predicate ResultIs(r: Request, s: State, i: nat, result: ItemState) {
    && i < |r.ids| && |s.items| == |s.executed| == |s.owner| == |r.ids| && s.executed[i] == 1
    && (|| s.items[i].state == result
        || (!s.done && s.items[i].state == Skipped && s.owner[i] < |s.workers|
            && s.workers[s.owner[i]] == Finished(i, result)))
  }

  // No result of the item is on record or with a worker.
  ghost predicate NoResult(r: Request, s: State, i: nat) {
    && i < |r.ids| && |s.items| == |r.ids| && s.items[i].state in {Skipped, SkippedBudget}
    && (!s.done ==> forall w :: 0 <= w < |s.workers| && s.workers[w].Finished? ==> s.workers[w].index != i)
  }

  lemma FinishedResult(r: Request, s: State, w: nat, result: ItemState)
    requires Inv(r, s) && Enabled(r, s, Finish(w, result))
    ensures ResultIs(r, Apply(r, s, Finish(w, result)), s.workers[w].index, result)
  {
    assert WorkerOk(r, s, w);
  }

  lemma ResultStays(r: Request, s: State, step: Step, i: nat, result: ItemState)
    requires Inv(r, s) && Enabled(r, s, step) && ResultIs(r, s, i, result) && result !in {Skipped, SkippedBudget}
    ensures ResultIs(r, Apply(r, s, step), i, result)
  {
    hide WorkersOk, ItemsOk, AdmissionsOk;
    if Actor(step).Some? {
      ActorOk(r, s, step);
    }
    ItemIsOk(r, s, i);
  }

  lemma ItemIsOk(r: Request, s: State, i: nat)
    requires Inv(r, s) && !s.done && i < |r.ids|
    ensures ItemOk(r, s, i) && (s.owner[i] < |s.workers| ==> WorkerOk(r, s, s.owner[i]))
  {
  }

  lemma {:induction false} ResultRemains(
    r: Request, states: seq<State>, steps: seq<Step>, k: nat, n: nat, i: nat, result: ItemState)
    requires Run(r, states, steps) && FinishesAt(states, steps, k, i, result) && k < n < |states|
    ensures ResultIs(r, states[n], i, result)
    decreases n
  {
    hide Inv, Apply, ResultIs;
    RunInv(r, states, steps, n - 1);
    assert StepAt(r, states, steps, n - 1);
    if n == k + 1 {
      FinishedResult(r, states[k], steps[k].w, result);
    } else {
      ResultRemains(r, states, steps, k, n - 1, i, result);
      ResultOfFinish(r, states, steps, k, i, result);
      ResultStays(r, states[n - 1], steps[n - 1], i, result);
    }
  }

  lemma ResultOfFinish(r: Request, states: seq<State>, steps: seq<Step>, k: nat, i: nat, result: ItemState)
    requires Run(r, states, steps) && FinishesAt(states, steps, k, i, result)
    ensures result !in {Skipped, SkippedBudget}
  {
    assert StepAt(r, states, steps, k);
  }

  lemma NoResultStays(r: Request, s: State, step: Step, i: nat)
    requires Inv(r, s) && Enabled(r, s, step) && NoResult(r, s, i)
    requires step.Finish? ==> s.workers[step.w].index != i
    ensures NoResult(r, Apply(r, s, step), i)
  {
    hide WorkersOk, ItemsOk, AdmissionsOk;
  }

  lemma {:induction false} FinishedOrNoResult(r: Request, states: seq<State>, steps: seq<Step>, n: nat, i: nat)
    requires Run(r, states, steps) && n < |states| && i < |r.ids|
    ensures NoResult(r, states[n], i) || exists k: nat, result :: k < n && FinishesAt(states, steps, k, i, result)
    decreases n
  {
    hide Inv, Apply;
    if n == 0 {
      assert states[0] == Initial(r);
    } else {
      FinishedOrNoResult(r, states, steps, n - 1, i);
      RunInv(r, states, steps, n - 1);
      assert StepAt(r, states, steps, n - 1);
      var s, step := states[n - 1], steps[n - 1];
      if step.Finish? && s.workers[step.w].index == i {
        assert FinishesAt(states, steps, n - 1, i, step.result);
      } else if NoResult(r, s, i) {
        NoResultStays(r, s, step, i);
      }
    }
  }

  // Every item is reported with the result its execution finished with, and an
  // item that ran has finished.
  lemma ReportedAsFinished(r: Request, states: seq<State>, steps: seq<Step>, i: nat)
    requires Run(r, states, steps) && states[|steps|].done && i < |r.ids|
    ensures
      var s := states[|steps|];
      && |s.items| == |s.executed| == |r.ids|
      && (forall k: nat, result :: FinishesAt(states, steps, k, i, result) ==> s.items[i].state == result)
      && (s.executed[i] == 1 <==> exists k: nat, result :: FinishesAt(states, steps, k, i, result))
  {
    var s := states[|steps|];
    EveryRunConcludesWell(r, states, steps);
    forall k: nat, result | FinishesAt(states, steps, k, i, result)
      ensures s.items[i].state == result && s.executed[i] == 1
    {
      ResultRemains(r, states, steps, k, |steps|, i, result);
    }
    FinishedOrNoResult(r, states, steps, |steps|, i);
  }

  // ----- what stops a batch

  // The budget stops a batch: a message's content or a result did not fit.
  predicate StopsBudget(step: Step) {
    step.ContentStop? || (step.Admit? && !step.ok)
  }

  ghost predicate StoppedBy(steps: seq<Step>, n: nat) {
    exists k :: 0 <= k < n && k < |steps| && StopsBudget(steps[k])
  }

  ghost predicate CancelledBy(steps: seq<Step>, n: nat) {
    exists k :: 0 <= k < n && k < |steps| && steps[k] == CallerCancels
  }

  // The budget flag before it has had its effect.
  predicate Stopping(k: Worker) {
    k.BudgetSet? || k.Refused?
  }

  // Skipped items bear the mark of the budget exactly when it stopped the batch.
  ghost predicate MarksOk(r: Request, s: State) {
    s.done ==> |s.items| == |r.ids| && forall i :: 0 <= i < |r.ids| ==>
      (s.items[i].state == Skipped ==> !s.budget) && (s.items[i].state == SkippedBudget ==> s.budget)
  }

  // Whoever set the budget flag goes on to cancel.
  ghost predicate StopOk(s: State) {
    && (forall w :: 0 <= w < |s.workers| && Stopping(s.workers[w]) ==> s.budget)
    && (s.budget && !s.cancelled && !s.done ==> exists w :: 0 <= w < |s.workers| && Stopping(s.workers[w]))
  }

  lemma StepMarks(r: Request, s: State, step: Step)
    requires Inv(r, s) && Enabled(r, s, step)
    ensures MarksOk(r, Apply(r, s, step))
  {
    if step.Conclude? {
      var t := Apply(r, s, step);
      forall i | 0 <= i < |r.ids|
        ensures (t.items[i].state == Skipped ==> !t.budget) && (t.items[i].state == SkippedBudget ==> t.budget)
      {
        assert ItemOk(r, s, i);
      }
    }
  }

  lemma StepStops(r: Request, s: State, step: Step)
    requires StopOk(s) && Enabled(r, s, step)
    ensures StopOk(Apply(r, s, step))
  {
    var t := Apply(r, s, step);
    if w :| 0 <= w < |s.workers| && Stopping(s.workers[w]) {
      assert w < |t.workers|;
      assert t.workers[w] == s.workers[w] || Actor(step) == Option.Some(w);
      if t.budget && !t.cancelled {
        assert Stopping(t.workers[w]);
      }
    }
    if Actor(step).Some? {
      assert Stopping(t.workers[Actor(step).value]) ==> t.budget;
    }
  }

  lemma StepFlags(r: Request, s: State, step: Step)
    requires Enabled(r, s, step) && StopOk(s)
    ensures Apply(r, s, step).budget <==> s.budget || StopsBudget(step)
    ensures Apply(r, s, step).cancelled ==> s.cancelled || s.budget || step == CallerCancels
  {
  }

  lemma OneMoreStep(steps: seq<Step>, n: nat)
    requires n < |steps|
    ensures StoppedBy(steps, n + 1) <==> StoppedBy(steps, n) || StopsBudget(steps[n])
    ensures CancelledBy(steps, n + 1) <==> CancelledBy(steps, n) || steps[n] == CallerCancels
  {
  }

  lemma {:induction false} RunFlags(r: Request, states: seq<State>, steps: seq<Step>, n: nat)
    requires Run(r, states, steps) && n < |states|
    ensures StopOk(states[n]) && MarksOk(r, states[n])
    ensures states[n].budget <==> StoppedBy(steps, n)
    ensures states[n].cancelled ==> StoppedBy(steps, n) || CancelledBy(steps, n)
  {
    if n == 0 {
      assert states[0] == Initial(r);
    } else {
      hide Inv, Apply, Enabled, StopOk, MarksOk, StoppedBy, CancelledBy;
      RunFlags(r, states, steps, n - 1);
      RunInv(r, states, steps, n - 1);
      assert StepAt(r, states, steps, n - 1);
      StepStops(r, states[n - 1], steps[n - 1]);
      StepMarks(r, states[n - 1], steps[n - 1]);
      StepFlags(r, states[n - 1], steps[n - 1]);
      OneMoreStep(steps, n - 1);
    }
  }

  // ----- nothing is left out without a reason

  // Of a batch that has not been cancelled: every item sent has been run or is
  // about to be, and every item is sent before the jobs are closed.
  ghost predicate Undisturbed(r: Request, s: State) {
    && |s.owner| == |s.executed| == |r.ids|
    && if s.done then forall i :: 0 <= i < |r.ids| ==> s.executed[i] == 1
       else
         && s.next == s.sent <= |r.ids| && (s.dispatcher == Closed ==> s.sent == |r.ids|)
         && forall i :: 0 <= i < s.sent ==> UnderWay(s, i)
  }

  ghost predicate UnderWay(s: State, i: nat)
    requires i < |s.owner| == |s.executed|
  {
    s.executed[i] == 1 || (s.owner[i] < |s.workers| && s.workers[s.owner[i]] == Got(i))
  }

  lemma StepUndisturbed(r: Request, s: State, step: Step)
    requires Inv(r, s) && Enabled(r, s, step) && Undisturbed(r, s) && !Apply(r, s, step).cancelled
    ensures Undisturbed(r, Apply(r, s, step))
  {
    var t := Apply(r, s, step);
    if step.Conclude? {
      forall i | 0 <= i < |r.ids| ensures t.executed[i] == 1 {
        assert UnderWay(s, i);
      }
    } else {
      StepShape(r, s, step);
      if Actor(step).Some? {
        ActorOk(r, s, step);
      }
      forall i | 0 <= i < t.sent ensures UnderWay(t, i) {
        assert i < s.sent ==> UnderWay(s, i);
      }
    }
  }

  lemma {:induction false} RunUndisturbed(r: Request, states: seq<State>, steps: seq<Step>, n: nat)
    requires Run(r, states, steps) && n < |states| && !states[n].cancelled
    ensures Undisturbed(r, states[n])
  {
    if n == 0 {
      assert states[0] == Initial(r);
    } else {
      hide Inv, Enabled, Undisturbed;
      RunInv(r, states, steps, n - 1);
      assert StepAt(r, states, steps, n - 1);
      assert !states[n - 1].cancelled;
      RunUndisturbed(r, states, steps, n - 1);
      StepUndisturbed(r, states[n - 1], steps[n - 1]);
    }
  }

  // When a batch leaves items out: a budget stop has occurred exactly when the
  // skipped items bear its mark, and without one and without a cancellation by
  // the caller every item has run.
  lemma ItemsAreSkippedForAReason(r: Request, states: seq<State>, steps: seq<Step>, i: nat)
    requires Run(r, states, steps) && states[|steps|].done && i < |r.ids|
    ensures
      var s := states[|steps|];
      && |s.items| == |s.executed| == |r.ids|
      && (s.items[i].state == SkippedBudget <==> s.executed[i] == 0 && StoppedBy(steps, |steps|))
      && (s.items[i].state == Skipped <==> s.executed[i] == 0 && !StoppedBy(steps, |steps|))
      && (s.executed[i] == 0 ==> StoppedBy(steps, |steps|) || CancelledBy(steps, |steps|))
  {
    hide Inv, StoppedBy, CancelledBy;
    EveryRunConcludesWell(r, states, steps);
    RunFlags(r, states, steps, |steps|);
    if !states[|steps|].cancelled {
      RunUndisturbed(r, states, steps, |steps|);
    }
  }

  // ----- what is offered for admission

  predicate Pending(k: Worker) {
    k.Recorded? || k.BudgetPassed? || k.Admitting?
  }

  predicate Offers(r: Request) {
    r.kind == Read && r.admission
  }

  function OnRecord(items: seq<Item>): nat {
    if items == [] then 0
    else OnRecord(items[..|items| - 1]) + if items[|items| - 1].state in {Skipped, SkippedBudget} then 0 else 1
  }

  lemma {:induction false} OneOnRecord(items: seq<Item>, i: nat, item: Item)
    requires i < |items| && items[i].state == Skipped && item.state !in {Skipped, SkippedBudget}
    ensures OnRecord(items[i := item]) == OnRecord(items) + 1
    decreases |items|
  {
    var shorter := items[..|items| - 1];
    if i < |shorter| {
      OneOnRecord(shorter, i, item);
      assert items[i := item][..|items| - 1] == shorter[i := item];
    } else {
      assert items[i := item][..|items| - 1] == shorter;
    }
  }

  lemma {:induction false} AllOnRecord(items: seq<Item>)
    requires forall i :: 0 <= i < |items| ==> items[i].state !in {Skipped, SkippedBudget}
    ensures OnRecord(items) == |items|
  {
    if items != [] {
      AllOnRecord(items[..|items| - 1]);
    }
  }

  lemma {:induction false} NoneOnRecord(items: seq<Item>)
    requires forall i :: 0 <= i < |items| ==> items[i].state == Skipped
    ensures OnRecord(items) == 0
  {
    if items != [] {
      NoneOnRecord(items[..|items| - 1]);
    }
  }

  // The result whose admission the lock holder is about to ask for.
  ghost function InHand(s: State): nat {
    if s.lock.Some? && s.lock.value < |s.workers| && Pending(s.workers[s.lock.value]) then 1 else 0
  }

  // Of a batch that has not been stopped: each result on record has been
  // offered once, but for one that is about to be.
  ghost predicate AllOffered(s: State) {
    && |s.admissions| + InHand(s) == OnRecord(s.items)
    && forall k :: 0 <= k < |s.admissions| ==> s.admissions[k]
  }

  lemma StepOffers(r: Request, s: State, step: Step)
    requires Inv(r, s) && Enabled(r, s, step) && Offers(r) && AllOffered(s)
    requires !Apply(r, s, step).cancelled && !Apply(r, s, step).budget
    ensures AllOffered(Apply(r, s, step))
  {
    hide ItemsOk, AdmissionsOk, WorkersOk;
    var t := Apply(r, s, step);
    if Actor(step).Some? {
      ActorOk(r, s, step);
    }
    if step.Record? {
      var i := s.workers[step.w].index;
      OneOnRecord(s.items, i, t.items[i]);
    }
    if s.lock.Some? && Actor(step).Some? && s.lock.value < |s.workers| && s.lock.value != Actor(step).value {
      assert t.workers[s.lock.value] == s.workers[s.lock.value];
    }
  }

  lemma {:induction false} RunOffers(r: Request, states: seq<State>, steps: seq<Step>, n: nat)
    requires Run(r, states, steps) && n < |states| && Offers(r)
    requires !states[n].cancelled && !states[n].budget
    ensures AllOffered(states[n])
  {
    if n == 0 {
      assert states[0] == Initial(r);
      NoneOnRecord(Initial(r).items);
    } else {
      hide Inv, Enabled, AllOffered;
      RunInv(r, states, steps, n - 1);
      assert StepAt(r, states, steps, n - 1);
      assert !states[n - 1].cancelled && !states[n - 1].budget;
      RunOffers(r, states, steps, n - 1);
      StepOffers(r, states[n - 1], steps[n - 1]);
    }
  }

  // No admission is asked for, nor about to be.
  ghost predicate NothingOffered(s: State) {
    s.admissions == [] && forall w :: 0 <= w < |s.workers| ==> !s.workers[w].BudgetPassed? && !s.workers[w].Admitting?
  }

  lemma {:induction false} RunOffersNothing(r: Request, states: seq<State>, steps: seq<Step>, n: nat)
    requires Run(r, states, steps) && n < |states| && !Offers(r)
    ensures NothingOffered(states[n])
  {
    if n == 0 {
      assert states[0] == Initial(r);
    } else {
      hide Enabled, Apply, NothingOffered;
      RunOffersNothing(r, states, steps, n - 1);
      assert StepAt(r, states, steps, n - 1);
      StepOffersNothing(r, states[n - 1], steps[n - 1]);
    }
  }

  lemma StepOffersNothing(r: Request, s: State, step: Step)
    requires Enabled(r, s, step) && !Offers(r) && NothingOffered(s)
    ensures NothingOffered(Apply(r, s, step))
  {
  }

  // Every result of a read that was not stopped has been offered for admission
  // once and admitted; in any other batch than an admitting read none is
  // offered.
  lemma EveryResultIsOffered(r: Request, states: seq<State>, steps: seq<Step>)
    requires Run(r, states, steps) && states[|steps|].done
    ensures !Offers(r) ==> states[|steps|].admissions == []
    ensures
      Offers(r) && !StoppedBy(steps, |steps|) && !CancelledBy(steps, |steps|) ==>
        && |states[|steps|].admissions| == |r.ids|
        && forall k :: 0 <= k < |r.ids| ==> states[|steps|].admissions[k]
  {
    hide StoppedBy, CancelledBy, Inv, StopOk, MarksOk;
    RunFlags(r, states, steps, |steps|);
    if !Offers(r) {
      RunOffersNothing(r, states, steps, |steps|);
    } else if !StoppedBy(steps, |steps|) && !CancelledBy(steps, |steps|) {
      RunOffers(r, states, steps, |steps|);
      RunUndisturbed(r, states, steps, |steps|);
      EveryRunConcludesWell(r, states, steps);
      AllOnRecord(states[|steps|].items);
      NobodyIsLeft(r, states, steps);
    }
  }

  lemma NobodyIsLeft(r: Request, states: seq<State>, steps: seq<Step>)
    requires Run(r, states, steps) && states[|steps|].done
    ensures InHand(states[|steps|]) == 0
  {
    RunExits(r, states, steps, |steps|);
  }

  lemma RunExits(r: Request, states: seq<State>, steps: seq<Step>, n: nat)
    requires Run(r, states, steps) && n < |states| && states[n].done
    ensures forall w :: 0 <= w < |states[n].workers| ==> states[n].workers[w] == Exited
  {
    assert states[0] == Initial(r);
    if n > 0 {
      assert StepAt(r, states, steps, n - 1);
      StepExits(r, states[n - 1], steps[n - 1]);
    }
  }

  lemma StepExits(r: Request, s: State, step: Step)
    requires Enabled(r, s, step) && Apply(r, s, step).done
    ensures forall w :: 0 <= w < |s.workers| ==> Apply(r, s, step).workers[w] == Exited
    ensures |Apply(r, s, step).workers| == |s.workers|
  {
  }

  // ----- cancellation

  lemma StepOnceCancelled(r: Request, s: State, step: Step)
    requires Enabled(r, s, step) && s.cancelled
    ensures Apply(r, s, step).cancelled && Apply(r, s, step).executed == s.executed
  {
  }

  // Once a batch is cancelled, by its caller or by its budget, no item is
  // started any more.
  lemma {:induction false} NothingStartsOnceCancelled(
    r: Request, states: seq<State>, steps: seq<Step>, k: nat, n: nat)
    requires Run(r, states, steps) && k <= n < |states| && states[k].cancelled
    ensures states[n].cancelled && states[n].executed == states[k].executed
    decreases n
  {
    if k < n {
      NothingStartsOnceCancelled(r, states, steps, k, n - 1);
      assert StepAt(r, states, steps, n - 1);
      StepOnceCancelled(r, states[n - 1], steps[n - 1]);
    }
  }
}
