// A batch always concludes: it never blocks, and it cannot go on forever.
module BatchProgress {
  import opened Batch
  import opened Wrappers

  // The workers that were started are there until the jobs are closed, and the
  // lock is held by one of them.
  ghost predicate Alive(r: Request, s: State) {
    && |s.workers| == |Initial(r).workers|
    && (s.dispatcher != Closed ==> forall w :: 0 <= w < |s.workers| ==> s.workers[w] != Exited)
    && (s.lock.Some? ==> s.lock.value < |s.workers|)
  }

  lemma StepKeepsAlive(r: Request, s: State, step: Step)
    requires Alive(r, s) && Enabled(r, s, step)
    ensures Alive(r, Apply(r, s, step))
  {
  }

  lemma {:induction false} RunKeepsAlive(r: Request, states: seq<State>, steps: seq<Step>, k: nat)
    requires Run(r, states, steps) && k < |states|
    ensures Alive(r, states[k])
  {
    if k > 0 {
      hide Alive, Apply, Enabled;
      RunKeepsAlive(r, states, steps, k - 1);
      assert StepAt(r, states, steps, k - 1);
      StepKeepsAlive(r, states[k - 1], steps[k - 1]);
    }
  }

  // The step can be taken and changes the state.
  ghost predicate Moves(r: Request, s: State, step: Step) {
    Enabled(r, s, step) && Apply(r, s, step) != s
  }

  // A worker with a job goes on, or waits for the lock, whose holder goes on.
  lemma HolderMoves(r: Request, s: State, w: nat) returns (step: Step)
    requires Inv(r, s) && !s.done && w < |s.workers| && Locking(s.workers[w])
    ensures step != CallerCancels && Moves(r, s, step)
  {
    match s.workers[w] {
    case Recorded(_) => step := CheckBudget(w);
    case BudgetPassed(_) => step := CheckContext(w);
    case Admitting(_) => step := Admit(w, true);
    case Refused(_) => step := CancelReads(w);
    }
    assert Apply(r, s, step).workers[w] != s.workers[w];
  }

  lemma WorkerMoves(r: Request, s: State, w: nat) returns (step: Step)
    requires Inv(r, s) && Alive(r, s) && !s.done && w < |s.workers| && Holds(s.workers[w])
    ensures step != CallerCancels && Moves(r, s, step)
  {
    assert WorkerOk(r, s, w);
    if Locking(s.workers[w]) {
      step := HolderMoves(r, s, w);
    } else if s.workers[w].Finished? && s.lock.Some? {
      assert WorkerOk(r, s, s.lock.value);
      step := HolderMoves(r, s, s.lock.value);
    } else {
      match s.workers[w] {
      case Got(_) => step := Start(w);
      case Executing(_) => step := Finish(w, Completed);
      case BudgetSet(_) => step := ContentCancel(w);
      case Finished(_, _) => step := Record(w);
      }
      assert Apply(r, s, step).workers[w] != s.workers[w];
    }
  }

  // As long as it has not concluded, a batch with a worker can go on without
  // the caller's help.
  lemma StateMoves(r: Request, s: State) returns (step: Step)
    requires Inv(r, s) && Alive(r, s) && !s.done && r.concurrency > 0
    ensures step != CallerCancels && Moves(r, s, step)
  {
    if s.dispatcher == Checking {
      step := if s.next < |r.ids| then Check else Close;
      assert Apply(r, s, step) != s;
    } else if w: nat :| w < |s.workers| && Holds(s.workers[w]) {
      step := WorkerMoves(r, s, w);
    } else if s.dispatcher == Selecting {
      assert s.workers[0] == Idle;
      step := Send(0);
      assert Apply(r, s, step).workers[0] != s.workers[0];
    } else if w: nat :| w < |s.workers| && s.workers[w] != Exited {
      step := Exit(w);
      assert Apply(r, s, step).workers[w] != s.workers[w];
    } else {
      step := Conclude;
      assert Apply(r, s, step).done;
    }
  }

  lemma NeverStuck(r: Request, states: seq<State>, steps: seq<Step>)
    requires Run(r, states, steps) && !states[|steps|].done && r.concurrency > 0
    ensures exists step :: step != CallerCancels && Moves(r, states[|steps|], step)
  {
    RunInv(r, states, steps, |steps|);
    RunKeepsAlive(r, states, steps, |steps|);
    var step := StateMoves(r, states[|steps|]);
  }

  // ----- a bound on what is left to do

  function WorkerLeft(k: Worker): nat {
    match k
    case Exited => 0
    case Idle => 1
    case Refused(_) => 2
    case Admitting(_) => 3
    case BudgetPassed(_) => 4
    case Recorded(_) => 5
    case Finished(_, _) => 6
    case Executing(_) => 7
    case BudgetSet(_) => 8
    case Got(_) => 9
  }

  function WorkersLeft(workers: seq<Worker>): nat {
    if workers == [] then 0 else WorkerLeft(workers[0]) + WorkersLeft(workers[1..])
  }

  function DispatcherLeft(d: Dispatcher): nat {
    match d
    case Closed => 0
    case Selecting => 1
    case Checking => 2
  }

  function Left(r: Request, s: State): nat {
    20 * (if s.next < |r.ids| then |r.ids| - s.next else 0) + DispatcherLeft(s.dispatcher) + WorkersLeft(s.workers)
    + (if s.budget then 0 else 10) + (if s.cancelled then 0 else 1) + (if s.done then 0 else 1)
  }

  lemma {:induction false} LeftAfter(workers: seq<Worker>, w: nat, k: Worker)
    requires w < |workers|
    ensures WorkersLeft(workers[w := k]) == WorkersLeft(workers) - WorkerLeft(workers[w]) + WorkerLeft(k)
  {
    if w == 0 {
      assert workers[0 := k][1..] == workers[1..];
    } else {
      assert workers[w := k][1..] == workers[1..][w - 1 := k];
      LeftAfter(workers[1..], w - 1, k);
    }
  }

  lemma WorkerLeavesLess(r: Request, s: State, step: Step)
    requires Inv(r, s) && Moves(r, s, step) && Actor(step).Some?
    ensures Left(r, Apply(r, s, step)) < Left(r, s)
  {
    hide WorkersOk, ItemsOk, AdmissionsOk, WorkersLeft;
    var t := Apply(r, s, step);
    var w := Actor(step).value;
    assert t.workers == s.workers[w := t.workers[w]];
    LeftAfter(s.workers, w, t.workers[w]);
  }

  lemma StepLeavesLess(r: Request, s: State, step: Step)
    requires Inv(r, s) && Moves(r, s, step)
    ensures Left(r, Apply(r, s, step)) < Left(r, s)
  {
    hide WorkersOk, ItemsOk, AdmissionsOk, WorkersLeft;
    if Actor(step).Some? {
      WorkerLeavesLess(r, s, step);
    }
  }

  // Every step that changes anything leaves less to do.
  lemma {:induction false} LeftBounds(r: Request, states: seq<State>, steps: seq<Step>, k: nat)
    requires Run(r, states, steps) && k < |states| == |steps| + 1
    requires forall i :: 0 <= i < |steps| ==> states[i + 1] != states[i]
    ensures k + Left(r, states[k]) <= Left(r, Initial(r))
  {
    if k > 0 {
      hide *;
      LeftBounds(r, states, steps, k - 1);
      RunInv(r, states, steps, k - 1);
      RunStep(r, states, steps, k - 1);
      assert states[(k - 1) + 1] != states[k - 1];
      StepLeavesLess(r, states[k - 1], steps[k - 1]);
    } else {
      RunStart(r, states, steps);
    }
  }

  lemma RunStart(r: Request, states: seq<State>, steps: seq<Step>)
    requires Run(r, states, steps)
    ensures |states| == |steps| + 1 && states[0] == Initial(r)
  {
  }

  lemma RunStep(r: Request, states: seq<State>, steps: seq<Step>, k: nat)
    requires Run(r, states, steps) && k < |steps|
    ensures |states| == |steps| + 1 && Enabled(r, states[k], steps[k]) && states[k + 1] == Apply(r, states[k], steps[k])
    ensures states[k + 1] != states[k] ==> Moves(r, states[k], steps[k])
  {
    assert StepAt(r, states, steps, k);
  }

  lemma {:induction false} IdleLeft(workers: seq<Worker>)
    requires forall i :: 0 <= i < |workers| ==> workers[i] == Idle
    ensures WorkersLeft(workers) == |workers|
  {
    if workers != [] {
      IdleLeft(workers[1..]);
    }
  }

  // A run without idle steps is short.
  lemma EveryRunIsBounded(r: Request, states: seq<State>, steps: seq<Step>)
    requires Run(r, states, steps)
    requires forall i :: 0 <= i < |steps| ==> states[i + 1] != states[i]
    ensures |steps| <= 21 * |r.ids| + 14
  {
    LeftBounds(r, states, steps, |steps|);
    IdleLeft(Initial(r).workers);
  }
}
