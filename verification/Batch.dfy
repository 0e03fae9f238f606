// The bounded concurrent batch as interleaved steps of its dispatcher, its
// workers, and the caller who may cancel.
module Batch {
  import opened Wrappers

  datatype Kind = Read | AttachmentSave | Mutation

  datatype ItemState = Completed | Failed | Uncertain | Skipped | SkippedBudget

  datatype Item = Item(id: string, state: ItemState)

  // The request: its operation, its item ids, how many workers it starts, and
  // whether completed results are offered for admission.
  datatype Request = Request(kind: Kind, ids: seq<string>, concurrency: nat, admission: bool)

  // ----- summaries

  datatype Bucket = CompletedItems | FailedItems | UncertainItems | SkippedItems

  function BucketOf(state: ItemState): Bucket {
    match state
    case Completed => CompletedItems
    case Failed => FailedItems
    case Uncertain => UncertainItems
    case Skipped => SkippedItems
    case SkippedBudget => SkippedItems
  }

  function Count(items: seq<Item>, bucket: Bucket): nat {
    if items == [] then 0
    else Count(items[..|items| - 1], bucket) + if BucketOf(items[|items| - 1].state) == bucket then 1 else 0
  }

  datatype Summary = Summary(completed: nat, failed: nat, uncertain: nat, skipped: nat)

  function Total(s: Summary): nat {
    s.completed + s.failed + s.uncertain + s.skipped
  }

  ghost predicate Summarizes(s: Summary, items: seq<Item>) {
    && s.completed == Count(items, CompletedItems) && s.failed == Count(items, FailedItems)
    && s.uncertain == Count(items, UncertainItems) && s.skipped == Count(items, SkippedItems)
  }

  lemma CountNext(items: seq<Item>, i: nat, bucket: Bucket)
    requires i < |items|
    ensures Count(items[..i + 1], bucket)
            == Count(items[..i], bucket) + if BucketOf(items[i].state) == bucket then 1 else 0
  {
    assert items[..i + 1][..i] == items[..i];
  }

  // The loop's counts are the numbers of items in each state, and no item is
  // left out.
  method SummarizeBatchResult(items: seq<Item>) returns (s: Summary)
    ensures Summarizes(s, items)
    ensures Total(s) == |items|
  {
    var completed, failed, uncertain, skipped: nat := 0, 0, 0, 0;
    for i := 0 to |items|
      invariant Summarizes(Summary(completed, failed, uncertain, skipped), items[..i])
      invariant completed + failed + uncertain + skipped == i
    {
      CountNext(items, i, CompletedItems);
      CountNext(items, i, FailedItems);
      CountNext(items, i, UncertainItems);
      CountNext(items, i, SkippedItems);
      match BucketOf(items[i].state) {
      case CompletedItems => completed := completed + 1;
      case FailedItems => failed := failed + 1;
      case UncertainItems => uncertain := uncertain + 1;
      case SkippedItems => skipped := skipped + 1;
      }
    }
    assert items[..|items|] == items;
    s := Summary(completed, failed, uncertain, skipped);
  }

  // ----- the state of a running batch

  // Where a worker is: `Got` before its context check, `BudgetSet` between
  // setting the budget flag and cancelling, `Recorded` to `Refused` while it
  // holds the result lock.
  datatype Worker =
    | Idle
    | Got(index: nat)
    | Executing(index: nat)
    | BudgetSet(index: nat)
    | Finished(index: nat, result: ItemState)
    | Recorded(index: nat)
    | BudgetPassed(index: nat)
    | Admitting(index: nat)
    | Refused(index: nat)
    | Exited

  datatype Dispatcher = Checking | Selecting | Closed

  // `sent` counts the jobs handed over, `owner` is the worker each went to,
  // `executed` how often each item ran, and `admissions` what the admission
  // calls returned.
  datatype State = State(
    dispatcher: Dispatcher, next: nat, sent: nat, workers: seq<Worker>, items: seq<Item>, lock: Option<nat>,
    budget: bool, cancelled: bool, owner: seq<nat>, executed: seq<nat>, admissions: seq<bool>, done: bool)

  datatype Step =
    | Check | Send(w: nat) | Abandon | Close
    | Start(w: nat) | ContentStop(w: nat) | ContentCancel(w: nat) | Finish(w: nat, result: ItemState)
    | Record(w: nat) | CheckBudget(w: nat) | CheckContext(w: nat) | Admit(w: nat, ok: bool) | CancelReads(w: nat)
    | Exit(w: nat) | CallerCancels | Conclude

  function Initial(r: Request): State {
    State(Checking, 0, 0,
          seq(if r.concurrency < |r.ids| then r.concurrency else |r.ids|, i => Idle),
          seq(|r.ids|, i requires 0 <= i < |r.ids| => Item(r.ids[i], Skipped)),
          None, false, false, seq(|r.ids|, i => 0), seq(|r.ids|, i => 0), [], false)
  }

  predicate AtWorker(s: State, w: nat) {
    w < |s.workers| && !s.done
  }

  predicate Allows(r: Request, result: ItemState) {
    result in {Completed, Failed} || (result == Uncertain && r.kind == Mutation)
  }

  predicate InRange(s: State, i: nat) {
    i < |s.items| && i < |s.executed|
  }

  predicate Enabled(r: Request, s: State, step: Step) {
    !s.done &&
    match step
    case Check => s.dispatcher == Checking && s.next < |r.ids|
    case Send(w) => s.dispatcher == Selecting && AtWorker(s, w) && s.workers[w] == Idle && s.next < |s.owner|
    case Abandon => s.dispatcher == Selecting && s.cancelled
    case Close => s.dispatcher == Checking && s.next >= |r.ids|
    case Start(w) => AtWorker(s, w) && s.workers[w].Got? && InRange(s, s.workers[w].index)
    case ContentStop(w) => AtWorker(s, w) && s.workers[w].Executing? && r.kind == Read
    case ContentCancel(w) => AtWorker(s, w) && s.workers[w].BudgetSet?
    case Finish(w, result) => AtWorker(s, w) && s.workers[w].Executing? && Allows(r, result)
    case Record(w) =>
      AtWorker(s, w) && s.workers[w].Finished? && s.lock == None
      && InRange(s, s.workers[w].index) && s.workers[w].index < |r.ids|
    case CheckBudget(w) => AtWorker(s, w) && s.workers[w].Recorded?
    case CheckContext(w) => AtWorker(s, w) && s.workers[w].BudgetPassed?
    case Admit(w, ok) => AtWorker(s, w) && s.workers[w].Admitting?
    case CancelReads(w) => AtWorker(s, w) && s.workers[w].Refused?
    case Exit(w) => AtWorker(s, w) && s.workers[w] == Idle && s.dispatcher == Closed
    case CallerCancels => true
    case Conclude => s.dispatcher == Closed && forall w :: 0 <= w < |s.workers| ==> s.workers[w] == Exited
  }

  function At(s: State, w: nat, worker: Worker): State
    requires w < |s.workers|
  {
    s.(workers := s.workers[w := worker])
  }

  function Unlocked(s: State, w: nat): State
    requires w < |s.workers|
  {
    At(s, w, Idle).(lock := None)
  }

  function Apply(r: Request, s: State, step: Step): State
    requires Enabled(r, s, step)
  {
    match step
    case Check => if s.cancelled then s.(next := |r.ids|) else s.(dispatcher := Selecting)
    case Send(w) => At(s, w, Got(s.next)).(dispatcher := Checking, next := s.next + 1, sent := s.next + 1,
                                             owner := s.owner[s.next := w])
    case Abandon => s.(dispatcher := Checking, next := |r.ids|)
    case Close => s.(dispatcher := Closed)
    case Start(w) =>
      var i := s.workers[w].index;
      if s.cancelled then At(s, w, Idle)
      else At(s, w, Executing(i)).(executed := s.executed[i := s.executed[i] + 1])
    case ContentStop(w) =>
      if s.budget then s else At(s, w, BudgetSet(s.workers[w].index)).(budget := true)
    case ContentCancel(w) => At(s, w, Executing(s.workers[w].index)).(cancelled := true)
    case Finish(w, result) => At(s, w, Finished(s.workers[w].index, result))
    case Record(w) =>
      var i := s.workers[w].index;
      At(s, w, Recorded(i)).(lock := Some(w), items := s.items[i := Item(r.ids[i], s.workers[w].result)])
    case CheckBudget(w) =>
      if r.kind != Read || !r.admission || s.budget then Unlocked(s, w)
      else At(s, w, BudgetPassed(s.workers[w].index))
    case CheckContext(w) =>
      if s.cancelled then Unlocked(s, w) else At(s, w, Admitting(s.workers[w].index))
    case Admit(w, ok) =>
      var asked := s.(admissions := s.admissions + [ok]);
      if ok || s.budget then Unlocked(asked, w)
      else At(asked, w, Refused(s.workers[w].index)).(budget := true)
    case CancelReads(w) => Unlocked(s, w).(cancelled := true)
    case Exit(w) => At(s, w, Exited)
    case CallerCancels => s.(cancelled := true)
    case Conclude =>
      s.(done := true, items := if s.budget then Converted(s.items) else s.items)
  }

  // Untouched items of a batch that the budget stopped.
  function Converted(items: seq<Item>): seq<Item> {
    seq(|items|, i requires 0 <= i < |items| =>
      if items[i].state == Skipped then items[i].(state := SkippedBudget) else items[i])
  }

  // ----- the invariant

  predicate Holds(k: Worker) {
    !k.Idle? && !k.Exited?
  }

  predicate Locking(k: Worker) {
    k.Recorded? || k.BudgetPassed? || k.Admitting? || k.Refused?
  }

  // The worker runs item `i`, whose result is not recorded yet.
  predicate Runs(k: Worker, i: nat) {
    (k.Executing? || k.BudgetSet? || k.Finished?) && k.index == i
  }

  ghost predicate Shape(r: Request, s: State) {
    && |s.items| == |s.executed| == |s.owner| == |r.ids|
    && (forall i :: 0 <= i < |r.ids| ==> s.items[i].id == r.ids[i])
    && s.sent <= |r.ids| && (s.next == s.sent || s.next == |r.ids|)
    && (s.dispatcher == Selecting ==> s.next < |r.ids|)
  }

  // Each worker that holds a job owns it, and the lock has one holder.
  ghost predicate WorkersOk(r: Request, s: State)
    requires Shape(r, s)
  {
    forall w :: 0 <= w < |s.workers| ==> WorkerOk(r, s, w)
  }

  ghost predicate WorkerOk(r: Request, s: State, w: nat)
    requires Shape(r, s) && w < |s.workers|
  {
    var k := s.workers[w];
    && (Locking(k) <==> s.lock == Some(w))
    && (k.BudgetPassed? || k.Admitting? ==> r.kind == Read)
    && (Holds(k) ==>
          && k.index < s.sent && s.owner[k.index] == w
          && s.executed[k.index] == (if k.Got? then 0 else 1)
          && (Locking(k) <==> s.items[k.index].state != Skipped)
          && (k.Finished? ==> Allows(r, k.result)))
  }

  ghost predicate ItemsOk(r: Request, s: State)
    requires Shape(r, s)
  {
    forall i :: 0 <= i < |r.ids| ==> ItemOk(r, s, i)
  }

  // An item ran at most once; if it ran and its result is not recorded, its
  // owner is still running it.
  ghost predicate ItemOk(r: Request, s: State, i: nat)
    requires Shape(r, s) && i < |r.ids|
  {
    && s.executed[i] <= 1
    && (i >= s.sent ==> s.executed[i] == 0)
    && (s.executed[i] == 0 ==> s.items[i].state == Skipped)
    && (s.executed[i] == 1 && s.items[i].state == Skipped ==>
          s.owner[i] < |s.workers| && Runs(s.workers[s.owner[i]], i))
    && (s.items[i].state == Skipped || Allows(r, s.items[i].state))
  }

  // At most the last admission call has returned false; none is under way or
  // allowed after that.
  ghost predicate AdmissionsOk(r: Request, s: State) {
    && (s.budget ==> r.kind == Read)
    && (forall k :: 0 <= k < |s.admissions| - 1 ==> s.admissions[k])
    && (|s.admissions| > 0 && !s.admissions[|s.admissions| - 1] ==>
          && s.budget
          && forall w :: 0 <= w < |s.workers| ==> !s.workers[w].BudgetPassed? && !s.workers[w].Admitting?)
  }

  // What a concluded batch promises.
  ghost predicate Concluded(r: Request, s: State) {
    && |s.items| == |s.executed| == |r.ids|
    && (forall i :: 0 <= i < |r.ids| ==> s.items[i].id == r.ids[i])
    && (forall i :: 0 <= i < |r.ids| ==> s.executed[i] <= 1)
    && (forall i :: 0 <= i < |r.ids| ==> (s.items[i].state in {Skipped, SkippedBudget} <==> s.executed[i] == 0))
    && (forall i :: 0 <= i < |r.ids| && s.items[i].state == SkippedBudget ==> r.kind == Read)
    && (forall i :: 0 <= i < |r.ids| && s.items[i].state == Uncertain ==> r.kind == Mutation)
    && (forall k :: 0 <= k < |s.admissions| - 1 ==> s.admissions[k])
  }

  ghost predicate Inv(r: Request, s: State) {
    if s.done then Concluded(r, s)
    else Shape(r, s) && WorkersOk(r, s) && ItemsOk(r, s) && AdmissionsOk(r, s)
  }

  lemma InitialInv(r: Request)
    ensures Inv(r, Initial(r))
  {
  }

  lemma StepShape(r: Request, s: State, step: Step)
    requires Inv(r, s) && Enabled(r, s, step) && !step.Conclude?
    ensures Shape(r, Apply(r, s, step))
  {
  }

  // The worker a step is about.
  function Actor(step: Step): Option<nat> {
    match step
    case Check | Abandon | Close | CallerCancels | Conclude => None
    case Send(w) => Some(w)
    case Start(w) => Some(w)
    case ContentStop(w) => Some(w)
    case ContentCancel(w) => Some(w)
    case Finish(w, _) => Some(w)
    case Record(w) => Some(w)
    case CheckBudget(w) => Some(w)
    case CheckContext(w) => Some(w)
    case Admit(w, _) => Some(w)
    case CancelReads(w) => Some(w)
    case Exit(w) => Some(w)
  }

  // Facts about the acting worker and its item before the step.
  lemma ActorOk(r: Request, s: State, step: Step)
    requires Inv(r, s) && Enabled(r, s, step) && !step.Conclude?
    ensures Actor(step).Some? ==> var w := Actor(step).value;
      w < |s.workers| && WorkerOk(r, s, w)
      && (Holds(s.workers[w]) ==> s.workers[w].index < |r.ids| && ItemOk(r, s, s.workers[w].index))
  {
    if Actor(step).Some? {
      assert WorkerOk(r, s, Actor(step).value);
    }
  }

  predicate IsDispatch(step: Step) {
    step.Check? || step.Send? || step.Abandon? || step.Close? || step.Exit? || step.CallerCancels?
  }

  predicate IsWork(step: Step) {
    step.Start? || step.Finish?
  }

  predicate IsContentStop(step: Step) {
    step.ContentStop? || step.ContentCancel?
  }

  predicate IsCheck(step: Step) {
    step.CheckBudget? || step.CheckContext?
  }

  // What a step must keep: the promise of one worker or of one item.
  ghost predicate Keeps(r: Request, s: State, step: Step, v: nat, i: nat)
    requires Enabled(r, s, step)
  {
    var t := Apply(r, s, step);
    && Shape(r, t) && |t.workers| == |s.workers|
    && (v < |t.workers| ==> WorkerOk(r, t, v))
    && (i < |r.ids| ==> ItemOk(r, t, i))
  }

  lemma SendKeeps(r: Request, s: State, w: nat, v: nat, i: nat)
    requires Inv(r, s) && Enabled(r, s, Send(w))
    ensures Keeps(r, s, Send(w), v, i)
  {
    StepShape(r, s, Send(w));
    assert WorkerOk(r, s, w) && ItemOk(r, s, s.next);
    assert v < |s.workers| ==> WorkerOk(r, s, v);
    assert i < |r.ids| ==> ItemOk(r, s, i);
  }

  lemma DispatchKeeps(r: Request, s: State, step: Step, v: nat, i: nat)
    requires Inv(r, s) && Enabled(r, s, step) && IsDispatch(step)
    ensures Keeps(r, s, step, v, i)
  {
    if step.Send? {
      SendKeeps(r, s, step.w, v, i);
    } else {
      StepShape(r, s, step);
      ActorOk(r, s, step);
      assert v < |s.workers| ==> WorkerOk(r, s, v);
      assert i < |r.ids| ==> ItemOk(r, s, i);
    }
  }

  lemma WorkKeeps(r: Request, s: State, step: Step, v: nat, i: nat)
    requires Inv(r, s) && Enabled(r, s, step) && IsWork(step)
    ensures Keeps(r, s, step, v, i)
  {
    StepShape(r, s, step);
    ActorOk(r, s, step);
    assert v < |s.workers| ==> WorkerOk(r, s, v);
    assert i < |r.ids| ==> ItemOk(r, s, i);
  }

  lemma ContentKeeps(r: Request, s: State, step: Step, v: nat, i: nat)
    requires Inv(r, s) && Enabled(r, s, step) && IsContentStop(step)
    ensures Keeps(r, s, step, v, i)
  {
    StepShape(r, s, step);
    ActorOk(r, s, step);
    assert v < |s.workers| ==> WorkerOk(r, s, v);
    assert i < |r.ids| ==> ItemOk(r, s, i);
  }

  // A check touches no item, and of the workers only its own, which lets go of
  // the lock or holds on to it with the same item.
  ghost predicate Checks(r: Request, s: State, t: State, w: nat) {
    && w < |s.workers| == |t.workers|
    && (forall v :: 0 <= v < |s.workers| && v != w ==> t.workers[v] == s.workers[v])
    && t == s.(workers := t.workers, lock := t.lock)
    && Locking(s.workers[w])
    && (t.workers[w] == Idle ==> t.lock == None)
    && (t.workers[w] != Idle ==>
          && Locking(t.workers[w]) && t.workers[w].index == s.workers[w].index && t.lock == s.lock && r.kind == Read)
  }

  lemma CheckChecks(r: Request, s: State, step: Step)
    requires Inv(r, s) && Enabled(r, s, step) && IsCheck(step)
    ensures !s.done && Checks(r, s, Apply(r, s, step), Actor(step).value)
  {
    hide ItemsOk, AdmissionsOk;
    assert WorkerOk(r, s, Actor(step).value);
  }

  lemma CheckKeepsWorker(r: Request, s: State, t: State, w: nat, v: nat)
    requires Shape(r, s) && Shape(r, t) && Checks(r, s, t, w)
    requires v < |s.workers| && WorkerOk(r, s, w) && WorkerOk(r, s, v)
    ensures WorkerOk(r, t, v)
  {
    assert v == w || t.workers[v] == s.workers[v];
  }

  lemma CheckKeepsItem(r: Request, s: State, t: State, w: nat, i: nat)
    requires Shape(r, s) && Shape(r, t) && Checks(r, s, t, w)
    requires i < |r.ids| && ItemOk(r, s, i)
    ensures ItemOk(r, t, i)
  {
  }

  lemma CheckKeeps(r: Request, s: State, step: Step, v: nat, i: nat)
    requires Inv(r, s) && Enabled(r, s, step) && IsCheck(step)
    ensures Keeps(r, s, step, v, i)
  {
    hide Apply, Enabled, Shape, WorkerOk, ItemOk, AdmissionsOk;
    var t, w := Apply(r, s, step), Actor(step).value;
    StepShape(r, s, step);
    CheckChecks(r, s, step);
    assert WorkerOk(r, s, w);
    if v < |s.workers| {
      CheckKeepsWorker(r, s, t, w, v);
    }
    if i < |r.ids| {
      CheckKeepsItem(r, s, t, w, i);
    }
  }

  lemma AdmitKeeps(r: Request, s: State, w: nat, ok: bool, v: nat, i: nat)
    requires Inv(r, s) && Enabled(r, s, Admit(w, ok))
    ensures Keeps(r, s, Admit(w, ok), v, i)
  {
    StepShape(r, s, Admit(w, ok));
    ActorOk(r, s, Admit(w, ok));
    assert v < |s.workers| ==> WorkerOk(r, s, v);
    assert i < |r.ids| ==> ItemOk(r, s, i);
  }

  lemma CancelReadsKeeps(r: Request, s: State, w: nat, v: nat, i: nat)
    requires Inv(r, s) && Enabled(r, s, CancelReads(w))
    ensures Keeps(r, s, CancelReads(w), v, i)
  {
    StepShape(r, s, CancelReads(w));
    ActorOk(r, s, CancelReads(w));
    assert v < |s.workers| ==> WorkerOk(r, s, v);
    assert i < |r.ids| ==> ItemOk(r, s, i);
  }

  lemma RecordKeeps(r: Request, s: State, w: nat, v: nat, i: nat)
    requires Inv(r, s) && Enabled(r, s, Record(w))
    ensures Keeps(r, s, Record(w), v, i)
  {
    StepShape(r, s, Record(w));
    ActorOk(r, s, Record(w));
    assert v < |s.workers| ==> WorkerOk(r, s, v);
    assert i < |r.ids| ==> ItemOk(r, s, i);
  }

  lemma StepKeeps(r: Request, s: State, step: Step, v: nat, i: nat)
    requires Inv(r, s) && Enabled(r, s, step) && !step.Conclude?
    ensures Keeps(r, s, step, v, i)
  {
    if IsDispatch(step) {
      DispatchKeeps(r, s, step, v, i);
    } else if IsWork(step) {
      WorkKeeps(r, s, step, v, i);
    } else if IsContentStop(step) {
      ContentKeeps(r, s, step, v, i);
    } else if IsCheck(step) {
      CheckKeeps(r, s, step, v, i);
    } else if step.Admit? {
      AdmitKeeps(r, s, step.w, step.ok, v, i);
    } else if step.CancelReads? {
      CancelReadsKeeps(r, s, step.w, v, i);
    } else {
      RecordKeeps(r, s, step.w, v, i);
    }
  }

  predicate IsAdmission(step: Step) {
    step.CheckBudget? || step.CheckContext? || step.Admit? || step.CancelReads?
  }

  // Only the holder of the lock is about to admit a result.
  lemma OthersAreNotAdmitting(r: Request, s: State, w: nat)
    requires !s.done && Inv(r, s) && w < |s.workers| && Locking(s.workers[w])
    ensures forall v :: 0 <= v < |s.workers| && v != w ==> !s.workers[v].BudgetPassed? && !s.workers[v].Admitting?
  {
    assert WorkerOk(r, s, w);
    forall v | 0 <= v < |s.workers| && v != w ensures !s.workers[v].BudgetPassed? && !s.workers[v].Admitting? {
      assert WorkerOk(r, s, v);
    }
  }

  lemma AdmissionKeepsLog(r: Request, s: State, step: Step)
    requires Inv(r, s) && Enabled(r, s, step) && IsAdmission(step)
    ensures AdmissionsOk(r, Apply(r, s, step))
  {
    hide ItemsOk, WorkersOk;
    ActorOk(r, s, step);
    OthersAreNotAdmitting(r, s, Actor(step).value);
  }

  lemma OtherStepKeepsLog(r: Request, s: State, step: Step)
    requires Inv(r, s) && Enabled(r, s, step) && !IsAdmission(step) && !step.Conclude?
    ensures AdmissionsOk(r, Apply(r, s, step))
  {
    hide ItemsOk, WorkersOk, Shape;
  }

  // The admission log: a step adds to it only while no false is in it.
  lemma StepAdmissions(r: Request, s: State, step: Step)
    requires Inv(r, s) && Enabled(r, s, step) && !step.Conclude?
    ensures AdmissionsOk(r, Apply(r, s, step))
  {
    hide *;
    if IsAdmission(step) {
      AdmissionKeepsLog(r, s, step);
    } else {
      OtherStepKeepsLog(r, s, step);
    }
  }

  lemma StepConcludes(r: Request, s: State)
    requires Inv(r, s) && Enabled(r, s, Conclude)
    ensures Concluded(r, Apply(r, s, Conclude))
  {
    forall i | 0 <= i < |r.ids|
      ensures ItemOk(r, s, i) && (s.items[i].state == Skipped <==> s.executed[i] == 0)
    {
      assert ItemOk(r, s, i);
    }
  }

  lemma StepInv(r: Request, s: State, step: Step)
    requires Inv(r, s) && Enabled(r, s, step)
    ensures Inv(r, Apply(r, s, step))
  {
    if step.Conclude? {
      StepConcludes(r, s);
    } else {
      StepShape(r, s, step);
      StepAdmissions(r, s, step);
      var t := Apply(r, s, step);
      StepKeeps(r, s, step, 0, 0);
      forall v | 0 <= v < |t.workers|
        ensures WorkerOk(r, t, v)
      {
        StepKeeps(r, s, step, v, 0);
      }
      forall i | 0 <= i < |r.ids|
        ensures ItemOk(r, t, i)
      {
        StepKeeps(r, s, step, 0, i);
      }
    }
  }

  // ----- every run

  ghost predicate StepAt(r: Request, states: seq<State>, steps: seq<Step>, k: int) {
    && 0 <= k < |steps| && k + 1 < |states|
    && Enabled(r, states[k], steps[k]) && states[k + 1] == Apply(r, states[k], steps[k])
  }

  ghost predicate Run(r: Request, states: seq<State>, steps: seq<Step>) {
    && |states| == |steps| + 1 && states[0] == Initial(r)
    && forall k :: 0 <= k < |steps| ==> StepAt(r, states, steps, k)
  }

  lemma {:induction false} RunInv(r: Request, states: seq<State>, steps: seq<Step>, k: nat)
    requires Run(r, states, steps) && k < |states|
    ensures Inv(r, states[k])
  {
    if k == 0 {
      InitialInv(r);
    } else {
      RunInv(r, states, steps, k - 1);
      assert StepAt(r, states, steps, k - 1);
      StepInv(r, states[k - 1], steps[k - 1]);
    }
  }

  // Whatever the interleaving, a batch that concludes has run each item at most
  // once, reports every item under its own id in request order, left skipped
  // exactly the items that never ran, and stopped on budget only reads.
  lemma EveryRunConcludesWell(r: Request, states: seq<State>, steps: seq<Step>)
    requires Run(r, states, steps) && states[|steps|].done
    ensures Concluded(r, states[|steps|])
  {
    RunInv(r, states, steps, |steps|);
  }

  // At no moment of any run has an item been run twice.
  lemma NeverRunsTwice(r: Request, states: seq<State>, steps: seq<Step>, k: nat, i: nat)
    requires Run(r, states, steps) && k < |states| && i < |r.ids|
    ensures |states[k].executed| == |r.ids| && states[k].executed[i] <= 1
  {
    RunInv(r, states, steps, k);
    if !states[k].done {
      assert ItemOk(r, states[k], i);
    }
  }

  lemma RefusalIsFinal(r: Request, s: State, step: Step)
    requires Inv(r, s) && Enabled(r, s, step)
    requires |s.admissions| > 0 && !s.admissions[|s.admissions| - 1]
    ensures Apply(r, s, step).admissions == s.admissions
  {
    if step.Admit? {
      ActorOk(r, s, step);
    }
  }

  // After an admission call has returned false no other is made.
  lemma {:induction false} NoAdmissionAfterRefusal(r: Request, states: seq<State>, steps: seq<Step>, k: nat, j: nat)
    requires Run(r, states, steps) && k <= j < |states|
    requires |states[k].admissions| > 0 && !states[k].admissions[|states[k].admissions| - 1]
    ensures states[j].admissions == states[k].admissions
    decreases j
  {
    hide Inv, Enabled, Apply;
    if k < j {
      NoAdmissionAfterRefusal(r, states, steps, k, j - 1);
      RunInv(r, states, steps, j - 1);
      assert StepAt(r, states, steps, j - 1);
      RefusalIsFinal(r, states[j - 1], steps[j - 1]);
    }
  }
}
