// The visible-handoff protocol of one draft: which changes of the durable
// state it allows, and what holds over every run of allowed changes.
//
// A crash is a run that stops, or that goes on with another operation from the
// durable state it had reached; so every fact about runs is one about crashes.
module HandoffProtocol {

  datatype Outcome = Prepared | Canceled | Dispatched | Unknown | ConfirmedOpened | ConfirmedFailed

  datatype Snapshot = Snapshot(name: string, size: int, sha256: string)

  datatype Attempt = Attempt(id: string, draftRef: string, startedAt: int, updatedAt: int, outcome: Outcome,
                             dispatchStarted: bool, snapshotsRetained: bool, snapshots: seq<Snapshot>)

  // The claim file.  It is created in place, so a crash can leave it torn; it
  // is only ever replaced as a whole.
  datatype Claim = Absent | Torn | Stored(attempt: Attempt)

  const MAXIMUM_ATTACHMENTS := 100
  const MAXIMUM_ATTACHMENT_BYTES := 512 * 1024 * 1024

  // ----- the claim validator

  predicate IdCharacter(c: char) {
    'a' <= c <= 'z' || 'A' <= c <= 'Z' || '0' <= c <= '9' || c == '-' || c == '_'
  }

  const ID_PREFIX := "handoff_"

  predicate ValidAttemptId(id: string) {
    ID_PREFIX <= id && |id| == |ID_PREFIX| + 24 && forall i :: |ID_PREFIX| <= i < |id| ==> IdCharacter(id[i])
  }

  // A name that is its own last path element.
  predicate IsBaseName(name: string) {
    name == "/" || (name != "" && '/' !in name)
  }

  predicate HexDigits(s: string) {
    forall c :: c in s ==> '0' <= c <= '9' || 'a' <= c <= 'f' || 'A' <= c <= 'F'
  }

  predicate ValidSnapshot(s: Snapshot) {
    IsBaseName(s.name) && s.size >= 0 && |s.sha256| == 64 && HexDigits(s.sha256)
  }

  function TotalSize(snapshots: seq<Snapshot>): int {
    if snapshots == [] then 0 else TotalSize(snapshots[..|snapshots| - 1]) + snapshots[|snapshots| - 1].size
  }

  predicate DispatchAgrees(a: Attempt) {
    a.dispatchStarted <==> a.outcome !in {Prepared, Canceled}
  }

  predicate ValidAttempt(draftRef: string, a: Attempt) {
    && a.draftRef == draftRef && ValidAttemptId(a.id) && a.startedAt != 0 && a.updatedAt != 0
    && (a.snapshotsRetained <==> |a.snapshots| > 0)
    && DispatchAgrees(a)
    && |a.snapshots| <= MAXIMUM_ATTACHMENTS
    && (forall i :: 0 <= i < |a.snapshots| ==> ValidSnapshot(a.snapshots[i]))
    && TotalSize(a.snapshots) <= MAXIMUM_ATTACHMENT_BYTES
  }

  lemma {:induction false} TotalSizeGrows(snapshots: seq<Snapshot>, n: nat)
    requires n <= |snapshots| && forall i :: 0 <= i < |snapshots| ==> snapshots[i].size >= 0
    ensures TotalSize(snapshots[..n]) <= TotalSize(snapshots)
    decreases |snapshots|
  {
    if n == |snapshots| {
      assert snapshots[..n] == snapshots;
    } else {
      var shorter := snapshots[..|snapshots| - 1];
      TotalSizeGrows(shorter, n);
      assert shorter[..n] == snapshots[..n];
    }
  }

  // The validator keeps a running total and checks each size against what is
  // left of the limit.
  method ValidHandoffAttempt(version: int, storedRef: string, a: Attempt, draftRef: string) returns (valid: bool)
    ensures valid <==> version == 1 && storedRef == draftRef && ValidAttempt(draftRef, a)
  {
    if version != 1 || storedRef != draftRef || a.draftRef != draftRef || !ValidAttemptId(a.id)
       || a.startedAt == 0 || a.updatedAt == 0 {
      return false;
    }
    if a.snapshotsRetained != (|a.snapshots| > 0) {
      return false;
    }
    match a.outcome {
    case Prepared | Canceled =>
      if a.dispatchStarted {
        return false;
      }
    case Dispatched | Unknown | ConfirmedOpened | ConfirmedFailed =>
      if !a.dispatchStarted {
        return false;
      }
    }
    if |a.snapshots| > MAXIMUM_ATTACHMENTS {
      return false;
    }
    var total := 0;
    for i := 0 to |a.snapshots|
      invariant total == TotalSize(a.snapshots[..i]) <= MAXIMUM_ATTACHMENT_BYTES
      invariant forall j :: 0 <= j < i ==> ValidSnapshot(a.snapshots[j])
    {
      var snapshot := a.snapshots[i];
      var prefix := a.snapshots[..i + 1];
      assert prefix[..i] == a.snapshots[..i];
      if snapshot.name == "" || !IsBaseName(snapshot.name) || snapshot.size < 0
         || snapshot.size > MAXIMUM_ATTACHMENT_BYTES - total || |snapshot.sha256| != 64 {
        if ValidAttempt(draftRef, a) {
          TotalSizeGrows(a.snapshots, i + 1);
        }
        return false;
      }
      if !HexDigits(snapshot.sha256) {
        return false;
      }
      total := total + snapshot.size;
    }
    assert a.snapshots[..|a.snapshots|] == a.snapshots;
    return true;
  }

  // ----- the durable state and its allowed changes

  // `staged` are the attempts that have snapshot files, `invoked` those whose
  // native compose call was made, `used` those that ever had a claim.
  datatype Durable = Durable(claim: Claim, staged: set<string>, invoked: set<string>, used: set<string>)

  const START := Durable(Absent, {}, {}, {})

  predicate Confirmed(a: Attempt) {
    a.outcome == ConfirmedOpened || a.outcome == ConfirmedFailed
  }

  // The outcome calls for cleanup.
  predicate Terminal(a: Attempt) {
    Confirmed(a) || a.outcome == Canceled
  }

  ghost predicate Unsent(s: Durable, a: Attempt) {
    a.id !in s.invoked
  }

  // An attempt whose claim may be rewritten as `a`.
  ghost predicate MayBecome(s: Durable, c: Attempt, a: Attempt) {
    && a.id == c.id
    && match c.outcome
       case Prepared => a.outcome in {Prepared, Canceled, Dispatched}
       case Dispatched =>
         || a.outcome in {Unknown, ConfirmedOpened, ConfirmedFailed}
         || (a.outcome in {Canceled, Dispatched} && Unsent(s, c))
       case Unknown => a.outcome in {Unknown, ConfirmedOpened, ConfirmedFailed}
       case Canceled => a.outcome == Canceled
       case ConfirmedOpened => a.outcome == ConfirmedOpened
       case ConfirmedFailed => a.outcome == ConfirmedFailed
  }

  ghost predicate Tears(s: Durable, t: Durable) {
    s.claim == Absent && t == s.(claim := Torn)
  }

  ghost predicate Creates(draftRef: string, s: Durable, t: Durable) {
    && s.claim == Torn && t.claim.Stored?
    && var a := t.claim.attempt;
       ValidAttempt(draftRef, a) && a.outcome == Prepared && a.id !in s.used
       && t == s.(claim := t.claim, used := s.used + {a.id})
  }

  ghost predicate Rewrites(draftRef: string, s: Durable, t: Durable) {
    && s.claim.Stored? && t.claim.Stored?
    && ValidAttempt(draftRef, t.claim.attempt) && MayBecome(s, s.claim.attempt, t.claim.attempt)
    && t == s.(claim := t.claim)
  }

  ghost predicate Removes(s: Durable, t: Durable) {
    && t == s.(claim := Absent)
    && (s.claim == Torn || (s.claim.Stored? && var c := s.claim.attempt;
          c.id !in s.staged && (Confirmed(c) || (c.outcome in {Prepared, Canceled} && Unsent(s, c)))))
  }

  ghost predicate Stages(s: Durable, t: Durable) {
    s.claim.Stored? && s.claim.attempt.outcome == Prepared && t == s.(staged := s.staged + {s.claim.attempt.id})
  }

  ghost predicate Unstages(s: Durable, t: Durable) {
    && s.claim.Stored? && (s.claim.attempt.outcome == Prepared || Terminal(s.claim.attempt))
    && t == s.(staged := s.staged - {s.claim.attempt.id})
  }

  // The native compose call, made once per attempt and only when the claim
  // already says that dispatch has started.
  ghost predicate Invokes(s: Durable, t: Durable) {
    && s.claim.Stored? && s.claim.attempt.dispatchStarted && s.claim.attempt.outcome == Dispatched
    && Unsent(s, s.claim.attempt)
    && t == s.(invoked := s.invoked + {s.claim.attempt.id})
  }

  ghost predicate Move(draftRef: string, s: Durable, t: Durable) {
    || Tears(s, t) || Creates(draftRef, s, t) || Rewrites(draftRef, s, t) || Removes(s, t)
    || Stages(s, t) || Unstages(s, t) || Invokes(s, t)
  }

  ghost predicate MoveAt(draftRef: string, trace: seq<Durable>, i: int) {
    0 <= i < |trace| - 1 && Move(draftRef, trace[i], trace[i + 1])
  }

  ghost predicate Run(draftRef: string, trace: seq<Durable>) {
    && |trace| > 0 && trace[0] == START
    && forall i :: 0 <= i < |trace| - 1 ==> MoveAt(draftRef, trace, i)
  }

  lemma RunGrows(draftRef: string, trace: seq<Durable>, s: Durable)
    requires Run(draftRef, trace) && Move(draftRef, trace[|trace| - 1], s)
    ensures Run(draftRef, trace + [s])
  {
    var longer := trace + [s];
    forall i | 0 <= i < |longer| - 1
      ensures MoveAt(draftRef, longer, i)
    {
      if i < |trace| - 1 {
        assert MoveAt(draftRef, trace, i);
      }
    }
  }

  // ----- what holds in every reachable state

  ghost predicate Safe(draftRef: string, s: Durable) {
    && s.invoked <= s.used
    && match s.claim
       case Absent => s.staged == {}
       case Torn => s.staged == {}
       case Stored(c) =>
         && ValidAttempt(draftRef, c) && c.id in s.used
         && s.staged <= {c.id}
         && (c.id in s.invoked ==> c.dispatchStarted)
  }

  lemma MoveIsSafe(draftRef: string, s: Durable, t: Durable)
    requires Safe(draftRef, s) && Move(draftRef, s, t)
    ensures Safe(draftRef, t)
  {
    if Removes(s, t) && s.claim.Stored? {
      assert s.staged <= {s.claim.attempt.id} && s.claim.attempt.id !in s.staged;
    }
  }

  // Every stored claim is valid, and snapshots exist only under their claim.
  lemma {:induction false} RunIsSafe(draftRef: string, trace: seq<Durable>, i: nat)
    requires Run(draftRef, trace) && i < |trace|
    ensures Safe(draftRef, trace[i])
  {
    if i > 0 {
      RunIsSafe(draftRef, trace, i - 1);
      assert MoveAt(draftRef, trace, i - 1);
      MoveIsSafe(draftRef, trace[i - 1], trace[i]);
    }
  }

  // ----- one native call, then none until its outcome is settled

  ghost predicate InvokedAt(trace: seq<Durable>, i: nat, id: string) {
    i + 1 < |trace| && id !in trace[i].invoked && id in trace[i + 1].invoked
  }

  ghost predicate ConfirmedAt(trace: seq<Durable>, k: nat, id: string) {
    k < |trace| && trace[k].claim.Stored? && trace[k].claim.attempt.id == id && Confirmed(trace[k].claim.attempt)
  }

  // The claim at a native call says that dispatch has started.
  lemma CallIsClaimed(draftRef: string, trace: seq<Durable>, i: nat, id: string)
    requires Run(draftRef, trace) && InvokedAt(trace, i, id)
    ensures trace[i].claim.Stored? && trace[i].claim.attempt.id == id && trace[i].claim.attempt.dispatchStarted
    ensures trace[i].claim.attempt.outcome == Dispatched && trace[i + 1].claim == trace[i].claim
    ensures trace[i + 1].invoked == trace[i].invoked + {id}
  {
    assert MoveAt(draftRef, trace, i);
  }

  // From a native call on, as long as nothing has been confirmed the claim
  // stays, with an unresolved outcome; once it has, only a removal ends it.
  ghost predicate Pending(s: Durable, id: string) {
    && id in s.invoked && s.claim.Stored? && s.claim.attempt.id == id
    && s.claim.attempt.outcome in {Dispatched, Unknown}
  }

  lemma {:induction false} PendingUntilConfirmed(draftRef: string, trace: seq<Durable>, i: nat, j: nat, id: string)
    requires Run(draftRef, trace) && InvokedAt(trace, i, id) && i < j < |trace|
    ensures Pending(trace[j], id) || exists k :: i < k <= j && ConfirmedAt(trace, k, id)
  {
    CallIsClaimed(draftRef, trace, i, id);
    if j > i + 1 {
      PendingUntilConfirmed(draftRef, trace, i, j - 1, id);
      assert MoveAt(draftRef, trace, j - 1);
      if Pending(trace[j - 1], id) && !Pending(trace[j], id) {
        assert ConfirmedAt(trace, j, id);
      }
    }
  }

  lemma {:induction false} ConfirmedUntilRemoved(draftRef: string, trace: seq<Durable>, k: nat, j: nat, id: string)
    requires Run(draftRef, trace) && ConfirmedAt(trace, k, id) && k <= j < |trace|
    ensures || (ConfirmedAt(trace, j, id) && trace[j].claim.attempt.outcome == trace[k].claim.attempt.outcome)
            || exists l :: k < l <= j && trace[l].claim == Absent
    decreases j
  {
    if j > k {
      ConfirmedUntilRemoved(draftRef, trace, k, j - 1, id);
      assert MoveAt(draftRef, trace, j - 1);
      if ConfirmedAt(trace, j - 1, id) && !ConfirmedAt(trace, j, id) {
        assert trace[j].claim == Absent;
      }
    }
  }

  // Between two native calls for the draft the outcome of the first was
  // confirmed and its claim removed.
  lemma NoSecondCallBeforeSettlement(draftRef: string, trace: seq<Durable>, i: nat, j: nat, id: string, next: string)
    requires Run(draftRef, trace) && i < j && InvokedAt(trace, i, id) && InvokedAt(trace, j, next)
    ensures exists k, l :: i < k < l <= j && ConfirmedAt(trace, k, id) && trace[l].claim == Absent
  {
    CallIsClaimed(draftRef, trace, j, next);
    PendingUntilConfirmed(draftRef, trace, i, j, id);
    assert !Pending(trace[j], id);
    var k :| i < k <= j && ConfirmedAt(trace, k, id);
    ConfirmedUntilRemoved(draftRef, trace, k, j, id);
  }

  // An attempt that was called never reads prepared or canceled again.
  lemma CalledNeverCanceled(draftRef: string, trace: seq<Durable>, i: nat, j: nat, id: string)
    requires Run(draftRef, trace) && InvokedAt(trace, i, id) && i < j < |trace|
    requires trace[j].claim.Stored? && trace[j].claim.attempt.id == id
    ensures trace[j].claim.attempt.outcome !in {Prepared, Canceled}
  {
    InvokedGrows(draftRef, trace, i + 1, j, id);
    RunIsSafe(draftRef, trace, j);
  }

  lemma {:induction false} InvokedGrows(draftRef: string, trace: seq<Durable>, i: nat, j: nat, id: string)
    requires Run(draftRef, trace) && i <= j < |trace| && id in trace[i].invoked
    ensures id in trace[j].invoked
    decreases j
  {
    if i < j {
      InvokedGrows(draftRef, trace, i, j - 1, id);
      assert MoveAt(draftRef, trace, j - 1);
    }
  }

  // Once the claim of a used attempt is gone it never comes back.
  lemma {:induction false} GoneStaysGone(draftRef: string, trace: seq<Durable>, l: nat, j: nat, id: string)
    requires Run(draftRef, trace) && l <= j < |trace| && id in trace[l].used && trace[l].claim == Absent
    ensures id in trace[j].used && !(trace[j].claim.Stored? && trace[j].claim.attempt.id == id)
    decreases j
  {
    if l < j {
      GoneStaysGone(draftRef, trace, l, j - 1, id);
      assert MoveAt(draftRef, trace, j - 1);
    }
  }

  lemma {:induction false} UsedGrows(draftRef: string, trace: seq<Durable>, i: nat, j: nat, id: string)
    requires Run(draftRef, trace) && i <= j < |trace| && id in trace[i].used
    ensures id in trace[j].used
    decreases j
  {
    if i < j {
      UsedGrows(draftRef, trace, i, j - 1, id);
      assert MoveAt(draftRef, trace, j - 1);
    }
  }

  // A recorded confirmed outcome never changes to another.
  lemma ConfirmedOutcomeIsFinal(draftRef: string, trace: seq<Durable>, k: nat, j: nat, id: string)
    requires Run(draftRef, trace) && ConfirmedAt(trace, k, id) && k <= j < |trace|
    requires trace[j].claim.Stored? && trace[j].claim.attempt.id == id
    ensures trace[j].claim.attempt.outcome == trace[k].claim.attempt.outcome
  {
    ConfirmedUntilRemoved(draftRef, trace, k, j, id);
    RunIsSafe(draftRef, trace, k);
    if exists l :: k < l <= j && trace[l].claim == Absent {
      var l :| k < l <= j && trace[l].claim == Absent;
      UsedGrows(draftRef, trace, k, l, id);
      GoneStaysGone(draftRef, trace, l, j, id);
    }
  }
}
