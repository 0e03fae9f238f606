// The session that carries one visible handoff from its claim to a recorded
// outcome, over a store whose every durable change is an allowed move.
module HandoffSession {
  import opened HandoffProtocol
  import opened Wrappers

  // ----- the durable store

  // The claim file and the snapshot files of one draft, its lease, and the
  // native compose calls made for it.  The methods that change it stand for
  // file-system calls: they may fail, and then leave the old or the new content
  // behind.  The ghost trace lists every durable state reached, so that each
  // moment at which a crash could stop the process is one of its states.  In a
  // reliable store no call fails and nobody cancels.
  class Store {
    const draftRef: string
    const reliable: bool
    var claim: Claim
    var staged: set<string>
    var used: set<string>
    var leased: bool
    ghost var invoked: set<string>
    ghost var trace: seq<Durable>

    constructor (draftRef: string, reliable: bool)
      ensures Valid() && !leased && Now() == START && this.reliable == reliable
    {
      this.draftRef, this.reliable := draftRef, reliable;
      claim, staged, used, leased := Absent, {}, {}, false;
      invoked := {};
      trace := [START];
    }

    ghost function Now(): Durable
      reads this
    {
      Durable(claim, staged, invoked, used)
    }

    ghost predicate Valid()
      reads this
    {
      Run(draftRef, trace) && trace[|trace| - 1] == Now()
    }

    lemma IsSafe()
      requires Valid()
      ensures Safe(draftRef, Now())
    {
      RunIsSafe(draftRef, trace, |trace| - 1);
    }

    method Acquire() returns (ok: bool)
      requires Valid()
      modifies this`leased
      ensures ok ==> !old(leased) && leased
      ensures !ok ==> leased == old(leased)
      ensures reliable && !old(leased) ==> ok
    {
      var busy: bool := *;
      if leased || (busy && !reliable) {
        return false;
      }
      leased := true;
      ok := true;
    }

    // Releasing may report an error; the lease is free all the same.
    method Release() returns (ok: bool)
      modifies this`leased
      ensures !leased && (reliable ==> ok)
    {
      leased := false;
      ok := *;
      ok := ok || reliable;
    }

    // Creates the claim file in place; a failure may leave it behind.
    method CreateClaim(a: Attempt) returns (ok: bool)
      requires Valid() && leased
      requires ValidAttempt(draftRef, a) && a.outcome == Prepared && a.id !in used
      modifies this`claim, this`used, this`trace
      ensures Valid() && old(trace) <= trace
      ensures ok ==> old(claim) == Absent && claim == Stored(a)
      ensures reliable && old(claim) == Absent ==> ok
      ensures claim == old(claim) || (old(claim) == Absent && (claim == Torn || claim == Stored(a)))
      ensures used == old(used) || used == old(used) + {a.id}
    {
      if claim != Absent {
        return false;
      }
      RunGrows(draftRef, trace, Now().(claim := Torn));
      claim := Torn;
      trace := trace + [Now()];
      var torn: bool := *;
      if torn && !reliable {
        UndoCreation();
        return false;
      }
      IsSafe();
      assert Creates(draftRef, Now(), Now().(claim := Stored(a), used := used + {a.id}));
      RunGrows(draftRef, trace, Now().(claim := Stored(a), used := used + {a.id}));
      claim, used := Stored(a), used + {a.id};
      trace := trace + [Now()];
      var unsynced: bool := *;
      if unsynced && !reliable {
        UndoCreation();
        return false;
      }
      ok := true;
    }

    method UndoCreation()
      requires Valid() && Removes(Now(), Now().(claim := Absent))
      modifies this`claim, this`trace
      ensures Valid() && old(trace) <= trace
      ensures claim == old(claim) || claim == Absent
    {
      var ok := RemoveClaim();
    }

    method RemoveClaim() returns (ok: bool)
      requires Valid()
      requires claim != Absent ==> Removes(Now(), Now().(claim := Absent))
      modifies this`claim, this`trace
      ensures Valid() && old(trace) <= trace
      ensures ok ==> claim == Absent
      ensures reliable ==> ok
      ensures claim == old(claim) || claim == Absent
    {
      if claim == Absent {
        return true;
      }
      var refused: bool := *;
      if refused && !reliable {
        return false;
      }
      RunGrows(draftRef, trace, Now().(claim := Absent));
      claim := Absent;
      trace := trace + [Now()];
      ok := *;
      ok := ok || reliable;
    }

    // Validates the claim and replaces the file atomically.
    method ReplaceClaim(a: Attempt) returns (ok: bool)
      requires Valid() && leased
      requires ValidAttempt(draftRef, a) ==> Rewrites(draftRef, Now(), Now().(claim := Stored(a)))
      modifies this`claim, this`trace
      ensures Valid() && old(trace) <= trace
      ensures ok ==> claim == Stored(a)
      ensures reliable && ValidAttempt(draftRef, a) ==> ok
      ensures claim == old(claim) || (claim == Stored(a) && ValidAttempt(draftRef, a))
    {
      var valid := ValidHandoffAttempt(1, draftRef, a, draftRef);
      var refused: bool := *;
      if !valid || (refused && !reliable) {
        return false;
      }
      RunGrows(draftRef, trace, Now().(claim := Stored(a)));
      claim := Stored(a);
      trace := trace + [Now()];
      ok := *;
      ok := ok || reliable;
    }

    // Copies the attachments; a failure may leave some of the copies behind.
    method StageSnapshots(count: nat) returns (ok: bool)
      requires Valid() && leased && claim.Stored? && claim.attempt.outcome == Prepared
      modifies this`staged, this`trace
      ensures Valid() && old(trace) <= trace
      ensures staged == old(staged) || staged == old(staged) + {claim.attempt.id}
      ensures ok && count > 0 ==> claim.attempt.id in staged
      ensures reliable ==> ok
    {
      var i := 0;
      ok := true;
      while ok && i < count
        invariant Valid() && old(trace) <= trace
        invariant staged == old(staged) || staged == old(staged) + {claim.attempt.id}
        invariant ok && i > 0 ==> claim.attempt.id in staged
        invariant reliable ==> ok
      {
        RunGrows(draftRef, trace, Now().(staged := staged + {claim.attempt.id}));
        staged := staged + {claim.attempt.id};
        trace := trace + [Now()];
        i := i + 1;
        ok := *;
        ok := ok || reliable;
      }
    }

    method RemoveSnapshots() returns (ok: bool)
      requires Valid() && leased && claim.Stored?
      requires claim.attempt.outcome == Prepared || Terminal(claim.attempt)
      modifies this`staged, this`trace
      ensures Valid() && old(trace) <= trace
      ensures ok ==> claim.attempt.id !in staged
      ensures reliable ==> ok
      ensures staged == old(staged) || staged == old(staged) - {claim.attempt.id}
    {
      var refused: bool := *;
      if refused && !reliable {
        return false;
      }
      RunGrows(draftRef, trace, Now().(staged := staged - {claim.attempt.id}));
      staged := staged - {claim.attempt.id};
      trace := trace + [Now()];
      ok := *;
      ok := ok || reliable;
    }

    // The native compose call.
    method InvokeNative()
      requires Valid() && claim.Stored? && Invokes(Now(), Now().(invoked := invoked + {claim.attempt.id}))
      modifies this`invoked, this`trace
      ensures Valid() && old(trace) <= trace
      ensures invoked == old(invoked) + {claim.attempt.id}
    {
      RunGrows(draftRef, trace, Now().(invoked := invoked + {claim.attempt.id}));
      invoked := invoked + {claim.attempt.id};
      trace := trace + [Now()];
    }
  }

  // ----- cleanup

  // The claim on disk is still the one being cleaned up, and the caller has
  // not been cancelled.
  method CheckClaim(store: Store, attempt: Attempt) returns (ok: bool)
    ensures ok ==> store.claim == Stored(attempt)
    ensures store.reliable && store.claim == Stored(attempt) ==> ok
  {
    var cancelled: bool := *;
    ok := !(cancelled && !store.reliable) && store.claim == Stored(attempt);
  }

  method Clock() returns (now: int)
    ensures now != 0
  {
    now := *;
    if now == 0 {
      now := 1;
    }
  }

  // Removes the snapshots of a terminal attempt, then its claim.
  method CleanupTerminalHandoffAttempt(store: Store, attempt: Attempt) returns (ok: bool, after: Attempt)
    requires store.Valid() && store.leased
    modifies store`claim, store`staged, store`trace
    ensures store.Valid() && old(store.trace) <= store.trace
    ensures ok ==> Terminal(attempt) && old(store.claim) == Stored(attempt)
    ensures ok ==> store.claim == Absent && store.staged == {}
    ensures store.claim == old(store.claim) || store.claim == Absent
         || (old(store.claim) == Stored(attempt) && store.claim == Stored(after))
    ensures after.id == attempt.id && after.outcome == attempt.outcome
    ensures after.dispatchStarted == attempt.dispatchStarted
    ensures !Terminal(attempt) ==> store.claim == old(store.claim)
    ensures store.staged <= old(store.staged)
    ensures store.reliable && Terminal(attempt) && old(store.claim) == Stored(attempt) ==> ok
  {
    after := attempt;
    if !Terminal(attempt) || store.claim == Absent {
      return false, after;
    }
    var check := CheckClaim(store, attempt);
    if !check {
      return false, after;
    }
    store.IsSafe();
    var removed := store.RemoveSnapshots();
    if !removed {
      return false, after;
    }
    check := CheckClaim(store, attempt);
    if !check {
      return false, attempt.(snapshots := [], snapshotsRetained := false);
    }
    if attempt.snapshotsRetained {
      var now := Clock();
      after := attempt.(snapshots := [], snapshotsRetained := false, updatedAt := now);
      var replaced := store.ReplaceClaim(after);
      if !replaced {
        return false, after;
      }
    }
    check := CheckClaim(store, after);
    if !check {
      return false, after;
    }
    store.IsSafe();
    ok := store.RemoveClaim();
    store.IsSafe();
  }

  // A prepared attempt that has listed no snapshots yet, or those of the draft.
  predicate Recoverable(claim: Claim, id: string, expected: seq<Snapshot>) {
    && claim.Stored? && claim.attempt.id == id && claim.attempt.outcome == Prepared
    && (claim.attempt.snapshots == [] || claim.attempt.snapshots == expected)
  }

  // What is left of an earlier claim after it may have been cleared away.
  predicate NoNewClaim(before: Claim, after: Claim) {
    || after == before || after == Absent
    || (before.Stored? && after.Stored? && after.attempt.id == before.attempt.id)
  }

  // Takes back a prepared attempt: its snapshots first, then its claim.
  method RecoverPreparedHandoffStaging(store: Store, id: string, expected: seq<Snapshot>) returns (ok: bool)
    requires store.Valid() && store.leased
    modifies store`claim, store`staged, store`trace
    ensures store.Valid() && old(store.trace) <= store.trace
    ensures ok ==> store.claim == Absent && store.staged == {}
    ensures NoNewClaim(old(store.claim), store.claim)
    ensures old(store.claim).Stored? && old(store.claim).attempt.outcome != Prepared ==>
              !ok && store.claim == old(store.claim)
    ensures store.staged <= old(store.staged)
    ensures store.reliable ==> (ok <==> Recoverable(old(store.claim), id, expected))
  {
    store.IsSafe();
    if !ValidAttemptId(id) || !store.claim.Stored? {
      return false;
    }
    var attempt := store.claim.attempt;
    if attempt.id != id || attempt.dispatchStarted || attempt.outcome != Prepared {
      return false;
    }
    if |attempt.snapshots| > 0 {
      if attempt.snapshots != expected {
        return false;
      }
      var now := Clock();
      var canceled := attempt.(outcome := Canceled, updatedAt := now);
      var replaced := store.ReplaceClaim(canceled);
      if !replaced {
        return false;
      }
      var after;
      ok, after := CleanupTerminalHandoffAttempt(store, canceled);
      return;
    }
    var check := CheckClaim(store, attempt);
    if !check {
      return false;
    }
    var removed := store.RemoveSnapshots();
    if !removed {
      return false;
    }
    check := CheckClaim(store, attempt);
    if !check {
      return false;
    }
    ok := store.RemoveClaim();
    store.IsSafe();
  }

  // ----- the session

  datatype DraftKind = New | Reply | Forward

  // The draft that is handed off; attachments go by the names that their
  // copies will have.
  datatype Draft = Draft(
    kind: DraftKind, from: string, to: seq<string>, cc: seq<string>, bcc: seq<string>, attachments: seq<Snapshot>,
    sendAttempted: bool, saveAttempted: bool)

  datatype Error = Busy | Unreadable | SendRetryBlocked | SaveRetryBlocked | RetryBlocked | Rejected | StorageFailed
                 | StagingFailed

  class Session {
    const store: Store
    var attempt: Attempt
    var closed: bool

    constructor (store: Store, attempt: Attempt)
      ensures this.store == store && this.attempt == attempt && !closed
    {
      this.store, this.attempt, closed := store, attempt, false;
    }

    // The stored claim as an open session may find it.  A failed attempt to
    // mark the dispatch can have left the marked claim behind.
    ghost predicate Owned()
      reads this, store
    {
      && store.claim.Stored? && ValidAttempt(store.draftRef, attempt)
      && var c := store.claim.attempt;
         if attempt.dispatchStarted then
           attempt.outcome == Dispatched && c == attempt
         else
           && attempt.outcome == Prepared && attempt.id !in store.invoked
           && c.id == attempt.id && (c == attempt || c.outcome == Dispatched)
    }

    ghost predicate Valid()
      reads this, store
    {
      store.Valid() && (!closed ==> store.leased && Owned())
    }

    method MarkDispatched(cancelled: bool) returns (ok: bool)
      requires Valid()
      modifies this`attempt, store`claim, store`trace
      ensures Valid() && old(store.trace) <= store.trace
      ensures ok ==> !closed && store.claim == Stored(attempt) && attempt.dispatchStarted
      ensures ok ==> attempt.id !in store.invoked && attempt.id == old(attempt.id)
      ensures !ok ==> attempt == old(attempt)
      ensures store.reliable ==> (ok <==> !old(closed) && !cancelled && !old(attempt.dispatchStarted))
    {
      if closed || cancelled || attempt.outcome != Prepared || attempt.dispatchStarted {
        return false;
      }
      var now := Clock();
      var next := attempt.(dispatchStarted := true, outcome := Dispatched, updatedAt := now);
      ok := store.ReplaceClaim(next);
      if ok {
        attempt := next;
      }
    }

    // Records the outcome and, if it is a confirmed one, cleans up.
    method Finish(outcome: Outcome) returns (ok: bool)
      requires Valid()
      modifies this, store`claim, store`staged, store`trace, store`leased
      ensures Valid() && old(store.trace) <= store.trace
      ensures old(closed) || outcome !in {ConfirmedOpened, ConfirmedFailed, Unknown}
              || !old(attempt.dispatchStarted) ==>
                !ok && closed == old(closed) && store.claim == old(store.claim) && attempt == old(attempt)
      ensures !old(closed) && outcome in {ConfirmedOpened, ConfirmedFailed, Unknown} && old(attempt.dispatchStarted) ==>
                closed && !store.leased && SettledAs(outcome)
      ensures ok && outcome == Unknown ==> store.claim == Stored(attempt) && attempt.outcome == Unknown
      ensures ok && outcome != Unknown ==> store.claim == Absent && store.staged == {}
      ensures store.reliable ==>
                (ok <==> !old(closed) && attempt.dispatchStarted
                         && outcome in {ConfirmedOpened, ConfirmedFailed, Unknown})
      ensures attempt.id == old(attempt.id) && attempt.dispatchStarted == old(attempt.dispatchStarted)
    {
      if closed {
        return false;
      }
      if outcome != ConfirmedOpened && outcome != ConfirmedFailed && outcome != Unknown {
        return false;
      }
      if !attempt.dispatchStarted {
        return false;
      }
      var now := Clock();
      attempt := attempt.(outcome := outcome, updatedAt := now);
      ok := store.ReplaceClaim(attempt);
      if ok && outcome != Unknown {
        ok, attempt := CleanupTerminalHandoffAttempt(store, attempt);
      }
      closed := true;
      var released := store.Release();
    }

    // What is left of the claim after it was to be settled: nothing, only if
    // the outcome is confirmed, or the claim as dispatched or as settled.
    ghost predicate SettledAs(outcome: Outcome)
      reads this, store
    {
      if store.claim.Stored? then
        store.claim.attempt.id == attempt.id && store.claim.attempt.outcome in {Dispatched, outcome}
      else
        store.claim == Absent && outcome in {ConfirmedOpened, ConfirmedFailed}
    }

    // What is left of the claim of an attempt that was not marked as dispatched:
    // nothing, or the claim as it was, canceled, or marked by an update whose
    // failure was reported.
    ghost predicate LeftUndispatched()
      reads this, store
    {
      || store.claim == Absent
      || (&& store.claim.Stored? && store.claim.attempt.id == attempt.id
          && store.claim.attempt.outcome in {Prepared, Canceled, Dispatched})
    }

    method CancelBeforeDispatch() returns (ok: bool)
      requires Valid()
      modifies this, store`claim, store`staged, store`trace, store`leased
      ensures Valid() && old(store.trace) <= store.trace
      ensures closed && (!old(closed) ==> !store.leased)
      ensures !old(closed) && !old(attempt.dispatchStarted) && ok ==> store.claim == Absent && store.staged == {}
      ensures !old(closed) && old(attempt.dispatchStarted) ==> SettledAs(Unknown)
      ensures !old(closed) && !old(attempt.dispatchStarted) ==> LeftUndispatched()
      ensures store.reliable && !old(closed) ==> ok
      ensures attempt.id == old(attempt.id) && attempt.dispatchStarted == old(attempt.dispatchStarted)
    {
      if closed {
        return false;
      }
      if attempt.dispatchStarted {
        ok := Finish(Unknown);
        return;
      }
      var now := Clock();
      attempt := attempt.(outcome := Canceled, updatedAt := now);
      ok := store.ReplaceClaim(attempt);
      if ok {
        ok, attempt := CleanupTerminalHandoffAttempt(store, attempt);
      }
      closed := true;
      var released := store.Release();
    }

    method Close() returns (ok: bool)
      requires Valid()
      modifies this, store`claim, store`staged, store`trace, store`leased
      ensures Valid() && old(store.trace) <= store.trace
      ensures closed && (!old(closed) ==> !store.leased)
      ensures old(closed) ==> ok && store.claim == old(store.claim)
      ensures !old(closed) && old(attempt.dispatchStarted) ==> SettledAs(Unknown)
      ensures !old(closed) && !old(attempt.dispatchStarted) ==> LeftUndispatched()
      ensures store.reliable ==> ok
    {
      if closed {
        return true;
      }
      if attempt.dispatchStarted {
        ok := Finish(Unknown);
      } else {
        ok := CancelBeforeDispatch();
      }
    }
  }

  // ----- beginning and reconciling

  predicate FitAttachments(attachments: seq<Snapshot>) {
    && |attachments| <= MAXIMUM_ATTACHMENTS && TotalSize(attachments) <= MAXIMUM_ATTACHMENT_BYTES
    && forall i :: 0 <= i < |attachments| ==> attachments[i].size >= 0
  }

  // A draft that a compose window can represent and that nothing else has
  // tried to send or save.
  predicate Eligible(d: Draft) {
    && !d.sendAttempted && !d.saveAttempted
    && d.kind == New && d.from == "" && d.cc == [] && d.bcc == [] && d.to != []
    && FitAttachments(d.attachments)
  }

  // The attachments are opened one by one while `remaining` bytes are left.
  method PreflightDraftAttachments(store: Store, attachments: seq<Snapshot>) returns (ok: bool)
    ensures ok ==> FitAttachments(attachments)
    ensures store.reliable ==> (ok <==> FitAttachments(attachments))
  {
    if |attachments| > MAXIMUM_ATTACHMENTS {
      return false;
    }
    var remaining := MAXIMUM_ATTACHMENT_BYTES;
    for i := 0 to |attachments|
      invariant remaining == MAXIMUM_ATTACHMENT_BYTES - TotalSize(attachments[..i]) >= 0
      invariant forall j :: 0 <= j < i ==> attachments[j].size >= 0
    {
      assert attachments[..i + 1][..i] == attachments[..i];
      if attachments[i].size < 0 || attachments[i].size > remaining {
        if FitAttachments(attachments) {
          TotalSizeGrows(attachments, i + 1);
        }
        return false;
      }
      var changed: bool := *;
      if changed && !store.reliable {
        return false;
      }
      remaining := remaining - attachments[i].size;
    }
    assert attachments[..|attachments|] == attachments;
    ok := true;
  }

  method ValidateDraftHandoff(store: Store, draft: Draft) returns (error: Option<Error>)
    ensures error.None? ==> Eligible(draft) && !store.claim.Stored?
    ensures store.reliable && Eligible(draft) && !store.claim.Stored? ==> error.None?
    ensures error.Some? && error.value == SendRetryBlocked ==> draft.sendAttempted
    ensures error.Some? && error.value == SaveRetryBlocked ==> draft.saveAttempted
    ensures error.Some? && error.value == RetryBlocked ==> store.claim.Stored?
  {
    var cancelled: bool := *;
    if cancelled && !store.reliable {
      return Some(Rejected);
    }
    if draft.sendAttempted {
      return Some(SendRetryBlocked);
    }
    if draft.saveAttempted {
      return Some(SaveRetryBlocked);
    }
    if store.claim.Stored? {
      return Some(RetryBlocked);
    }
    if draft.kind != New || draft.from != "" || |draft.cc| > 0 || |draft.bcc| > 0 || |draft.to| == 0 {
      return Some(Rejected);
    }
    var fit := PreflightDraftAttachments(store, draft.attachments);
    error := if fit then None else Some(Rejected);
  }

  // The identifier that was drawn at random can serve: the generator did not
  // fail and did not repeat itself.
  predicate IsFresh(drawn: Option<string>, used: set<string>) {
    drawn.Some? && ValidAttemptId(drawn.value) && drawn.value !in used
  }

  // There is no claim, or one of an attempt that was never dispatched and that
  // can be cleared away.
  predicate MayStart(claim: Claim, draft: Draft) {
    || claim == Absent
    || (claim.Stored?
        && (claim.attempt.outcome == Canceled || Recoverable(claim, claim.attempt.id, draft.attachments)))
  }

  predicate CopiesAreValid(draft: Draft) {
    forall i :: 0 <= i < |draft.attachments| ==> ValidSnapshot(draft.attachments[i])
  }

  method BeginDraftHandoff(store: Store, draft: Draft, drawn: Option<string>) returns (result: Result<Session, Error>)
    requires store.Valid()
    modifies store`claim, store`staged, store`used, store`trace, store`leased
    ensures store.Valid() && old(store.trace) <= store.trace
    ensures result.Success? ==> fresh(result.value) && result.value.store == store && !result.value.closed
    ensures result.Success? ==> result.value.Valid() && result.value.attempt.outcome == Prepared
    ensures result.Success? ==> store.claim == Stored(result.value.attempt)
    ensures result.Success? ==> result.value.attempt.id !in old(store.used)
    ensures result.Success? ==> result.value.attempt.snapshots == draft.attachments
    ensures result.Success? && draft.attachments != [] ==> store.staged == {result.value.attempt.id}
    ensures result.Success? ==> Eligible(draft)
    ensures !Eligible(draft) ==>
              && store.used == old(store.used) && store.staged <= old(store.staged)
              && NoNewClaim(old(store.claim), store.claim)
    ensures result.Failure? ==> store.leased == old(store.leased)
    ensures old(store.claim).Stored? && old(store.claim).attempt.outcome !in {Prepared, Canceled} ==>
              result.Failure? && store.claim == old(store.claim)
    ensures old(store.claim) == Torn ==> result.Failure? && store.claim == Torn
    ensures store.reliable ==>
              (result.Success? <==>
                 && !old(store.leased) && MayStart(old(store.claim), draft) && Eligible(draft)
                 && CopiesAreValid(draft) && IsFresh(drawn, old(store.used)))
  {
    var acquired := store.Acquire();
    if !acquired {
      return Failure(Busy);
    }
    result := BeginLeased(store, draft, drawn);
    if result.Failure? {
      var released := store.Release();
    }
  }

  method BeginLeased(store: Store, draft: Draft, drawn: Option<string>) returns (result: Result<Session, Error>)
    requires store.Valid() && store.leased
    modifies store`claim, store`staged, store`used, store`trace
    ensures store.Valid() && old(store.trace) <= store.trace
    ensures result.Success? ==> fresh(result.value) && result.value.store == store && !result.value.closed
    ensures result.Success? ==> result.value.Valid() && result.value.attempt.outcome == Prepared
    ensures result.Success? ==> store.claim == Stored(result.value.attempt)
    ensures result.Success? ==> result.value.attempt.id !in old(store.used)
    ensures result.Success? ==> result.value.attempt.snapshots == draft.attachments
    ensures result.Success? && draft.attachments != [] ==> store.staged == {result.value.attempt.id}
    ensures result.Success? ==> Eligible(draft)
    ensures !Eligible(draft) ==>
              && store.used == old(store.used) && store.staged <= old(store.staged)
              && NoNewClaim(old(store.claim), store.claim)
    ensures old(store.claim).Stored? && old(store.claim).attempt.outcome !in {Prepared, Canceled} ==>
              result.Failure? && store.claim == old(store.claim)
    ensures old(store.claim) == Torn ==> result.Failure? && store.claim == Torn
    ensures store.reliable ==>
              (result.Success? <==>
                 && MayStart(old(store.claim), draft) && Eligible(draft) && CopiesAreValid(draft)
                 && IsFresh(drawn, old(store.used)))
  {
    hide Eligible, TotalSize, ValidAttemptId;
    if store.claim == Torn {
      return Failure(Unreadable);
    }
    var cleared := ClearUndispatched(store, draft);
    if !cleared {
      return Failure(StorageFailed);
    }
    var error := ValidateDraftHandoff(store, draft);
    if error.Some? {
      return Failure(error.value);
    }
    if !IsFresh(drawn, store.used) {
      return Failure(StorageFailed);
    }
    result := StartAttempt(store, draft, drawn.value);
  }

  // Publishes a prepared claim, copies the attachments under it, and lists
  // them in it.
  method StartAttempt(store: Store, draft: Draft, id: string) returns (result: Result<Session, Error>)
    requires store.Valid() && store.leased && !store.claim.Stored?
    requires Eligible(draft) && ValidAttemptId(id) && id !in store.used
    modifies store`claim, store`staged, store`used, store`trace
    ensures store.Valid() && old(store.trace) <= store.trace
    ensures result.Success? ==> fresh(result.value) && result.value.store == store && !result.value.closed
    ensures result.Success? ==> result.value.Valid() && result.value.attempt.outcome == Prepared
    ensures result.Success? ==> store.claim == Stored(result.value.attempt) && result.value.attempt.id == id
    ensures result.Success? ==> result.value.attempt.snapshots == draft.attachments
    ensures result.Success? && draft.attachments != [] ==> store.staged == {id}
    ensures old(store.claim) == Torn ==> result.Failure? && store.claim == Torn
    ensures store.reliable && old(store.claim) == Absent ==> (result.Success? <==> CopiesAreValid(draft))
  {
    hide ValidAttemptId;
    var now := Clock();
    var attempt := Attempt(id, store.draftRef, now, now, Prepared, false, false, []);
    var created := store.CreateClaim(attempt);
    if !created {
      return Failure(StorageFailed);
    }
    var staged := store.StageSnapshots(|draft.attachments|);
    if !staged {
      var recovered := RecoverPreparedHandoffStaging(store, id, draft.attachments);
      return Failure(StagingFailed);
    }
    now := Clock();
    attempt := attempt.(snapshots := draft.attachments, snapshotsRetained := |draft.attachments| > 0, updatedAt := now);
    store.IsSafe();
    var replaced := store.ReplaceClaim(attempt);
    if !replaced {
      var recovered := RecoverPreparedHandoffStaging(store, id, draft.attachments);
      return Failure(StorageFailed);
    }
    store.IsSafe();
    var session := new Session(store, attempt);
    return Success(session);
  }

  // Clears what an earlier, never dispatched attempt left behind.
  method ClearUndispatched(store: Store, draft: Draft) returns (ok: bool)
    requires store.Valid() && store.leased && store.claim != Torn
    modifies store`claim, store`staged, store`trace
    ensures store.Valid() && old(store.trace) <= store.trace
    ensures ok && (old(store.claim) == Absent || old(store.claim).attempt.outcome in {Prepared, Canceled}) ==>
              store.claim == Absent
    ensures old(store.claim).Stored? && old(store.claim).attempt.outcome !in {Prepared, Canceled} ==>
              store.claim == old(store.claim)
    ensures store.staged <= old(store.staged) && NoNewClaim(old(store.claim), store.claim)
    ensures store.reliable ==> (ok && store.claim == Absent <==> MayStart(old(store.claim), draft))
  {
    ok := true;
    if store.claim == Absent {
      return;
    }
    store.IsSafe();
    var attempt := store.claim.attempt;
    if !attempt.dispatchStarted && attempt.outcome == Prepared {
      ok := RecoverPreparedHandoffStaging(store, attempt.id, draft.attachments);
    } else if attempt.outcome == Canceled {
      var after;
      ok, after := CleanupTerminalHandoffAttempt(store, attempt);
    }
  }

  datatype ReconcileError = LeaseBusy | ClaimUnreadable | NotFound | Mismatch | OutcomeFixed | NotDispatched | Failed

  // The attempt is unresolved after a dispatch, or already recorded with an
  // outcome that agrees; a canceled attempt counts as failed.
  predicate Reconcilable(claim: Claim, id: string, resolution: Outcome) {
    && claim.Stored? && claim.attempt.id == id
    && (claim.attempt.outcome in {Dispatched, Unknown, resolution}
        || (claim.attempt.outcome == Canceled && resolution == ConfirmedFailed))
  }

  // Records the outcome a person observed for an unresolved dispatch, or
  // resumes the cleanup of one that was already recorded.
  method ReconcileDraftHandoff(store: Store, id: string, resolution: Outcome) returns (error: Option<ReconcileError>)
    requires store.Valid() && resolution in {ConfirmedOpened, ConfirmedFailed}
    modifies store`claim, store`staged, store`trace, store`leased
    ensures store.Valid() && old(store.trace) <= store.trace && store.leased == old(store.leased)
    ensures error.None? ==> store.claim == Absent && store.staged == {}
    ensures error.None? ==> Reconcilable(old(store.claim), id, resolution)
    ensures store.reliable && Reconcilable(old(store.claim), id, resolution) && !old(store.leased) ==> error.None?
    ensures store.claim != old(store.claim) ==>
              && old(store.claim).Stored? && old(store.claim).attempt.id == id
              && (store.claim.Stored? ==>
                    store.claim.attempt.id == id && store.claim.attempt.outcome in {Canceled, resolution})
  {
    var acquired := store.Acquire();
    if !acquired {
      return Some(LeaseBusy);
    }
    error := ReconcileLeased(store, id, resolution);
    var released := store.Release();
  }

  method ReconcileLeased(store: Store, id: string, resolution: Outcome) returns (error: Option<ReconcileError>)
    requires store.Valid() && store.leased && resolution in {ConfirmedOpened, ConfirmedFailed}
    modifies store`claim, store`staged, store`trace
    ensures store.Valid() && old(store.trace) <= store.trace
    ensures error.None? ==> store.claim == Absent && store.staged == {}
    ensures error.None? ==> Reconcilable(old(store.claim), id, resolution)
    ensures store.reliable && Reconcilable(old(store.claim), id, resolution) ==> error.None?
    ensures store.claim != old(store.claim) ==>
              && old(store.claim).Stored? && old(store.claim).attempt.id == id
              && (store.claim.Stored? ==>
                    store.claim.attempt.id == id && store.claim.attempt.outcome in {Canceled, resolution})
  {
    if store.claim == Torn {
      return Some(ClaimUnreadable);
    }
    if store.claim == Absent {
      return Some(NotFound);
    }
    store.IsSafe();
    var attempt := store.claim.attempt;
    if attempt.id != id {
      return Some(Mismatch);
    }
    if Terminal(attempt) && (attempt.outcome == ConfirmedOpened) != (resolution == ConfirmedOpened) {
      return Some(OutcomeFixed);
    }
    if !Terminal(attempt) && (!attempt.dispatchStarted || attempt.outcome !in {Dispatched, Unknown}) {
      return Some(NotDispatched);
    }
    if !Terminal(attempt) {
      var now := Clock();
      attempt := attempt.(outcome := resolution, updatedAt := now);
      var replaced := store.ReplaceClaim(attempt);
      if !replaced {
        return Some(Failed);
      }
    }
    var ok;
    ok, attempt := CleanupTerminalHandoffAttempt(store, attempt);
    error := if ok then None else Some(Failed);
  }
}
