// The handoff command: the native boundary, its joined errors, and the outcome
// that is reported and recorded.
module HandoffCommand {
  import opened HandoffProtocol
  import opened HandoffSession
  import opened Wrappers

  // ----- the native response and the errors made of it

  datatype State = NoState | Completion | NativeFailure | CanceledBefore | OutcomeUnknown

  datatype Response = Response(ok: bool, code: string, dispatched: bool, isOpen: bool)

  // The raw answer of the native call.
  datatype Raw = Empty | Garbage | Json(response: Response)

  // The errors joined into one, in order; [] is no error.  Only compose errors
  // are looked at by type.
  datatype Leaf = Plain | Compose(code: string, state: State, dispatched: bool)

  type Errors = seq<Leaf>

  datatype Answer = Answer(isOpen: bool, state: State)

  const UNKNOWN_CODE := "handoff_outcome_unknown"
  const CANCELED_CODE := "handoff_canceled_before_dispatch"

  const UNKNOWN_ERROR := Compose(UNKNOWN_CODE, OutcomeUnknown, true)
  const CANCELED_ERROR := Compose(CANCELED_CODE, CanceledBefore, false)

  const NOTHING := Answer(false, NoState)

  function ParseHandoffResponse(raw: Raw): (Answer, Errors)
    requires raw != Empty
  {
    match raw
    case Garbage => (NOTHING, [Plain])
    case Json(r) =>
      if !r.ok then
        var state := if r.code == UNKNOWN_CODE then OutcomeUnknown
                     else if r.code == CANCELED_CODE then CanceledBefore
                     else NativeFailure;
        (Answer(false, state), [Compose(r.code, state, r.dispatched)])
      else if !r.dispatched then
        (Answer(false, NativeFailure), [Compose("handoff_response_invalid", NativeFailure, false)])
      else
        (Answer(r.isOpen, Completion), [])
  }

  // The first compose error among the joined ones.
  function FirstCompose(errors: Errors): (first: Option<Leaf>)
    ensures first.Some? ==> first.value.Compose? && first.value in errors
  {
    if errors == [] then None
    else if errors[0].Compose? then Some(errors[0])
    else FirstCompose(errors[1..])
  }

  predicate MeansUnknown(e: Leaf)
    requires e.Compose?
  {
    e.state == OutcomeUnknown || e.code == UNKNOWN_CODE
  }

  // ----- what the environment does during one call

  // When the caller's context is cancelled, what the native call answers,
  // whether the call itself fails, and whether the watcher saw a cancellation
  // by the time it had returned.  A cancelled context stays cancelled.
  datatype Environment = Environment(cancelledAtStart: bool, cancelledBeforeObserver: bool, cancelledInObserver: bool,
                                     cancelledAfterObserver: bool, raw: Raw, invokeFails: bool, observed: bool)

  predicate Consistent(e: Environment) {
    && (e.cancelledAtStart ==> e.cancelledBeforeObserver)
    && (e.cancelledBeforeObserver ==> e.cancelledInObserver)
    && (e.cancelledInObserver ==> e.cancelledAfterObserver)
    && (e.cancelledAfterObserver ==> e.observed)
  }

  // What follows the native call.
  function AfterNative(e: Environment): (Answer, Errors) {
    var invoked := if e.invokeFails then [Plain] else [];
    if e.raw != Empty then
      var (answer, errors) := ParseHandoffResponse(e.raw);
      if e.observed then
        var first := FirstCompose(errors);
        if first.Some? && !first.value.dispatched then
          (Answer(false, CanceledBefore), [Plain] + errors + invoked)
        else
          (Answer(false, OutcomeUnknown), [UNKNOWN_ERROR] + errors + invoked)
      else if errors != [] then
        (Answer(false, OutcomeUnknown), errors + [UNKNOWN_ERROR] + invoked)
      else
        (answer, invoked)
    else if e.observed then
      (Answer(false, OutcomeUnknown), [UNKNOWN_ERROR])
    else if e.invokeFails then
      (Answer(false, OutcomeUnknown), [Plain, UNKNOWN_ERROR])
    else
      (NOTHING, [Plain])
  }

  // Sequences the observer, which marks the dispatch, and the native call.
  method HandoffWithDispatch(session: Session, e: Environment)
    returns (answer: Answer, errors: Errors, markFailed: bool)
    requires session.Valid() && !session.closed && !session.attempt.dispatchStarted && Consistent(e)
    modifies session`attempt, session.store`claim, session.store`trace, session.store`invoked
    ensures session.Valid() && !session.closed && session.attempt.id == old(session.attempt.id)
    ensures old(session.store.trace) <= session.store.trace
    ensures markFailed ==> errors != [] && !session.attempt.dispatchStarted
    ensures Invoked(session) ==> session.attempt.dispatchStarted && !markFailed && (answer, errors) == AfterNative(e)
    ensures !Invoked(session) && !markFailed ==>
              errors != [] && answer.state in {NoState, CanceledBefore}
              && (session.attempt.dispatchStarted ==> errors == [Plain, CANCELED_ERROR])
    ensures !Invoked(session) ==> session.store.invoked == old(session.store.invoked)
    ensures Invoked(session) ==> !e.cancelledAfterObserver
    ensures session.store.reliable && !e.cancelledAfterObserver ==> Invoked(session)
  {
    if e.cancelledAtStart {
      return NOTHING, [Plain], false;
    }
    if e.cancelledBeforeObserver {
      return Answer(false, CanceledBefore), [Plain, CANCELED_ERROR], false;
    }
    var marked := session.MarkDispatched(e.cancelledInObserver);
    if !marked {
      return NOTHING, [Plain], true;
    }
    if e.cancelledAfterObserver {
      return Answer(false, CanceledBefore), [Plain, CANCELED_ERROR], false;
    }
    session.store.InvokeNative();
    answer, errors := AfterNative(e).0, AfterNative(e).1;
    markFailed := false;
  }

  // Was native compose invoked for the session's attempt?
  ghost predicate Invoked(session: Session)
    reads session, session.store
  {
    session.attempt.id in session.store.invoked
  }

  // ----- classification

  datatype Report = HandedOff | NotHandedOff | UnknownOutcome

  // The response denies that native compose was reached, or, with no
  // cancellation observed, confirms that it failed.
  predicate DeniesOrFails(e: Environment) {
    e.raw.Json? && var r := e.raw.response;
    if r.ok then !r.dispatched
    else if !r.dispatched then r.code != UNKNOWN_CODE
    else !e.observed && r.code !in {UNKNOWN_CODE, CANCELED_CODE}
  }

  predicate Succeeds(e: Environment) {
    e.raw.Json? && e.raw.response.ok && e.raw.response.dispatched && !e.observed
  }

  // The command's decision on the answer and the joined errors of a dispatched
  // session.
  function Decide(answer: Answer, errors: Errors): Report {
    if errors == [] || answer.state == Completion then HandedOff
    else
      var first := FirstCompose(errors);
      if first.Some? && !first.value.dispatched && !MeansUnknown(first.value) then NotHandedOff
      else if first.None? || MeansUnknown(first.value) || first.value.state != NativeFailure then UnknownOutcome
      else NotHandedOff
  }

  lemma {:induction false} FirstOfJoined(a: Errors, b: Errors)
    ensures FirstCompose(a + b) == if FirstCompose(a).Some? then FirstCompose(a) else FirstCompose(b)
  {
    if a == [] {
      assert a + b == b;
    } else {
      FirstOfJoined(a[1..], b);
      assert (a + b)[1..] == a[1..] + b;
    }
  }

  // The decision after a native call, whatever was joined in which order.
  lemma DecisionIsExact(e: Environment)
    ensures var (answer, errors) := AfterNative(e);
      && (Decide(answer, errors) == HandedOff <==> Succeeds(e))
      && (Decide(answer, errors) == NotHandedOff <==> DeniesOrFails(e))
  {
    var invoked: Errors := if e.invokeFails then [Plain] else [];
    FirstOfJoined([Plain], [UNKNOWN_ERROR]);
    assert [Plain, UNKNOWN_ERROR] == [Plain] + [UNKNOWN_ERROR];
    if e.raw != Empty {
      var parsed := ParseHandoffResponse(e.raw).1;
      if parsed == [] {
        assert [UNKNOWN_ERROR] + parsed + invoked == [UNKNOWN_ERROR] + invoked;
        FirstOfJoined([UNKNOWN_ERROR], invoked);
      } else {
        assert parsed == [parsed[0]];
        FirstOfJoined([Plain] + parsed, invoked);
        FirstOfJoined([Plain], parsed);
        FirstOfJoined([UNKNOWN_ERROR] + parsed, invoked);
        FirstOfJoined([UNKNOWN_ERROR], parsed);
        FirstOfJoined(parsed + [UNKNOWN_ERROR], invoked);
        FirstOfJoined(parsed, [UNKNOWN_ERROR]);
      }
    }
  }

  // ----- the command

  // Runs one handoff on a session that has begun.  The report is exact, and
  // what is left on disk never says more than the report.
  method RunDraftHandoff(session: Session, e: Environment) returns (report: Report)
    requires session.Valid() && !session.closed && !session.attempt.dispatchStarted && Consistent(e)
    modifies session, session.store`claim, session.store`staged, session.store`trace, session.store`invoked,
             session.store`leased
    ensures session.store.Valid() && session.closed && !session.store.leased
    ensures session.attempt.id == old(session.attempt.id)
    ensures report == HandedOff <==> Invoked(session) && Succeeds(e)
    ensures report == NotHandedOff <==> !Invoked(session) || DeniesOrFails(e)
    ensures report == UnknownOutcome ==> Left(session, {Dispatched, Unknown})
    ensures report == HandedOff ==> session.store.claim == Absent || Left(session, {Dispatched, ConfirmedOpened})
    ensures report == NotHandedOff ==>
              session.store.claim == Absent || Left(session, {Prepared, Canceled, Dispatched, ConfirmedFailed})
    ensures report == NotHandedOff && Invoked(session) ==>
              session.store.claim == Absent || Left(session, {Dispatched, ConfirmedFailed})
    ensures Invoked(session) ==> !e.cancelledAfterObserver
    ensures session.store.reliable ==>
              && (Invoked(session) <==> !e.cancelledAfterObserver)
              && (report == UnknownOutcome ==> Left(session, {Unknown}))
              && (report != UnknownOutcome ==> session.store.claim == Absent && session.store.staged == {})
  {
    var answer, errors, markFailed := HandoffWithDispatch(session, e);
    var ok;
    if markFailed {
      ok := session.CancelBeforeDispatch();
      return NotHandedOff;
    }
    DecisionIsExact(e);
    FirstOfJoined([Plain], [CANCELED_ERROR]);
    assert [Plain, CANCELED_ERROR] == [Plain] + [CANCELED_ERROR];
    if errors != [] {
      var first := FirstCompose(errors);
      if answer.state == Completion {
        ok := session.Finish(ConfirmedOpened);
        return HandedOff;
      }
      if first.Some? && !first.value.dispatched && !MeansUnknown(first.value) {
        if session.attempt.dispatchStarted {
          ok := session.Finish(ConfirmedFailed);
        } else {
          ok := session.CancelBeforeDispatch();
        }
        return NotHandedOff;
      }
      if !session.attempt.dispatchStarted {
        ok := session.CancelBeforeDispatch();
        return NotHandedOff;
      }
      if first.None? || MeansUnknown(first.value) || first.value.state != NativeFailure {
        ok := session.Finish(Unknown);
        return UnknownOutcome;
      }
      ok := session.Finish(ConfirmedFailed);
      return NotHandedOff;
    }
    ok := session.Finish(ConfirmedOpened);
    report := HandedOff;
  }

  // The claim of the session's attempt is still stored, with such an outcome.
  ghost predicate Left(session: Session, outcomes: set<Outcome>)
    reads session, session.store
  {
    && session.store.claim.Stored? && session.store.claim.attempt.id == session.attempt.id
    && session.store.claim.attempt.outcome in outcomes
  }
}
