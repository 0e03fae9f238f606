// The byte budget that all workers of a batch read share. The mutex makes
// every call one step, so the order of the calls is all that concurrency
// leaves open.
module BatchBudget {
  import opened JsonStrings
  import opened Sequences
  import opened Utf8
  import opened Wrappers

  type Text = seq<Byte>

  datatype Measured = Exact | LowerBound

  datatype Admission = Admission(retainContent: bool, retainHeaders: bool, budgetExceeded: bool)

  datatype Report = Report(exceeded: bool, limitBytes: int, requiredBytes: int, measured: Option<Measured>,
                           failed: bool)

  // What a call asks for: a message's texts, or a recorded result whose
  // projected sizes may fail to encode.
  datatype Call =
    | Content(content: Text, headers: Text, retainContent: bool, retainHeaders: bool)
    | Recorded(extra: Option<int>, skeleton: Option<int>, skipped: nat)

  function Wanted(c: Call): seq<Text> {
    if c.Recorded? then []
    else (if c.retainContent then [c.content] else []) + (if c.retainHeaders then [c.headers] else [])
  }

  function Size(texts: seq<Text>): nat {
    if texts == [] then 0 else |EncodeString(texts[0])| + Size(texts[1..])
  }

  lemma {:induction false} SizeConcat(a: seq<Text>, b: seq<Text>)
    ensures Size(a + b) == Size(a) + Size(b)
  {
    if a == [] {
      assert a + b == b;
    } else {
      SizeConcat(a[1..], b);
      assert (a + b)[1..] == a[1..] + b;
    }
  }

  lemma WantedSize(c: Call)
    ensures
      Size(Wanted(c))
      == if c.Recorded? then 0
         else (if c.retainContent then |EncodeString(c.content)| else 0)
              + if c.retainHeaders then |EncodeString(c.headers)| else 0
  {
    hide EncodeString;
    if !c.Recorded? {
      SizeConcat(if c.retainContent then [c.content] else [], if c.retainHeaders then [c.headers] else []);
    }
  }

  // The budget and, beside its own fields, the texts it let callers retain.
  datatype State = State(
    limit: int, remaining: int, requiredBytes: int, exceeded: bool, itemExtraBytes: int, encodedBytes: int,
    measured: Option<Measured>, failed: bool, retained: seq<Text>)

  function Initial(limit: int): State {
    State(limit, limit, 0, false, 0, 0, None, false, [])
  }

  function ReportOf(s: State): Report {
    Report(s.exceeded, s.limit, if s.measured.Some? then s.encodedBytes else s.requiredBytes, s.measured, s.failed)
  }

  ghost predicate Sound(s: State) {
    && Size(s.retained) == s.limit - s.remaining
    && (s.limit >= 0 ==> s.remaining >= 0)
    && s.requiredBytes >= s.limit - s.remaining
    && (!s.exceeded ==> s.requiredBytes == s.limit - s.remaining && s.measured.None?)
    && (s.exceeded ==> ReportOf(s).requiredBytes > s.limit)
  }

  class Budget {
    const limit: int
    var remaining: int
    var requiredBytes: int
    var exceeded: bool
    var itemExtraBytes: int
    var encodedBytes: int
    var measured: Option<Measured>
    var failed: bool
    ghost var retained: seq<Text>

    ghost function Value(): State
      reads this
    {
      State(limit, remaining, requiredBytes, exceeded, itemExtraBytes, encodedBytes, measured, failed, retained)
    }

    constructor (limit: int)
      ensures Value() == Initial(limit) && Sound(Value())
    {
      this.limit, remaining, requiredBytes, exceeded := limit, limit, 0, false;
      itemExtraBytes, encodedBytes, measured, failed := 0, 0, None, false;
      retained := [];
    }

    // Retains what was asked for as a whole or nothing of it.
    method Admit(content: Text, headers: Text, retainContent: bool, retainHeaders: bool) returns (a: Admission)
      requires Sound(Value())
      modifies this
      ensures Sound(Value())
      ensures Value() == Apply(old(Value()), Content(content, headers, retainContent, retainHeaders))
      ensures a.budgetExceeded == exceeded
      ensures a.retainContent == (retainContent && !exceeded) && a.retainHeaders == (retainHeaders && !exceeded)
    {
      hide EncodeString, Size;
      ghost var call := Content(content, headers, retainContent, retainHeaders);
      var needed := 0;
      if retainContent {
        needed := JsonStringOutputBytes(content);
      }
      if retainHeaders {
        var n := JsonStringOutputBytes(headers);
        needed := needed + n;
      }
      WantedSize(call);
      SizeConcat(retained, Wanted(call));
      requiredBytes := requiredBytes + needed;
      if exceeded || needed > remaining {
        exceeded := true;
        return Admission(false, false, true);
      }
      remaining := remaining - needed;
      retained := retained + Wanted(call);
      return Admission(retainContent, retainHeaders, false);
    }

    // Weighs the whole response once one more result is recorded in it.
    method AdmitResult(extra: Option<int>, skeleton: Option<int>, skipped: nat) returns (ok: bool)
      requires Sound(Value())
      modifies this
      ensures Sound(Value())
      ensures Value() == Apply(old(Value()), Recorded(extra, skeleton, skipped))
      ensures ok <==> !exceeded && extra.Some? && skeleton.Some?
    {
      if exceeded {
        return false;
      }
      var broken := extra.None?;
      if !broken {
        itemExtraBytes := itemExtraBytes + extra.value;
        broken := skeleton.None?;
        if !broken && skeleton.value + itemExtraBytes > limit {
          exceeded := true;
          encodedBytes := skeleton.value + itemExtraBytes;
          measured := Some(LowerBound);
          if skipped == 0 {
            measured := Some(Exact);
          }
        }
      }
      failed := broken;
      return !broken && !exceeded;
    }

    method Result() returns (r: Report)
      requires Sound(Value())
      ensures r == ReportOf(Value())
      ensures r.exceeded ==> r.requiredBytes > r.limitBytes
      ensures !r.exceeded ==> r.requiredBytes == Size(retained)
    {
      var needed := requiredBytes;
      if measured.Some? {
        needed := encodedBytes;
      }
      r := Report(exceeded, limit, needed, measured, failed);
    }
  }

  // ----- the calls of all workers, in any order

  function Apply(s: State, c: Call): State {
    match c
    case Content(_, _, _, _) =>
      var needed := Size(Wanted(c));
      var asked := s.(requiredBytes := s.requiredBytes + needed);
      if s.exceeded || needed > s.remaining then asked.(exceeded := true)
      else asked.(remaining := s.remaining - needed, retained := s.retained + Wanted(c))
    case Recorded(extra, skeleton, skipped) =>
      if s.exceeded then s
      else if extra.None? then s.(failed := true)
      else
        var weighed := s.(itemExtraBytes := s.itemExtraBytes + extra.value, failed := skeleton.None?);
        if skeleton.None? || skeleton.value + weighed.itemExtraBytes <= s.limit then weighed
        else weighed.(exceeded := true, encodedBytes := skeleton.value + weighed.itemExtraBytes,
                      measured := Some(if skipped == 0 then Exact else LowerBound))
  }

  function Run(s: State, calls: seq<Call>): State
    decreases calls
  {
    if calls == [] then s else Run(Apply(s, calls[0]), calls[1..])
  }

  function AllWanted(calls: seq<Call>): seq<Text> {
    if calls == [] then [] else Wanted(calls[0]) + AllWanted(calls[1..])
  }

  lemma ApplyKeepsSound(s: State, c: Call)
    requires Sound(s)
    ensures Sound(Apply(s, c))
  {
    hide EncodeString, Size;
    SizeConcat(s.retained, Wanted(c));
  }

  // Once exceeded, the budget stays exceeded and retains nothing more.
  lemma {:induction false} ExceededIsFinal(s: State, calls: seq<Call>)
    requires s.exceeded
    ensures Run(s, calls).exceeded && Run(s, calls).retained == s.retained && Run(s, calls).remaining == s.remaining
    decreases calls
  {
    if calls != [] {
      ExceededIsFinal(Apply(s, calls[0]), calls[1..]);
    }
  }

  lemma ApplyGrows(s: State, c: Call)
    ensures
      var t := Apply(s, c);
      && t.limit == s.limit && s.retained <= t.retained
      && (!t.exceeded ==> t.retained == s.retained + Wanted(c))
      && (t.measured.None? ==> s.measured.None? && t.requiredBytes == s.requiredBytes + Size(Wanted(c)))
  {
    hide EncodeString;
    assert s.retained + [] == s.retained;
  }

  lemma {:induction false} RunFrom(s: State, calls: seq<Call>)
    requires Sound(s)
    ensures Sound(Run(s, calls)) && Run(s, calls).limit == s.limit
    ensures s.retained <= Run(s, calls).retained
    ensures !Run(s, calls).exceeded ==> Run(s, calls).retained == s.retained + AllWanted(calls)
    ensures Run(s, calls).measured.None? ==> Run(s, calls).requiredBytes == s.requiredBytes + Size(AllWanted(calls))
    decreases calls
  {
    hide Apply, Sound, Wanted;
    if calls != [] {
      var c, rest := calls[0], calls[1..];
      var t := Apply(s, c);
      ApplyKeepsSound(s, c);
      ApplyGrows(s, c);
      RunFrom(t, rest);
      SizeConcat(Wanted(c), AllWanted(rest));
      Associate(s.retained, Wanted(c), AllWanted(rest));
      if t.exceeded {
        ExceededIsFinal(t, rest);
      }
      MeasuredIsFinal(t, rest);
    }
  }

  lemma {:induction false} MeasuredIsFinal(s: State, calls: seq<Call>)
    ensures s.measured.Some? ==> Run(s, calls).measured.Some?
    decreases calls
  {
    if calls != [] {
      MeasuredIsFinal(Apply(s, calls[0]), calls[1..]);
    }
  }

  // Under any order of content and result admissions, the retained texts fill
  // exactly what is no longer remaining, never more than the limit, and a
  // budget reported as exceeded reports more bytes than its limit.
  lemma RetainedTextsStayWithinLimit(limit: nat, calls: seq<Call>)
    ensures
      var s := Run(Initial(limit), calls);
      && Size(s.retained) == limit - s.remaining <= limit
      && (s.exceeded ==> ReportOf(s).requiredBytes > limit)
      && (!s.exceeded ==> s.retained == AllWanted(calls))
  {
    RunFrom(Initial(limit), calls);
  }

  // Unless a recorded result overflowed, the verdict is that of the total: it
  // does not depend on the order in which the workers asked.
  lemma VerdictIsThatOfTheTotal(limit: nat, calls: seq<Call>)
    requires Run(Initial(limit), calls).measured.None?
    ensures Run(Initial(limit), calls).exceeded <==> Size(AllWanted(calls)) > limit
    ensures Run(Initial(limit), calls).requiredBytes == Size(AllWanted(calls))
  {
    RunFrom(Initial(limit), calls);
  }

  // ----- when and why the budget is exceeded

  // The extra bytes of all results recorded so far.
  function AllExtras(calls: seq<Call>): int {
    if calls == [] then 0
    else (if calls[0].Recorded? && calls[0].extra.Some? then calls[0].extra.value else 0) + AllExtras(calls[1..])
  }

  // With the first `n + 1` calls the limit is overstepped: by all the texts
  // asked for, or by the response as it stood at a recorded result, with the
  // extra bytes of all results until then.
  ghost predicate Oversteps(limit: int, calls: seq<Call>, n: nat) {
    && n < |calls|
    && match calls[n]
       case Content(_, _, _, _) => Size(AllWanted(calls[..n + 1])) > limit
       case Recorded(extra, skeleton, _) =>
         extra.Some? && skeleton.Some? && skeleton.value + AllExtras(calls[..n + 1]) > limit
  }

  lemma {:induction false} RunSnoc(s: State, calls: seq<Call>, c: Call)
    ensures Run(s, calls + [c]) == Apply(Run(s, calls), c)
    decreases calls
  {
    hide Apply;
    if calls == [] {
      assert calls + [c] == [c] && [c][1..] == [];
    } else {
      RunSnoc(Apply(s, calls[0]), calls[1..], c);
      assert (calls + [c])[1..] == calls[1..] + [c];
    }
  }

  lemma {:induction false} TotalsSnoc(calls: seq<Call>, c: Call)
    ensures AllWanted(calls + [c]) == AllWanted(calls) + Wanted(c)
    ensures AllExtras(calls + [c])
         == AllExtras(calls) + if c.Recorded? && c.extra.Some? then c.extra.value else 0
  {
    hide Wanted;
    if calls == [] {
      assert calls + [c] == [c] && [c][1..] == [];
      assert AllWanted([c]) == Wanted(c) + AllWanted([]);
      assert AllWanted(calls) + Wanted(c) == Wanted(c) + [];
    } else {
      TotalsSnoc(calls[1..], c);
      assert (calls + [c])[1..] == calls[1..] + [c];
      Associate(Wanted(calls[0]), AllWanted(calls[1..]), Wanted(c));
    }
  }

  ghost predicate NoOverstep(limit: int, calls: seq<Call>) {
    forall n: nat :: n < |calls| ==> !Oversteps(limit, calls, n)
  }

  lemma OverstepOfPrefix(limit: int, calls: seq<Call>, c: Call, n: nat)
    requires n < |calls|
    ensures Oversteps(limit, calls + [c], n) <==> Oversteps(limit, calls, n)
  {
    assert (calls + [c])[..n + 1] == calls[..n + 1];
  }

  lemma NoOverstepSnoc(limit: int, calls: seq<Call>, c: Call)
    ensures NoOverstep(limit, calls + [c]) <==> NoOverstep(limit, calls) && !Oversteps(limit, calls + [c], |calls|)
  {
    hide Oversteps;
    forall n: nat | n < |calls| ensures Oversteps(limit, calls + [c], n) <==> Oversteps(limit, calls, n) {
      OverstepOfPrefix(limit, calls, c, n);
    }
  }

  // As long as nothing oversteps, the budget keeps count; it is exceeded as
  // soon as something does.
  lemma {:induction false} ExceededExactly(limit: int, calls: seq<Call>)
    ensures
      var s := Run(Initial(limit), calls);
      && (s.exceeded <==> !NoOverstep(limit, calls))
      && (!s.exceeded ==> s.itemExtraBytes == AllExtras(calls) && s.remaining == limit - Size(AllWanted(calls)))
    decreases |calls|
  {
    hide NoOverstep, Apply, Oversteps, AllExtras, AllWanted;
    if calls != [] {
      var before, c := calls[..|calls| - 1], calls[|calls| - 1];
      assert before + [c] == calls;
      ExceededExactly(limit, before);
      RunSnoc(Initial(limit), before, c);
      NoOverstepSnoc(limit, before, c);
      InitialIsSound(limit);
      RunFrom(Initial(limit), before);
      CountsOn(limit, before, c);
    } else {
      NothingCounted(limit);
    }
  }

  lemma NothingCounted(limit: int)
    ensures NoOverstep(limit, []) && AllExtras([]) == 0 && AllWanted([]) == [] && Size([]) == 0
  {
  }

  lemma CountsOn(limit: int, before: seq<Call>, c: Call)
    requires Run(Initial(limit), before).limit == limit
    requires
      var s := Run(Initial(limit), before);
      !s.exceeded ==> s.itemExtraBytes == AllExtras(before) && s.remaining == limit - Size(AllWanted(before))
    ensures
      var s := Run(Initial(limit), before);
      var t, calls := Apply(s, c), before + [c];
      && (t.exceeded <==> s.exceeded || Oversteps(limit, calls, |before|))
      && (!t.exceeded ==> t.itemExtraBytes == AllExtras(calls) && t.remaining == limit - Size(AllWanted(calls)))
  {
    hide Run, AllExtras, AllWanted, Size, Wanted;
    var calls := before + [c];
    assert calls[..|before| + 1] == calls;
    TotalsSnoc(before, c);
    SizeConcat(AllWanted(before), Wanted(c));
    if c.Recorded? {
      NothingWanted(c);
    }
  }

  lemma NothingWanted(c: Call)
    requires c.Recorded?
    ensures Size(Wanted(c)) == 0
  {
  }

  lemma {:induction false} RunConcat(s: State, a: seq<Call>, b: seq<Call>)
    ensures Run(s, a + b) == Run(Run(s, a), b)
    decreases a
  {
    hide Apply;
    if a == [] {
      assert a + b == b;
    } else {
      RunConcat(Apply(s, a[0]), a[1..], b);
      assert (a + b)[1..] == a[1..] + b;
    }
  }

  // An exceeded budget keeps its evidence.
  lemma {:induction false} EvidenceStays(s: State, calls: seq<Call>)
    requires s.exceeded
    ensures
      var t := Run(s, calls);
      t.exceeded && t.measured == s.measured && t.encodedBytes == s.encodedBytes && t.limit == s.limit
    decreases calls
  {
    if calls != [] {
      EvidenceStays(Apply(s, calls[0]), calls[1..]);
    }
  }

  lemma OverstepIsMeasured(limit: int, before: seq<Call>, c: Call)
    requires NoOverstep(limit, before) && Oversteps(limit, before + [c], |before|)
    ensures
      var t := Run(Initial(limit), before + [c]);
      && t.exceeded
      && (c.Content? ==> t.measured == None)
      && (c.Recorded? ==>
            && t.measured == Some(if c.skipped == 0 then Exact else LowerBound)
            && t.encodedBytes == c.skeleton.value + AllExtras(before + [c]))
  {
    hide NoOverstep, AllExtras, AllWanted, Size, Wanted, Run;
    assert (before + [c])[..|before| + 1] == before + [c];
    ExceededExactly(limit, before);
    InitialIsSound(limit);
    RunFrom(Initial(limit), before);
    RunSnoc(Initial(limit), before, c);
    TotalsSnoc(before, c);
    SizeConcat(AllWanted(before), Wanted(c));
  }

  lemma InitialIsSound(limit: int)
    ensures Sound(Initial(limit))
  {
  }

  // What is reported is decided by the first call that oversteps: the size of
  // the response as it stood then, exact if no item was skipped, or else the
  // size of all the texts that were asked for in the end.
  lemma FirstOverstepIsReported(limit: int, calls: seq<Call>, n: nat)
    requires Oversteps(limit, calls, n) && NoOverstep(limit, calls[..n])
    ensures
      var r := ReportOf(Run(Initial(limit), calls));
      && r.exceeded && r.limitBytes == limit
      && match calls[n]
         case Content(_, _, _, _) => r.measured == None && r.requiredBytes == Size(AllWanted(calls))
         case Recorded(_, skeleton, skipped) =>
           && r.measured == Some(if skipped == 0 then Exact else LowerBound)
           && r.requiredBytes == skeleton.value + AllExtras(calls[..n + 1])
  {
    hide NoOverstep, AllExtras, AllWanted, Size, Wanted, Run, Apply;
    var before, c, later := calls[..n], calls[n], calls[n + 1..];
    assert before + [c] == calls[..n + 1] && (before + [c]) + later == calls;
    assert (before + [c])[..n + 1] == calls[..n + 1];
    OverstepIsMeasured(limit, before, c);
    RunConcat(Initial(limit), before + [c], later);
    EvidenceStays(Run(Initial(limit), before + [c]), later);
    InitialIsSound(limit);
    RunFrom(Initial(limit), calls);
  }
}
