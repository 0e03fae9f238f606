// Merging one sender setup into the binding document that is stored by the
// time the setup publishes.
module SendSetup {
  import opened AccountBindings
  import opened BindingLaws
  import opened BindingStore
  import opened Sequences
  import opened Sorting
  import opened Wrappers

  datatype Hosts = Hosts(smtpHost: string, smtpPort: int, imapHost: string, imapPort: int)

  // What the setup saw before it asked for the password.
  datatype Decision = Decision(snapshot: Binding, found: bool, credentialExplicit: bool)

  datatype Setup = Setup(accountID: string, alias: string, credential: string, hosts: Option<Hosts>, decision: Decision)

  const NO_BINDING := Binding("", [], "", "", 0, "", 0)

  function HostsOf(b: Binding): Hosts {
    Hosts(b.smtpHost, b.smtpPort, b.imapHost, b.imapPort)
  }

  function WithHosts(b: Binding, h: Hosts): Binding {
    b.(smtpHost := h.smtpHost, smtpPort := h.smtpPort, imapHost := h.imapHost, imapPort := h.imapPort)
  }

  // A field that the setup does not set itself is not what it was.
  predicate ImplicitFieldsChanged(binding: Binding, found: bool, hosts: Option<Hosts>, decision: Decision) {
    || ((!decision.credentialExplicit || hosts.None?) && found != decision.found)
    || (!decision.credentialExplicit && binding.credential != decision.snapshot.credential)
    || (hosts.None? && HostsOf(binding) != HostsOf(decision.snapshot))
  }

  predicate Knows(n: Names, aliases: seq<string>, alias: string) {
    exists a :: a in aliases && n.sameAlias(a, alias)
  }

  function MergedBinding(n: Names, existing: Option<Binding>, s: Setup): Binding {
    var b :=
      match existing
      case None => NO_BINDING.(accountID := s.accountID, aliases := [s.alias], credential := s.credential)
      case Some(b) =>
        b.(credential := if s.decision.credentialExplicit then s.credential else b.credential,
           aliases := if Knows(n, b.aliases, s.alias) then b.aliases else b.aliases + [s.alias]);
    if s.hosts.Some? then WithHosts(b, s.hosts.value) else b
  }

  function Put(bindings: seq<Binding>, b: Binding): seq<Binding> {
    if bindings == [] then [b]
    else if bindings[0].accountID == b.accountID then [b] + bindings[1..]
    else [bindings[0]] + Put(bindings[1..], b)
  }

  function Merge(n: Names, d: Document, s: Setup): Result<Document, Code> {
    match Find(n, d, s.accountID)
    case Failure(e) => Failure(e)
    case Success(existing) =>
      var binding := if existing.Some? then existing.value else NO_BINDING;
      if ImplicitFieldsChanged(binding, existing.Some?, s.hosts, s.decision) then Failure(Changed)
      else Success(d.(bindings := Put(d.bindings, MergedBinding(n, existing, s))))
  }

  lemma PutNext(bindings: seq<Binding>, i: nat, b: Binding)
    requires i < |bindings|
    ensures
      bindings[..i] + Put(bindings[i..], b)
      == if bindings[i].accountID == b.accountID then bindings[i := b]
         else bindings[..i + 1] + Put(bindings[i + 1..], b)
  {
    assert bindings[i..][0] == bindings[i] && bindings[i..][1..] == bindings[i + 1..];
    ReplacedAt(bindings, i, b);
    Associate(bindings[..i], [bindings[i]], Put(bindings[i + 1..], b));
  }

  lemma ReplacedAt(s: seq<Binding>, i: nat, b: Binding)
    requires i < |s|
    ensures s[..i] + ([b] + s[i + 1..]) == s[i := b] && s[..i] + [s[i]] == s[..i + 1]
  {
  }

  // The binding takes the place of the first one of its account, or the end.
  method PutBinding(bindings: seq<Binding>, binding: Binding) returns (r: seq<Binding>)
    ensures r == Put(bindings, binding)
  {
    hide Put;
    assert bindings[..0] + Put(bindings[0..], binding) == Put(bindings, binding);
    for i := 0 to |bindings|
      invariant bindings[..i] + Put(bindings[i..], binding) == Put(bindings, binding)
    {
      PutNext(bindings, i, binding);
      if bindings[i].accountID == binding.accountID {
        return bindings[i := binding];
      }
    }
    assert bindings[|bindings|..] == [] && bindings[..|bindings|] == bindings;
    PutAlone(binding);
    return bindings + [binding];
  }

  lemma PutAlone(b: Binding)
    ensures Put([], b) == [b]
  {
  }

  method MergeSendBinding(n: Names, document: Document, s: Setup) returns (r: Result<Document, Code>)
    ensures r == Merge(n, document, s)
  {
    hide Find, ImplicitFieldsChanged;
    var found := FindAccountBinding(n, document, s.accountID);
    if found.Failure? {
      return Failure(found.error);
    }
    var binding := if found.value.Some? then found.value.value else NO_BINDING;
    if ImplicitFieldsChanged(binding, found.value.Some?, s.hosts, s.decision) {
      return Failure(Changed);
    }
    if found.value.None? {
      binding := NO_BINDING.(accountID := s.accountID, aliases := [s.alias], credential := s.credential);
    } else {
      if s.decision.credentialExplicit {
        binding := binding.(credential := s.credential);
      }
      var known := false;
      for i := 0 to |binding.aliases|
        invariant !known && !Knows(n, binding.aliases[..i], s.alias)
      {
        if n.sameAlias(binding.aliases[i], s.alias) {
          known := true;
          break;
        }
      }
      assert binding.aliases[..|binding.aliases|] == binding.aliases;
      if !known {
        binding := binding.(aliases := binding.aliases + [s.alias]);
      }
    }
    if s.hosts.Some? {
      binding := WithHosts(binding, s.hosts.value);
    }
    assert binding == MergedBinding(n, found.value, s);
    var bindings := PutBinding(document.bindings, binding);
    return Success(document.(bindings := bindings));
  }

  // What is written when the merge is accepted: the validated document.
  function Publish(n: Names, d: Document, s: Setup): Result<Document, Code> {
    match Merge(n, d, s)
    case Failure(e) => Failure(e)
    case Success(merged) => Validate(n, merged)
  }

  // ----- what a publication changes

  lemma {:induction false} PutKeepsOthers(bindings: seq<Binding>, b: Binding)
    requires DistinctKeys(AccountIDOf, bindings)
    ensures b in Put(bindings, b)
    ensures forall o: Binding :: o.accountID != b.accountID ==> (o in Put(bindings, b) <==> o in bindings)
    ensures forall o: Binding :: o in Put(bindings, b) && o.accountID == b.accountID ==> o == b
  {
    if bindings != [] {
      var rest := bindings[1..];
      FirstKeyIsAlone(AccountIDOf, bindings);
      assert forall o: Binding :: o in bindings <==> o == bindings[0] || o in rest;
      if bindings[0].accountID == b.accountID {
        assert forall o: Binding :: o in [b] + rest <==> o == b || o in rest;
        assert forall o: Binding :: o in rest ==> AccountIDOf(o) != AccountIDOf(bindings[0]);
      } else {
        PutKeepsOthers(rest, b);
        var put := Put(rest, b);
        assert forall o: Binding :: o in [bindings[0]] + put <==> o == bindings[0] || o in put;
      }
    }
  }

  // The stored binding of an account in a canonical document.
  function Of(d: Document, id: string): Option<Binding> {
    Lookup(d.bindings, id)
  }

  ghost predicate OthersUntouched(before: Document, after: Document, id: string) {
    forall b: Binding :: b.accountID != id ==> (b in after.bindings <==> b in before.bindings)
  }

  ghost predicate KeepsAliases(before: Binding, after: Binding) {
    forall a :: a in before.aliases ==> a in after.aliases
  }

  lemma CanonicalFacts(n: Names, d: Document, id: string)
    requires Lawful(n) && IsCanonical(n, d)
    ensures Find(n, d, id) == if n.canonicalID(id) == "" then Failure(Invalid) else Success(Of(d, n.canonicalID(id)))
    ensures forall b :: b in d.bindings ==> n.canonicalID(b.accountID) == b.accountID
  {
    ValidatedIsCanonical(n, d);
    forall b | b in d.bindings ensures n.canonicalID(b.accountID) == b.accountID {
      NormalizingTwiceChangesNothing(n, b);
    }
  }

  // The merged binding goes to its account, under its canonical id or, for a
  // first binding, under the id as given.
  lemma MergedAccount(n: Names, d: Document, s: Setup)
    requires Lawful(n) && IsCanonical(n, d) && Find(n, d, s.accountID).Success?
    ensures
      var id := n.canonicalID(s.accountID);
      var m := MergedBinding(n, Of(d, id), s);
      && Find(n, d, s.accountID).value == Of(d, id) && n.canonicalID(m.accountID) == id
      && (Of(d, id).Some? ==> m.accountID == id && Of(d, id).value in d.bindings && Of(d, id).value.accountID == id)
      && (Of(d, id).None? ==> forall b :: b in d.bindings ==> b.accountID != id && b.accountID != m.accountID)
  {
    hide Normalize, Validate;
    var id := n.canonicalID(s.accountID);
    CanonicalFacts(n, d, s.accountID);
    forall b | b in d.bindings ensures Of(d, id) == Some(b) <==> b.accountID == id {
      LookupIsMembership(d.bindings, id, b);
    }
    if Of(d, id).Some? {
      LookupIsMembership(d.bindings, id, Of(d, id).value);
    }
  }

  lemma PublishedBindings(n: Names, d: Document, s: Setup)
    requires Lawful(n) && IsCanonical(n, d) && Publish(n, d, s).Success?
    ensures
      var id := n.canonicalID(s.accountID);
      var m := MergedBinding(n, Of(d, id), s);
      var v := Publish(n, d, s).value;
      && !ImplicitFieldsChanged(
           if Of(d, id).Some? then Of(d, id).value else NO_BINDING, Of(d, id).Some?, s.hosts, s.decision)
      && IsCanonical(n, v) && OthersUntouched(d, v, id)
      && Normalize(n, m).Success? && Of(v, id) == Some(Normalize(n, m).value)
  {
    hide Normalize;
    var id := n.canonicalID(s.accountID);
    var m := MergedBinding(n, Of(d, id), s);
    var merged := Merge(n, d, s).value;
    var v := Publish(n, d, s).value;
    MergedAccount(n, d, s);
    ValidatedIsCanonical(n, merged);
    ValidatedBindings(n, merged);
    PutKeepsOthers(d.bindings, m);
    assert m in merged.bindings;
    var k :| 0 <= k < |merged.bindings| && merged.bindings[k] == m;
    assert Normalize(n, merged.bindings[k]).value in v.bindings;
    NormalizingTwiceChangesNothing(n, m);
    LookupIsMembership(v.bindings, id, Normalize(n, m).value);
    forall b: Binding | b.accountID != id ensures b in v.bindings <==> b in d.bindings {
      PublishedOther(n, d, s, b);
    }
  }

  lemma PublishedOther(n: Names, d: Document, s: Setup, b: Binding)
    requires Lawful(n) && IsCanonical(n, d) && Publish(n, d, s).Success?
    requires b.accountID != n.canonicalID(s.accountID)
    ensures b in Publish(n, d, s).value.bindings <==> b in d.bindings
  {
    hide Normalize, Validate, IsSorted;
    var m := MergedBinding(n, Of(d, n.canonicalID(s.accountID)), s);
    var merged := Merge(n, d, s).value;
    MergedAccount(n, d, s);
    ValidatedBindings(n, merged);
    PutKeepsOthers(d.bindings, m);
    if b in d.bindings {
      assert b.accountID != m.accountID;
      var k :| 0 <= k < |merged.bindings| && merged.bindings[k] == b;
      assert Normalize(n, merged.bindings[k]) == Success(b);
    }
    if b in Publish(n, d, s).value.bindings {
      var k :| 0 <= k < |merged.bindings| && Normalize(n, merged.bindings[k]) == Success(b);
      var o := merged.bindings[k];
      NormalizingTwiceChangesNothing(n, o);
      assert o in merged.bindings;
      if o.accountID != m.accountID {
        assert o in d.bindings && Normalize(n, o) == Success(o);
      }
    }
  }

  // The fields a setup asks for, and what they become.
  ghost predicate FieldsAsPlanned(n: Names, s: Setup, b: Binding) {
    && (s.decision.credentialExplicit ==> n.address(s.credential) == Some(b.credential))
    && (!s.decision.credentialExplicit ==>
          if s.decision.found then b.credential == s.decision.snapshot.credential
          else n.address(s.credential) == Some(b.credential))
    && (s.hosts.None? ==> HostsOf(b) == if s.decision.found then HostsOf(s.decision.snapshot) else HostsOf(NO_BINDING))
    && (s.hosts.Some? ==>
          && var h := s.hosts.value;
             && NormalizeEndpoint(n, h.smtpHost, h.smtpPort) == Success(Endpoint(b.smtpHost, b.smtpPort))
             && NormalizeEndpoint(n, h.imapHost, h.imapPort) == Success(Endpoint(b.imapHost, b.imapPort)))
  }

  lemma NormalFields(n: Names, b: Binding)
    requires Normalize(n, b).Success?
    ensures
      var c := Normalize(n, b).value;
      && n.address(b.credential) == Some(c.credential)
      && NormalizeEndpoint(n, b.smtpHost, b.smtpPort) == Success(Endpoint(c.smtpHost, c.smtpPort))
      && NormalizeEndpoint(n, b.imapHost, b.imapPort) == Success(Endpoint(c.imapHost, c.imapPort))
  {
    hide NormalizeEndpoint, NormalizeAliases, Sort;
  }

  lemma PublishedFields(n: Names, d: Document, s: Setup)
    requires Lawful(n) && IsCanonical(n, d) && Publish(n, d, s).Success?
    ensures
      var b := Of(Publish(n, d, s).value, n.canonicalID(s.accountID));
      b.Some? && FieldsAsPlanned(n, s, b.value)
  {
    hide Normalize, Publish, IsCanonical, Lookup;
    var id := n.canonicalID(s.accountID);
    var existing := Of(d, id);
    var m := MergedBinding(n, existing, s);
    PublishedBindings(n, d, s);
    NormalFields(n, m);
    EmptyEndpoint(n);
    if existing.Some? {
      ExistingIsNormal(n, d, s);
      NormalFields(n, existing.value);
    }
  }

  lemma EmptyEndpoint(n: Names)
    requires Lawful(n)
    ensures NormalizeEndpoint(n, "", 0) == Success(Endpoint("", 0))
  {
  }

  lemma ExistingIsNormal(n: Names, d: Document, s: Setup)
    requires Lawful(n) && IsCanonical(n, d) && Publish(n, d, s).Success?
    requires Of(d, n.canonicalID(s.accountID)).Some?
    ensures
      var b := Of(d, n.canonicalID(s.accountID)).value;
      Normalize(n, b) == Success(b)
  {
    hide Normalize, Validate;
    MergedAccount(n, d, s);
  }

  // An alias the account had, or the new one if the account had none like it.
  ghost predicate IsPlannedAlias(n: Names, was: Option<Binding>, alias: string, a: string) {
    || (was.Some? && a in was.value.aliases)
    || (n.address(alias) == Some(a) && (was.Some? ==> forall w :: w in was.value.aliases ==> !n.sameAlias(w, alias)))
  }

  lemma NothingElseIsAdded(n: Names, existing: Option<Binding>, s: Setup, a: string)
    requires Lawful(n) && (existing.Some? ==> Normalize(n, existing.value) == Success(existing.value))
    requires Normalize(n, MergedBinding(n, existing, s)).Success?
    requires a in Normalize(n, MergedBinding(n, existing, s)).value.aliases
    ensures IsPlannedAlias(n, existing, s.alias, a)
  {
    hide Normalize, IsSorted;
    var m := MergedBinding(n, existing, s);
    AcceptedExactly(n, m);
    assert a in multiset(Addresses(n, m.aliases));
    var k :| 0 <= k < |m.aliases| && Addresses(n, m.aliases)[k] == a;
    if existing.Some? {
      NormalAliases(n, existing.value);
      if k < |existing.value.aliases| {
        assert m.aliases[k] in existing.value.aliases;
      }
    }
  }

  lemma PublishedAliases(n: Names, d: Document, s: Setup)
    requires Lawful(n) && IsCanonical(n, d) && Publish(n, d, s).Success?
    ensures
      var id := n.canonicalID(s.accountID);
      var b := Of(Publish(n, d, s).value, id);
      && b.Some? && (Of(d, id).Some? ==> KeepsAliases(Of(d, id).value, b.value))
      && (exists a :: a in b.value.aliases && (n.sameAlias(a, s.alias) || n.address(s.alias) == Some(a)))
      && forall a :: a in b.value.aliases ==> IsPlannedAlias(n, Of(d, id), s.alias, a)
  {
    hide Normalize, Publish, IsCanonical, Lookup;
    var id := n.canonicalID(s.accountID);
    var existing := Of(d, id);
    var m := MergedBinding(n, existing, s);
    PublishedBindings(n, d, s);
    NormalizingTwiceChangesNothing(n, m);
    var b := Normalize(n, m).value;
    if existing.Some? {
      var was := existing.value;
      ExistingIsNormal(n, d, s);
      NormalAliases(n, was);
      forall a | a in was.aliases ensures a in b.aliases {
        var k :| 0 <= k < |was.aliases| && was.aliases[k] == a;
        assert m.aliases[k] == a && n.address(a) == Some(a);
      }
      if Knows(n, was.aliases, s.alias) {
        var a :| a in was.aliases && n.sameAlias(a, s.alias);
        assert a in b.aliases;
      } else {
        assert m.aliases[|was.aliases|] == s.alias;
      }
    } else {
      assert m.aliases[0] == s.alias;
    }
    forall a | a in b.aliases ensures IsPlannedAlias(n, existing, s.alias, a) {
      NothingElseIsAdded(n, existing, s, a);
    }
  }

  lemma NormalAliases(n: Names, b: Binding)
    requires Lawful(n) && Normalize(n, b) == Success(b)
    ensures forall a :: a in b.aliases ==> n.address(a) == Some(a)
  {
    hide NormalizeEndpoint, NormalizeAliases, Sort, AliasesAgree, IsSorted;
    var explicit := HasHosts(b);
    var aliases := NormalizeAliases(n, explicit, b.aliases, Aliases([], UNSET)).value;
    NoAliasesAgree(n, explicit);
    AliasesGrow(n, explicit, b.aliases, Aliases([], UNSET));
    SortedAliasesAgree(n, explicit, aliases.names, aliases.provider);
    AgreeingAddresses(n, explicit, b.aliases, aliases.provider);
  }

  // Whatever document is stored by the time a setup publishes, it is left as it
  // is or the setup's account has one binding in it: with every alias it had
  // and the new one, with the fields that the setup asked for, and in every
  // other field what the setup saw. No other account is touched.
  lemma MergeIsSafe(n: Names, stored: Document, s: Setup)
    requires Lawful(n) && IsCanonical(n, stored) && Publish(n, stored, s).Success?
    ensures
      var id := n.canonicalID(s.accountID);
      var v := Publish(n, stored, s).value;
      && IsCanonical(n, v) && OthersUntouched(stored, v, id)
      && Of(v, id).Some? && (forall b :: b in v.bindings && b.accountID == id ==> b == Of(v, id).value)
      && (Of(stored, id).Some? ==> KeepsAliases(Of(stored, id).value, Of(v, id).value))
      && (exists a :: a in Of(v, id).value.aliases && (n.sameAlias(a, s.alias) || n.address(s.alias) == Some(a)))
      && (forall a :: a in Of(v, id).value.aliases ==> IsPlannedAlias(n, Of(stored, id), s.alias, a))
      && FieldsAsPlanned(n, s, Of(v, id).value)
  {
    hide Normalize, Publish, Lookup, FieldsAsPlanned;
    var id := n.canonicalID(s.accountID);
    var v := Publish(n, stored, s).value;
    PublishedBindings(n, stored, s);
    PublishedFields(n, stored, s);
    PublishedAliases(n, stored, s);
    forall b | b in v.bindings && b.accountID == id ensures b == Of(v, id).value {
      LookupIsMembership(v.bindings, id, b);
    }
  }

  // A setup as it is planned from the document it saw: the credential account
  // that was asked for, or else that of the binding, or else the sender.
  function Plan(
    n: Names, seen: Document, accountID: string, sender: string, credential: Option<string>, hosts: Option<Hosts>
  ): Result<Setup, Code> {
    match Find(n, seen, accountID)
    case Failure(e) => Failure(e)
    case Success(existing) =>
      var snapshot := if existing.Some? then existing.value else NO_BINDING;
      var account :=
        if credential.Some? then credential.value else if existing.Some? then snapshot.credential else sender;
      Success(Setup(accountID, sender, account, hosts, Decision(snapshot, existing.Some?, credential.Some?)))
  }

  // Between the document a setup saw and the one it finds when it publishes,
  // others may have published anything.
  lemma UnsetFieldsAreAsSeen(
    n: Names, seen: Document, stored: Document, accountID: string, sender: string,
    credential: Option<string>, hosts: Option<Hosts>)
    requires Lawful(n) && IsCanonical(n, seen) && IsCanonical(n, stored)
    requires Plan(n, seen, accountID, sender, credential, hosts).Success?
    requires Publish(n, stored, Plan(n, seen, accountID, sender, credential, hosts).value).Success?
    ensures
      var id := n.canonicalID(accountID);
      var atStart := Of(seen, id);
      var now := Of(Publish(n, stored, Plan(n, seen, accountID, sender, credential, hosts).value).value, id);
      && now.Some?
      && (credential.None? ==>
            if atStart.Some? then now.value.credential == atStart.value.credential
            else n.address(sender) == Some(now.value.credential))
      && (hosts.None? ==> HostsOf(now.value) == HostsOf(if atStart.Some? then atStart.value else NO_BINDING))
  {
    hide Normalize, Publish, Lookup, IsCanonical;
    CanonicalFacts(n, seen, accountID);
    PublishedFields(n, stored, Plan(n, seen, accountID, sender, credential, hosts).value);
  }

  // Between what a setup saw of its account and what it finds, something has
  // changed that the setup does not set itself: that there is a binding at all,
  // the credential account, or one of the hosts and ports.
  ghost predicate Outdated(
    was: Option<Binding>, now: Option<Binding>, credential: Option<string>, hosts: Option<Hosts>)
  {
    match (was, now)
    case (None, None) => false
    case (Some(w), Some(b)) =>
      || (credential.None? && b.credential != w.credential)
      || (hosts.None? && (b.smtpHost != w.smtpHost || b.smtpPort != w.smtpPort
                          || b.imapHost != w.imapHost || b.imapPort != w.imapPort))
    case (None, Some(_)) => credential.None? || hosts.None?
    case (Some(_), None) => credential.None? || hosts.None?
  }

  // A setup is refused because of its snapshot exactly when the snapshot is
  // outdated; there is no other reason for a merge to fail.
  lemma RefusedExactlyWhenChanged(
    n: Names, seen: Document, stored: Document, accountID: string, sender: string,
    credential: Option<string>, hosts: Option<Hosts>)
    requires Lawful(n) && IsCanonical(n, seen) && IsCanonical(n, stored) && n.canonicalID(accountID) != ""
    ensures
      var id := n.canonicalID(accountID);
      var plan := Plan(n, seen, accountID, sender, credential, hosts);
      && plan.Success?
      && if Outdated(Of(seen, id), Of(stored, id), credential, hosts) then
           Merge(n, stored, plan.value) == Failure(Changed)
         else
           Merge(n, stored, plan.value).Success?
  {
    hide Normalize, Validate, IsCanonical, Lookup;
    CanonicalFacts(n, seen, accountID);
    CanonicalFacts(n, stored, accountID);
  }

  // As long as the account's binding is what the setup saw, the setup is not
  // refused, and neither is one that sets everything itself.
  lemma UpToDateIsNotRefused(
    n: Names, seen: Document, stored: Document, accountID: string, sender: string,
    credential: Option<string>, hosts: Option<Hosts>)
    requires Lawful(n) && IsCanonical(n, seen) && IsCanonical(n, stored) && n.canonicalID(accountID) != ""
    requires Of(seen, n.canonicalID(accountID)) == Of(stored, n.canonicalID(accountID))
             || (credential.Some? && hosts.Some?)
    ensures Plan(n, seen, accountID, sender, credential, hosts).Success?
    ensures Merge(n, stored, Plan(n, seen, accountID, sender, credential, hosts).value).Success?
  {
    hide Plan, Merge, IsCanonical, Of;
    RefusedExactlyWhenChanged(n, seen, stored, accountID, sender, credential, hosts);
  }

  lemma {:induction false} PutSame(bindings: seq<Binding>, b: Binding)
    requires Lookup(bindings, b.accountID) == Some(b)
    ensures Put(bindings, b) == bindings
  {
    if bindings[0].accountID != b.accountID {
      PutSame(bindings[1..], b);
    }
  }

  // Setting up again what is already set up publishes the same document.
  lemma RepeatingChangesNothing(n: Names, stored: Document, accountID: string, sender: string)
    requires Lawful(n) && IsCanonical(n, stored) && n.canonicalID(accountID) != ""
    requires Of(stored, n.canonicalID(accountID)).Some?
    requires exists a :: a in Of(stored, n.canonicalID(accountID)).value.aliases && n.sameAlias(a, sender)
    ensures Plan(n, stored, accountID, sender, None, None).Success?
    ensures Publish(n, stored, Plan(n, stored, accountID, sender, None, None).value) == Success(stored)
  {
    hide Normalize, Validate, IsCanonical, Lookup;
    var id := n.canonicalID(accountID);
    var b := Of(stored, id).value;
    CanonicalFacts(n, stored, accountID);
    UpToDateIsNotRefused(n, stored, stored, accountID, sender, None, None);
    assert b.accountID == id by {
      BindingOf(n, stored, id);
    }
    PutSame(stored.bindings, b);
    ValidatedIsCanonical(n, stored);
  }

  lemma BindingOf(n: Names, d: Document, id: string)
    requires IsCanonical(n, d) && Of(d, id).Some?
    ensures Of(d, id).value.accountID == id
  {
    LookupIsMembership(d.bindings, id, Of(d, id).value);
  }

  // ----- runs

  function Step(n: Names, d: Document, s: Setup): Document {
    match Publish(n, d, s)
    case Failure(_) => d
    case Success(v) => v
  }

  // Setups one after the other, each with whatever it happened to have seen; a
  // setup that crashes before its rename changes nothing and does not count.
  function Run(n: Names, d: Document, setups: seq<Setup>): Document
    decreases setups
  {
    if setups == [] then d else Run(n, Step(n, d, setups[0]), setups[1..])
  }

  ghost predicate Has(d: Document, id: string, alias: string) {
    Of(d, id).Some? && alias in Of(d, id).value.aliases
  }

  lemma StepKeepsAlias(n: Names, d: Document, s: Setup, id: string, alias: string)
    requires Lawful(n) && IsCanonical(n, d) && Has(d, id, alias)
    ensures IsCanonical(n, Step(n, d, s)) && Has(Step(n, d, s), id, alias)
  {
    hide Normalize, Publish, Lookup, FieldsAsPlanned;
    if Publish(n, d, s).Success? {
      MergeIsSafe(n, d, s);
      var v := Publish(n, d, s).value;
      if id != n.canonicalID(s.accountID) {
        var b := Of(d, id).value;
        LookupIsMembership(d.bindings, id, b);
        LookupIsMembership(v.bindings, id, b);
      }
    }
  }

  // An alias that was once published for an account stays published.
  lemma {:induction false} AliasesAreNeverLost(n: Names, d: Document, setups: seq<Setup>, id: string, alias: string)
    requires Lawful(n) && IsCanonical(n, d) && Has(d, id, alias)
    ensures IsCanonical(n, Run(n, d, setups)) && Has(Run(n, d, setups), id, alias)
    decreases setups
  {
    hide Has, IsCanonical, Step;
    if setups != [] {
      StepKeepsAlias(n, d, setups[0], id, alias);
      AliasesAreNeverLost(n, Step(n, d, setups[0]), setups[1..], id, alias);
    }
  }

  // ----- the setup against the stored file

  function MergeUpdate(n: Names, s: Setup): Update {
    (d: Document) =>
      match Merge(n, d, s)
      case Failure(_) => Failure(BEFORE_RENAME)
      case Success(merged) => Success(merged)
  }

  // Publishing a setup to whatever file is there, or to none. Whatever fails or
  // crashes on the way, the file holds what it held or the merged document, and
  // the outcome says which.
  method UpsertSendBinding(n: Names, fits: Document -> bool, disk: Directory, s: Setup, temporary: nat)
    returns (r: Option<Errors>)
    requires Lawful(n) && disk.Valid()
    modifies disk
    ensures disk.Valid()
    ensures r.Some? && StatusOf(r.value) == NotPublished ==> disk.file == old(disk.file)
    ensures r.None? || StatusOf(r.value) != NotPublished ==>
              && Load(n, old(disk.file)).Success? && IsCanonical(n, Load(n, old(disk.file)).value)
              && disk.file.Readable? && IsCanonical(n, disk.file.document)
              && Publish(n, Load(n, old(disk.file)).value, s) == Success(disk.file.document)
    ensures OldThenNew(old(disk.file), disk.file, old(disk.trace), disk.trace)
    ensures disk.reliable ==>
              (r.None? <==>
                 && Load(n, old(disk.file)).Success? && Publish(n, Load(n, old(disk.file)).value, s).Success?
                 && fits(Publish(n, Load(n, old(disk.file)).value, s).value))
  {
    hide Normalize, Merge, IsCanonical;
    ghost var stored := disk.file;
    r := UpdateAccountBindings(n, fits, disk, MergeUpdate(n, s), temporary);
    if Planned(n, fits, stored, MergeUpdate(n, s)).Some? {
      var d := Load(n, stored).value;
      LoadedIsCanonical(n, stored);
      ValidatedIsCanonical(n, Merge(n, d, s).value);
    }
  }

  // What is loaded is canonical: an absent file is an empty document, and any
  // other is validated.
  lemma LoadedIsCanonical(n: Names, stored: Stored)
    requires Lawful(n) && Load(n, stored).Success?
    ensures IsCanonical(n, Load(n, stored).value)
  {
    hide Normalize, Validate;
    if stored.Readable? {
      ValidatedIsCanonical(n, stored.document);
    }
  }
}
