// Which bindings and documents are accepted, and as what.
module BindingLaws {
  import opened AccountBindings
  import opened Sorting
  import opened Wrappers

  // ----- endpoints

  // No host and no port, or a public host and a port number.
  predicate EndpointIsValid(n: Names, host: string, port: int) {
    if n.trim(host) == "" then port == 0 else 1 <= port <= 65535 && n.host(n.trim(host)).Some?
  }

  predicate IsExplicit(n: Names, b: Binding) {
    n.trim(b.smtpHost) != "" || n.trim(b.imapHost) != ""
  }

  lemma EndpointsAccepted(n: Names, host: string, port: int)
    requires Lawful(n)
    ensures NormalizeEndpoint(n, host, port).Success? <==> EndpointIsValid(n, host, port)
    ensures NormalizeEndpoint(n, host, port).Success? ==>
              (NormalizeEndpoint(n, host, port).value.host == "" <==> n.trim(host) == "")
  {
  }

  // ----- aliases

  predicate AreAddresses(n: Names, names: seq<string>) {
    forall k :: 0 <= k < |names| ==> n.address(names[k]).Some?
  }

  function Addresses(n: Names, names: seq<string>): seq<string>
    requires AreAddresses(n, names)
  {
    seq(|names|, k requires 0 <= k < |names| => n.address(names[k]).value)
  }

  predicate OfProvider(n: Names, addresses: seq<string>, p: Endpoint) {
    forall k :: 0 <= k < |addresses| ==> n.provider(addresses[k]) == Some(p)
  }

  // The aliases are addresses, no two alike, and unless hosts are given all of
  // the provider `p`.
  ghost predicate AliasesAreValid(n: Names, explicit: bool, names: seq<string>, p: Endpoint) {
    && AreAddresses(n, names) && DistinctKeys(n.lower, Addresses(n, names))
    && (!explicit ==> OfProvider(n, Addresses(n, names), p))
  }

  // The same of the aliases still to do, after some are done.
  ghost predicate RestIsValid(n: Names, explicit: bool, todo: seq<string>, done: Aliases, p: Endpoint) {
    && AliasesAreValid(n, explicit, todo, p)
    && NoneAlike(n, done.names, Addresses(n, todo))
    && (!explicit && done.provider.host != "" ==> done.provider == p)
  }

  lemma AddressesOfRest(n: Names, todo: seq<string>)
    requires todo != [] && n.address(todo[0]).Some?
    ensures AreAddresses(n, todo) <==> AreAddresses(n, todo[1..])
    ensures AreAddresses(n, todo) ==> Addresses(n, todo) == [n.address(todo[0]).value] + Addresses(n, todo[1..])
  {
    assert forall k :: 0 < k < |todo| ==> todo[k] == todo[1..][k - 1];
    assert forall k :: 0 <= k < |todo[1..]| ==> todo[1..][k] == todo[k + 1];
  }

  // The first of the addresses against those behind it.
  ghost predicate FirstIsAlone(n: Names, alias: string, later: seq<string>) {
    forall k :: 0 <= k < |later| ==> n.lower(alias) != n.lower(later[k])
  }

  lemma DistinctFromFirst(n: Names, alias: string, later: seq<string>)
    ensures DistinctKeys(n.lower, [alias] + later) <==> DistinctKeys(n.lower, later) && FirstIsAlone(n, alias, later)
    ensures forall p :: OfProvider(n, [alias] + later, p) <==> OfProvider(n, later, p) && n.provider(alias) == Some(p)
  {
    var all := [alias] + later;
    assert all[1..] == later && all[0] == alias;
    if DistinctKeys(n.lower, all) {
      FirstKeyIsAlone(n.lower, all);
      forall k | 0 <= k < |later| ensures n.lower(alias) != n.lower(later[k]) {
        assert later[k] in all[1..];
      }
    }
    forall p ensures OfProvider(n, all, p) <==> OfProvider(n, later, p) && n.provider(alias) == Some(p) {
      FirstOfProvider(n, alias, later, p);
    }
  }

  lemma FirstOfProvider(n: Names, alias: string, later: seq<string>, p: Endpoint)
    ensures OfProvider(n, [alias] + later, p) <==> OfProvider(n, later, p) && n.provider(alias) == Some(p)
  {
    var all := [alias] + later;
    assert all[0] == alias && forall k :: 0 <= k < |later| ==> later[k] == all[k + 1];
  }

  ghost predicate NoneAlike(n: Names, names: seq<string>, addresses: seq<string>) {
    forall a, k :: a in names && 0 <= k < |addresses| ==> n.lower(a) != n.lower(addresses[k])
  }

  lemma NoneAlikeFirst(n: Names, names: seq<string>, alias: string, later: seq<string>)
    ensures NoneAlike(n, names, [alias] + later) && FirstIsAlone(n, alias, later) <==>
              NoneAlike(n, names + [alias], later) && forall a :: a in names ==> n.lower(a) != n.lower(alias)
  {
    var all, more := [alias] + later, names + [alias];
    assert forall k :: 0 <= k < |later| ==> all[k + 1] == later[k];
    assert all[0] == alias;
    assert forall a :: a in more <==> a in names || a == alias;
    if NoneAlike(n, names, all) && FirstIsAlone(n, alias, later) {
      forall a, k | a in more && 0 <= k < |later| ensures n.lower(a) != n.lower(later[k]) {
        assert a in names ==> n.lower(a) != n.lower(all[k + 1]);
      }
    }
    if NoneAlike(n, more, later) && forall a :: a in names ==> n.lower(a) != n.lower(alias) {
      assert alias in more;
    }
  }

  lemma RestOfRest(n: Names, explicit: bool, todo: seq<string>, done: Aliases, p: Endpoint)
    requires todo != [] && n.address(todo[0]).Some? && p.host != ""
    ensures
      var alias := n.address(todo[0]).value;
      var next := Aliases(done.names + [alias], if explicit then done.provider else p);
      RestIsValid(n, explicit, todo, done, p) <==>
        && RestIsValid(n, explicit, todo[1..], next, p)
        && (forall a :: a in done.names ==> n.lower(a) != n.lower(alias))
        && (!explicit ==> n.provider(alias) == Some(p) && (done.provider.host != "" ==> done.provider == p))
  {
    hide DistinctKeys, NoneAlike, FirstIsAlone, AreAddresses, OfProvider;
    AddressesOfRest(n, todo);
    if AreAddresses(n, todo) {
      DistinctFromFirst(n, n.address(todo[0]).value, Addresses(n, todo[1..]));
      NoneAlikeFirst(n, done.names, n.address(todo[0]).value, Addresses(n, todo[1..]));
    }
  }

  lemma {:induction false} AliasesAccepted(n: Names, explicit: bool, todo: seq<string>, done: Aliases, p: Endpoint)
    requires Lawful(n) && p.host != ""
    requires !explicit && done.provider.host == "" && todo != [] && n.address(todo[0]).Some? ==>
               n.provider(n.address(todo[0]).value) in {None, Some(p)}
    requires !explicit && done.provider.host != "" ==> done.provider == p
    ensures NormalizeAliases(n, explicit, todo, done).Success? <==> RestIsValid(n, explicit, todo, done, p)
    ensures NormalizeAliases(n, explicit, todo, done).Success? ==>
              NormalizeAliases(n, explicit, todo, done).value
              == Aliases(done.names + Addresses(n, todo), if explicit || todo == [] then done.provider else p)
    decreases todo
  {
    if todo == [] {
      assert done.names + Addresses(n, todo) == done.names;
    } else if n.address(todo[0]).Some? {
      var alias := n.address(todo[0]).value;
      var next := Aliases(done.names + [alias], if explicit then done.provider else p);
      RestOfRest(n, explicit, todo, done, p);
      AliasesAccepted(n, explicit, todo[1..], next, p);
      if NormalizeAliases(n, explicit, todo, done).Success? {
        assert next.names + Addresses(n, todo[1..]) == done.names + Addresses(n, todo);
      }
    }
  }

  // ----- bindings

  // An account, at least one and at most 64 aliases, all of them and the
  // credential account addresses, no two aliases alike; and a pair of valid
  // endpoints, or else aliases and credential account of one provider.
  ghost predicate IsAcceptable(n: Names, b: Binding) {
    && n.canonicalID(b.accountID) != "" && !n.hasControls(n.canonicalID(b.accountID))
    && 1 <= |b.aliases| <= MAXIMUM_ALIASES && n.address(b.credential).Some?
    && EndpointIsValid(n, b.smtpHost, b.smtpPort) && EndpointIsValid(n, b.imapHost, b.imapPort)
    && AreAddresses(n, b.aliases) && DistinctKeys(n.lower, Addresses(n, b.aliases))
    && (!IsExplicit(n, b) ==>
          && n.provider(n.address(b.credential).value).Some?
          && OfProvider(n, Addresses(n, b.aliases), n.provider(n.address(b.credential).value).value))
  }

  // The provider that the first alias has, if that is what decides.
  function FirstProvider(n: Names, names: seq<string>): (p: Endpoint)
    requires Lawful(n)
    ensures p.host != ""
    ensures names != [] && n.address(names[0]).Some? ==> n.provider(n.address(names[0]).value) in {None, Some(p)}
  {
    if names != [] && n.address(names[0]).Some? && n.provider(n.address(names[0]).value).Some? then
      n.provider(n.address(names[0]).value).value
    else
      Endpoint("none", 0)
  }

  lemma AllAliases(n: Names, explicit: bool, names: seq<string>)
    requires Lawful(n) && names != []
    ensures
      var r, p := NormalizeAliases(n, explicit, names, Aliases([], UNSET)), FirstProvider(n, names);
      && (r.Success? <==> AliasesAreValid(n, explicit, names, p))
      && (r.Success? ==> r.value == Aliases(Addresses(n, names), if explicit then UNSET else p))
  {
    hide AreAddresses, DistinctKeys, OfProvider, NormalizeAliases;
    AliasesAccepted(n, explicit, names, Aliases([], UNSET), FirstProvider(n, names));
    if AreAddresses(n, names) {
      assert [] + Addresses(n, names) == Addresses(n, names);
    }
  }

  lemma OneProvider(n: Names, names: seq<string>, p: Endpoint)
    requires Lawful(n) && names != [] && AreAddresses(n, names) && OfProvider(n, Addresses(n, names), p)
    ensures FirstProvider(n, names) == p
  {
    assert Addresses(n, names)[0] == n.address(names[0]).value;
  }

  // The canonical form of an accepted binding: the same account, credential
  // account and aliases in their canonical form, the aliases sorted.
  ghost predicate IsFormOf(n: Names, b: Binding, c: Binding)
    requires IsAcceptable(n, b)
  {
    && c.accountID == n.canonicalID(b.accountID) && Some(c.credential) == n.address(b.credential)
    && multiset(c.aliases) == multiset(Addresses(n, b.aliases)) && IsSorted(n.lower, c.aliases)
    && NormalizeEndpoint(n, b.smtpHost, b.smtpPort) == Success(Endpoint(c.smtpHost, c.smtpPort))
    && NormalizeEndpoint(n, b.imapHost, b.imapPort) == Success(Endpoint(c.imapHost, c.imapPort))
  }

  lemma AcceptedExactly(n: Names, b: Binding)
    requires Lawful(n)
    ensures Normalize(n, b).Success? <==> IsAcceptable(n, b)
    ensures Normalize(n, b).Success? ==> IsFormOf(n, b, Normalize(n, b).value)
  {
    hide AreAddresses, DistinctKeys, OfProvider, NormalizeAliases, NormalizeEndpoint, EndpointIsValid, Sort;
    hide FirstProvider;
    EndpointsAccepted(n, b.smtpHost, b.smtpPort);
    EndpointsAccepted(n, b.imapHost, b.imapPort);
    if b.aliases != [] {
      AllAliases(n, IsExplicit(n, b), b.aliases);
      if AreAddresses(n, b.aliases) {
        SortSorts(n.lower, Addresses(n, b.aliases));
        if p :| n.address(b.credential).Some? && n.provider(n.address(b.credential).value) == Some(p)
                && OfProvider(n, Addresses(n, b.aliases), p) {
          OneProvider(n, b.aliases, p);
        }
      }
    }
  }

  // ----- documents

  // The supported version, few enough bindings, each acceptable, and of
  // different accounts.
  ghost predicate IsAcceptableDocument(n: Names, d: Document) {
    && d.version == VERSION && |d.bindings| <= MAXIMUM_BINDINGS
    && (forall k :: 0 <= k < |d.bindings| ==> IsAcceptable(n, d.bindings[k]))
    && AccountsDiffer(n, d.bindings)
  }

  ghost predicate AccountsDiffer(n: Names, bindings: seq<Binding>) {
    forall j, k :: 0 <= j < k < |bindings| ==>
      n.canonicalID(bindings[j].accountID) != n.canonicalID(bindings[k].accountID)
  }

  // None of the bindings is of an account that is done.
  ghost predicate NoneDone(n: Names, todo: seq<Binding>, done: seq<Binding>) {
    forall d, k :: d in done && 0 <= k < |todo| ==> d.accountID != n.canonicalID(todo[k].accountID)
  }

  lemma {:induction false} AllAccepted(n: Names, todo: seq<Binding>, done: seq<Binding>)
    requires Lawful(n)
    ensures NormalizeAll(n, todo, done).Success? <==>
              && (forall k :: 0 <= k < |todo| ==> IsAcceptable(n, todo[k]))
              && AccountsDiffer(n, todo) && NoneDone(n, todo, done)
    decreases todo
  {
    hide IsAcceptable, Normalize, Lawful;
    if todo != [] {
      var rest := todo[1..];
      AcceptedExactly(n, todo[0]);
      assert forall k :: 0 <= k < |rest| ==> rest[k] == todo[k + 1];
      assert (forall k :: 0 <= k < |todo| ==> IsAcceptable(n, todo[k])) <==>
               IsAcceptable(n, todo[0]) && forall k :: 0 <= k < |rest| ==> IsAcceptable(n, rest[k]);
      if Normalize(n, todo[0]).Success? {
        var b := Normalize(n, todo[0]).value;
        AllAccepted(n, rest, done + [b]);
        OneMoreDone(n, todo, done, b);
      }
    }
  }

  lemma OneMoreDone(n: Names, todo: seq<Binding>, done: seq<Binding>, b: Binding)
    requires todo != [] && b.accountID == n.canonicalID(todo[0].accountID)
    ensures AccountsDiffer(n, todo) && NoneDone(n, todo, done) <==>
              && AccountsDiffer(n, todo[1..]) && NoneDone(n, todo[1..], done + [b])
              && forall d :: d in done ==> d.accountID != b.accountID
  {
    var rest := todo[1..];
    assert forall k :: 0 <= k < |rest| ==> rest[k] == todo[k + 1];
    assert forall k :: 0 < k < |todo| ==> todo[k] == rest[k - 1];
    assert forall d :: d in done + [b] <==> d in done || d == b;
  }

  lemma AcceptedDocuments(n: Names, d: Document)
    requires Lawful(n)
    ensures Validate(n, d).Success? <==> IsAcceptableDocument(n, d)
  {
    hide IsAcceptable, NormalizeAll, Lawful;
    AllAccepted(n, d.bindings, []);
  }
}
