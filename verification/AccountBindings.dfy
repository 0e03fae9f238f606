// Account bindings: their canonical form, and the validation of a whole
// document.
module AccountBindings {
  import opened Sorting
  import opened Wrappers

  const VERSION := 1
  const MAXIMUM_BINDINGS := 128
  const MAXIMUM_ALIASES := 64

  datatype Binding = Binding(
    accountID: string, aliases: seq<string>, credential: string,
    smtpHost: string, smtpPort: int, imapHost: string, imapPort: int)

  datatype Document = Document(version: int, bindings: seq<Binding>)

  datatype Code = Invalid | HostInvalid | ProviderUnsupported | ProviderMismatch | VersionUnsupported | Changed

  datatype Endpoint = Endpoint(host: string, port: int)

  // What the libraries and the provider table say about names: the upper-cased
  // trimmed form of an account id, the lower-case form of an alias, the plain
  // address in an address, the public host in a host, the IMAP endpoint of a
  // provider.
  datatype Names = Names(
    canonicalID: string -> string, hasControls: string -> bool, lower: string -> string, trim: string -> string,
    sameAlias: (string, string) -> bool, address: string -> Option<string>, host: string -> Option<string>,
    provider: string -> Option<Endpoint>)

  ghost predicate Lawful(n: Names) {
    && (forall s :: n.canonicalID(n.canonicalID(s)) == n.canonicalID(s))
    && (forall s :: n.address(s).Some? ==> n.address(n.address(s).value) == n.address(s))
    && n.trim("") == ""
    && (forall s :: n.host(s).Some? ==>
          n.host(s).value != "" && n.trim(n.host(s).value) == n.host(s).value && n.host(n.host(s).value) == n.host(s))
    && (forall s :: n.provider(s).Some? ==> n.provider(s).value.host != "")
    && (forall s :: n.sameAlias(s, s))
  }

  // ----- one binding

  function NormalizeEndpoint(n: Names, host: string, port: int): Result<Endpoint, Code> {
    var trimmed := n.trim(host);
    if trimmed == "" then if port != 0 then Failure(HostInvalid) else Success(Endpoint("", 0))
    else if port < 1 || port > 65535 || n.host(trimmed).None? then Failure(HostInvalid)
    else Success(Endpoint(n.host(trimmed).value, port))
  }

  predicate HasHosts(b: Binding) {
    b.smtpHost != "" || b.imapHost != ""
  }

  const UNSET := Endpoint("", 0)

  datatype Aliases = Aliases(names: seq<string>, provider: Endpoint)

  // The aliases one by one: each an address, none twice, and without explicit
  // hosts all of one provider.
  function NormalizeAliases(n: Names, explicit: bool, todo: seq<string>, done: Aliases): Result<Aliases, Code>
    decreases todo
  {
    if todo == [] then Success(done)
    else
      match n.address(todo[0])
      case None => Failure(Invalid)
      case Some(alias) =>
        if exists a :: a in done.names && n.lower(a) == n.lower(alias) then Failure(Invalid)
        else if explicit then NormalizeAliases(n, explicit, todo[1..], Aliases(done.names + [alias], done.provider))
        else
          match n.provider(alias)
          case None => Failure(ProviderUnsupported)
          case Some(p) =>
            if done.provider.host == "" then NormalizeAliases(n, explicit, todo[1..], Aliases(done.names + [alias], p))
            else if done.provider != p then Failure(ProviderMismatch)
            else NormalizeAliases(n, explicit, todo[1..], Aliases(done.names + [alias], done.provider))
  }

  function Normalize(n: Names, b: Binding): Result<Binding, Code> {
    var id := n.canonicalID(b.accountID);
    var credential := n.address(b.credential);
    var smtpLeg := NormalizeEndpoint(n, b.smtpHost, b.smtpPort);
    var imapLeg := NormalizeEndpoint(n, b.imapHost, b.imapPort);
    if id == "" || n.hasControls(id) || |b.aliases| == 0 || |b.aliases| > MAXIMUM_ALIASES || credential.None? then
      Failure(Invalid)
    else if smtpLeg.Failure? then Failure(smtpLeg.error)
    else if imapLeg.Failure? then Failure(imapLeg.error)
    else
      var explicit := smtpLeg.value.host != "" || imapLeg.value.host != "";
      var aliases := NormalizeAliases(n, explicit, b.aliases, Aliases([], UNSET));
      var provider := n.provider(credential.value);
      if aliases.Failure? then Failure(aliases.error)
      else if !explicit && provider.None? then Failure(ProviderUnsupported)
      else if !explicit && provider.value != aliases.value.provider then Failure(ProviderMismatch)
      else Success(Binding(id, Sort(n.lower, aliases.value.names), credential.value,
                           smtpLeg.value.host, smtpLeg.value.port, imapLeg.value.host, imapLeg.value.port))
  }

  // The loop over the aliases with its set of seen names.
  method NormalizeAccountBinding(n: Names, binding: Binding) returns (r: Result<Binding, Code>)
    ensures r == Normalize(n, binding)
  {
    var id := n.canonicalID(binding.accountID);
    if id == "" || n.hasControls(id) {
      return Failure(Invalid);
    }
    if |binding.aliases| == 0 || |binding.aliases| > MAXIMUM_ALIASES {
      return Failure(Invalid);
    }
    var credential := n.address(binding.credential);
    if credential.None? {
      return Failure(Invalid);
    }
    var smtpLeg := NormalizeEndpoint(n, binding.smtpHost, binding.smtpPort);
    if smtpLeg.Failure? {
      return Failure(smtpLeg.error);
    }
    var imapLeg := NormalizeEndpoint(n, binding.imapHost, binding.imapPort);
    if imapLeg.Failure? {
      return Failure(imapLeg.error);
    }
    var explicitHosts := smtpLeg.value.host != "" || imapLeg.value.host != "";
    var seen: set<string> := {};
    var aliases := [];
    var provider := UNSET;
    assert binding.aliases[0..] == binding.aliases;
    for i := 0 to |binding.aliases|
      invariant forall key :: key in seen <==> exists a :: a in aliases && n.lower(a) == key
      invariant NormalizeAliases(n, explicitHosts, binding.aliases[i..], Aliases(aliases, provider))
                == NormalizeAliases(n, explicitHosts, binding.aliases, Aliases([], UNSET))
    {
      assert binding.aliases[i..][1..] == binding.aliases[i + 1..];
      var alias := n.address(binding.aliases[i]);
      if alias.None? {
        return Failure(Invalid);
      }
      var key := n.lower(alias.value);
      if key in seen {
        return Failure(Invalid);
      }
      seen := seen + {key};
      if !explicitHosts {
        var host := n.provider(alias.value);
        if host.None? {
          return Failure(ProviderUnsupported);
        }
        if provider.host == "" {
          provider := host.value;
        } else if provider != host.value {
          return Failure(ProviderMismatch);
        }
      }
      aliases := aliases + [alias.value];
    }
    if !explicitHosts {
      var host := n.provider(credential.value);
      if host.None? {
        return Failure(ProviderUnsupported);
      }
      if provider != host.value {
        return Failure(ProviderMismatch);
      }
    }
    return Success(Binding(id, Sort(n.lower, aliases), credential.value, smtpLeg.value.host, smtpLeg.value.port,
                           imapLeg.value.host, imapLeg.value.port));
  }

  // ----- what the canonical form is

  // Addresses in canonical form, no two alike, of one provider unless hosts
  // are given.
  ghost predicate AliasesAgree(n: Names, explicit: bool, names: seq<string>, provider: Endpoint) {
    && DistinctKeys(n.lower, names)
    && (forall a :: a in names ==> n.address(a) == Some(a) && (explicit || n.provider(a) == Some(provider)))
  }

  lemma {:induction false} AliasesGrow(n: Names, explicit: bool, todo: seq<string>, done: Aliases)
    requires Lawful(n) && NormalizeAliases(n, explicit, todo, done).Success?
    requires AliasesAgree(n, explicit, done.names, done.provider)
    requires done.provider.host == "" ==> explicit || done.names == []
    ensures
      var r := NormalizeAliases(n, explicit, todo, done).value;
      && AliasesAgree(n, explicit, r.names, r.provider) && |r.names| == |done.names| + |todo|
      && done.names <= r.names
      && forall k :: 0 <= k < |todo| ==> n.address(todo[k]) == Some(r.names[|done.names| + k])
    decreases todo
  {
    if todo != [] {
      var alias := n.address(todo[0]).value;
      var provider := if explicit || done.provider.host != "" then done.provider else n.provider(alias).value;
      var next := Aliases(done.names + [alias], provider);
      assert n.address(alias) == Some(alias);
      assert forall a :: a in next.names <==> a in done.names || a == alias;
      AliasesGrow(n, explicit, todo[1..], next);
    }
  }

  // Names that agree are accepted as they are.
  lemma {:induction false} AgreeingAliasesPass(
    n: Names, explicit: bool, todo: seq<string>, done: Aliases, provider: Endpoint)
    requires Lawful(n) && AliasesAgree(n, explicit, done.names + todo, provider)
    requires done.provider == if explicit || done.names == [] then UNSET else provider
    ensures NormalizeAliases(n, explicit, todo, done)
            == Success(Aliases(done.names + todo, if explicit || done.names + todo == [] then UNSET else provider))
    decreases todo
  {
    if todo == [] {
      assert done.names + todo == done.names;
    } else {
      var all := done.names + todo;
      var next := done.names + [todo[0]];
      assert all[|done.names|] == todo[0] && todo[0] in all;
      assert next + todo[1..] == all;
      forall a | a in done.names ensures n.lower(a) != n.lower(todo[0]) {
        var i :| 0 <= i < |done.names| && done.names[i] == a;
        assert all[i] == a;
      }
      AgreeingAliasesPass(n, explicit, todo[1..], Aliases(next, if explicit then UNSET else provider), provider);
    }
  }

  lemma EndpointIsStable(n: Names, host: string, port: int)
    requires Lawful(n) && NormalizeEndpoint(n, host, port).Success?
    ensures var e := NormalizeEndpoint(n, host, port).value; NormalizeEndpoint(n, e.host, e.port) == Success(e)
  {
  }

  lemma SortedAliasesAgree(n: Names, explicit: bool, names: seq<string>, provider: Endpoint)
    requires AliasesAgree(n, explicit, names, provider)
    ensures
      var sorted := Sort(n.lower, names);
      && AliasesAgree(n, explicit, sorted, provider) && |sorted| == |names| && Sort(n.lower, sorted) == sorted
      && forall a :: a in sorted <==> a in names
  {
    SortKeepsElements(n.lower, names);
    SortKeepsDistinct(n.lower, names);
    SortSorts(n.lower, names);
    SortedStays(n.lower, Sort(n.lower, names));
  }

  lemma NoAliasesAgree(n: Names, explicit: bool)
    ensures AliasesAgree(n, explicit, [], UNSET)
  {
  }

  lemma AgreeingAddresses(n: Names, explicit: bool, names: seq<string>, provider: Endpoint)
    requires AliasesAgree(n, explicit, names, provider)
    ensures forall a :: a in names ==> n.address(a) == Some(a)
  {
  }

  // The canonical form is canonical, and has every alias of the binding.
  lemma NormalizingTwiceChangesNothing(n: Names, b: Binding)
    requires Lawful(n) && Normalize(n, b).Success?
    ensures
      var c := Normalize(n, b).value;
      && Normalize(n, c) == Success(c) && c.accountID == n.canonicalID(b.accountID)
      && |c.aliases| == |b.aliases|
      && forall k :: 0 <= k < |b.aliases| ==>
           n.address(b.aliases[k]).Some? && n.address(b.aliases[k]).value in c.aliases
  {
    hide NormalizeEndpoint, NormalizeAliases, Sort, IsSorted, DistinctKeys, AliasesAgree;
    NoAliasesAgree(n, HasHosts(Normalize(n, b).value));
    var c := Normalize(n, b).value;
    EndpointIsStable(n, b.smtpHost, b.smtpPort);
    EndpointIsStable(n, b.imapHost, b.imapPort);
    var explicit := HasHosts(c);
    var aliases := NormalizeAliases(n, explicit, b.aliases, Aliases([], UNSET)).value;
    AliasesGrow(n, explicit, b.aliases, Aliases([], UNSET));
    SortedAliasesAgree(n, explicit, aliases.names, aliases.provider);
    var sorted := c.aliases;
    assert [] + sorted == sorted;
    AgreeingAliasesPass(n, explicit, sorted, Aliases([], UNSET), aliases.provider);
    forall k | 0 <= k < |b.aliases|
      ensures n.address(b.aliases[k]).Some? && n.address(b.aliases[k]).value in c.aliases
    {
      assert aliases.names[k] in aliases.names;
    }
  }

  // ----- a whole document

  function AccountIDOf(b: Binding): string {
    b.accountID
  }

  function NormalizeAll(n: Names, todo: seq<Binding>, done: seq<Binding>): Result<seq<Binding>, Code>
    decreases todo
  {
    if todo == [] then Success(done)
    else
      match Normalize(n, todo[0])
      case Failure(e) => Failure(e)
      case Success(b) =>
        if exists d :: d in done && d.accountID == b.accountID then Failure(Invalid)
        else NormalizeAll(n, todo[1..], done + [b])
  }

  function Validate(n: Names, d: Document): Result<Document, Code> {
    if d.version != VERSION then Failure(VersionUnsupported)
    else if |d.bindings| > MAXIMUM_BINDINGS then Failure(Invalid)
    else
      match NormalizeAll(n, d.bindings, [])
      case Failure(e) => Failure(e)
      case Success(bindings) => Success(Document(d.version, Sort(AccountIDOf, bindings)))
  }

  method ValidateAccountBindingFile(n: Names, document: Document) returns (r: Result<Document, Code>)
    ensures r == Validate(n, document)
  {
    if document.version != VERSION {
      return Failure(VersionUnsupported);
    }
    if |document.bindings| > MAXIMUM_BINDINGS {
      return Failure(Invalid);
    }
    var seen: set<string> := {};
    var bindings: seq<Binding> := [];
    assert document.bindings[0..] == document.bindings;
    for i := 0 to |document.bindings|
      invariant forall id :: id in seen <==> exists b :: b in bindings && b.accountID == id
      invariant NormalizeAll(n, document.bindings[i..], bindings) == NormalizeAll(n, document.bindings, [])
    {
      assert document.bindings[i..][1..] == document.bindings[i + 1..];
      var normalized := NormalizeAccountBinding(n, document.bindings[i]);
      if normalized.Failure? {
        return Failure(normalized.error);
      }
      var id := normalized.value.accountID;
      if id in seen {
        return Failure(Invalid);
      }
      seen := seen + {id};
      bindings := bindings + [normalized.value];
    }
    return Success(Document(document.version, Sort(AccountIDOf, bindings)));
  }

  ghost predicate AllNormal(n: Names, bindings: seq<Binding>) {
    DistinctKeys(AccountIDOf, bindings) && forall b :: b in bindings ==> Normalize(n, b) == Success(b)
  }

  ghost predicate IsCanonical(n: Names, d: Document) {
    && d.version == VERSION && |d.bindings| <= MAXIMUM_BINDINGS
    && AllNormal(n, d.bindings) && IsSorted(AccountIDOf, d.bindings)
  }

  lemma {:induction false} AllBecomeNormal(n: Names, todo: seq<Binding>, done: seq<Binding>)
    requires Lawful(n) && AllNormal(n, done) && NormalizeAll(n, todo, done).Success?
    ensures
      var r := NormalizeAll(n, todo, done).value;
      && AllNormal(n, r) && |r| == |done| + |todo| && done <= r
      && forall k :: 0 <= k < |todo| ==> Normalize(n, todo[k]) == Success(r[|done| + k])
    decreases todo
  {
    hide Normalize, Lawful;
    if todo != [] {
      var b := Normalize(n, todo[0]).value;
      var next := done + [b];
      NormalizingTwiceChangesNothing(n, todo[0]);
      assert forall x :: x in next <==> x in done || x == b;
      assert forall i :: 0 <= i < |done| ==> done[i] in done && next[i] == done[i];
      AllBecomeNormal(n, todo[1..], next);
    }
  }

  lemma {:induction false} NormalBindingsPass(n: Names, todo: seq<Binding>, done: seq<Binding>)
    requires AllNormal(n, done + todo)
    ensures NormalizeAll(n, todo, done) == Success(done + todo)
    decreases todo
  {
    hide Normalize;
    if todo == [] {
      assert done + todo == done;
    } else {
      var all := done + todo;
      assert all[|done|] == todo[0] && todo[0] in all;
      assert (done + [todo[0]]) + todo[1..] == all;
      forall d | d in done ensures d.accountID != todo[0].accountID {
        var i :| 0 <= i < |done| && done[i] == d;
        assert AccountIDOf(all[i]) != AccountIDOf(all[|done|]);
      }
      NormalBindingsPass(n, todo[1..], done + [todo[0]]);
    }
  }

  // Validation puts a document in its canonical form and accepts a canonical
  // document as it is.
  lemma ValidatedIsCanonical(n: Names, d: Document)
    requires Lawful(n)
    ensures Validate(n, d).Success? ==> IsCanonical(n, Validate(n, d).value)
    ensures Validate(n, d) == Success(d) <==> IsCanonical(n, d)
  {
    hide Normalize, Lawful;
    if Validate(n, d).Success? {
      var bindings := NormalizeAll(n, d.bindings, []).value;
      AllBecomeNormal(n, d.bindings, []);
      SortKeepsElements(AccountIDOf, bindings);
      SortKeepsDistinct(AccountIDOf, bindings);
      SortSorts(AccountIDOf, bindings);
    }
    if IsCanonical(n, d) {
      assert [] + d.bindings == d.bindings;
      NormalBindingsPass(n, d.bindings, []);
      SortedStays(AccountIDOf, d.bindings);
    }
  }

  // What validation does to the bindings: it normalizes each, keeping all.
  lemma ValidatedBindings(n: Names, d: Document)
    requires Lawful(n) && Validate(n, d).Success?
    ensures |Validate(n, d).value.bindings| == |d.bindings|
    ensures forall k :: 0 <= k < |d.bindings| ==>
              Normalize(n, d.bindings[k]).Success? && Normalize(n, d.bindings[k]).value in Validate(n, d).value.bindings
    ensures forall c :: c in Validate(n, d).value.bindings ==>
              exists k :: 0 <= k < |d.bindings| && Normalize(n, d.bindings[k]) == Success(c)
  {
    hide Normalize, Lawful;
    var bindings := NormalizeAll(n, d.bindings, []).value;
    AllBecomeNormal(n, d.bindings, []);
    SortKeepsElements(AccountIDOf, bindings);
    forall k | 0 <= k < |d.bindings|
      ensures Normalize(n, d.bindings[k]).Success? && Normalize(n, d.bindings[k]).value in Validate(n, d).value.bindings
    {
      assert bindings[k] in bindings;
    }
    forall c | c in Validate(n, d).value.bindings
      ensures exists k :: 0 <= k < |d.bindings| && Normalize(n, d.bindings[k]) == Success(c)
    {
      var k :| 0 <= k < |bindings| && bindings[k] == c;
      assert Normalize(n, d.bindings[k]) == Success(c);
    }
  }

  // ----- looking up an account

  function Lookup(bindings: seq<Binding>, id: string): Option<Binding> {
    if bindings == [] then None
    else if bindings[0].accountID == id then Some(bindings[0])
    else Lookup(bindings[1..], id)
  }

  function Find(n: Names, d: Document, accountID: string): Result<Option<Binding>, Code> {
    match Validate(n, d)
    case Failure(e) => Failure(e)
    case Success(valid) =>
      if n.canonicalID(accountID) == "" then Failure(Invalid)
      else Success(Lookup(valid.bindings, n.canonicalID(accountID)))
  }

  method FindAccountBinding(n: Names, document: Document, accountID: string) returns (r: Result<Option<Binding>, Code>)
    ensures r == Find(n, document, accountID)
  {
    var valid := ValidateAccountBindingFile(n, document);
    if valid.Failure? {
      return Failure(valid.error);
    }
    var id := n.canonicalID(accountID);
    if id == "" {
      return Failure(Invalid);
    }
    var bindings := valid.value.bindings;
    assert bindings[0..] == bindings;
    for i := 0 to |bindings|
      invariant Lookup(bindings[i..], id) == Lookup(bindings, id)
    {
      assert bindings[i..][1..] == bindings[i + 1..];
      if bindings[i].accountID == id {
        return Success(Some(bindings[i]));
      }
    }
    return Success(None);
  }

  // Of distinct bindings, the one of an account is found whatever the order.
  lemma {:induction false} LookupIsMembership(bindings: seq<Binding>, id: string, b: Binding)
    requires DistinctKeys(AccountIDOf, bindings)
    ensures Lookup(bindings, id) == Some(b) <==> b in bindings && b.accountID == id
  {
    if bindings != [] {
      FirstKeyIsAlone(AccountIDOf, bindings);
      LookupIsMembership(bindings[1..], id, b);
      assert b in bindings <==> b == bindings[0] || b in bindings[1..];
      if bindings[0].accountID == id && b in bindings[1..] {
        assert AccountIDOf(b) != AccountIDOf(bindings[0]);
      }
    }
  }
}
