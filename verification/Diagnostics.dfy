// What a sanitization reports: the specification of its diagnostics and the
// collector that keeps each of them once.
module Diagnostics {
  import opened Html
  import opened Sequences
  import opened SanitizeSpec
  import opened Wrappers

  datatype Code = RemovedElement | RemovedAttribute | UnsafeURL | UnsafeAttribute | UnsafeStyle | RemoteResource

  datatype Diagnostic = Diagnostic(code: Code, element: string, attribute: string)

  type Report = seq<Diagnostic>

  function Add(values: Report, d: Diagnostic): Report {
    if d in values then values else values + [d]
  }

  function AddAll(values: Report, more: Report): Report
    decreases more
  {
    if more == [] then values else AddAll(Add(values, more[0]), more[1..])
  }

  lemma {:induction false} AddAllConcat(values: Report, a: Report, b: Report)
    ensures AddAll(values, a + b) == AddAll(AddAll(values, a), b)
    decreases a
  {
    if a == [] {
      assert a + b == b;
    } else {
      AddAllConcat(Add(values, a[0]), a[1..], b);
      assert (a + b)[1..] == a[1..] + b;
    }
  }

  // The collector keeps exactly the reported diagnostics, each once.
  lemma {:induction false} CollectsEachOnce(values: Report, more: Report)
    requires Distinct(values)
    ensures Distinct(AddAll(values, more))
    ensures forall d :: d in AddAll(values, more) <==> d in values || d in more
    ensures values <= AddAll(values, more)
    decreases more
  {
    if more != [] {
      CollectsEachOnce(Add(values, more[0]), more[1..]);
      assert forall d :: d in more <==> d == more[0] || d in more[1..];
    }
  }

  // Where a diagnostic is reported first.
  function FirstAt(reports: Report, d: Diagnostic): (k: nat)
    requires d in reports
    ensures k < |reports| && reports[k] == d && d !in reports[..k]
  {
    if reports[0] == d then 0 else 1 + FirstAt(reports[1..], d)
  }

  lemma {:induction false} FirstStays(reports: Report, more: Report, d: Diagnostic)
    requires d in reports
    ensures d in reports + more && FirstAt(reports + more, d) == FirstAt(reports, d)
  {
    assert (reports + more)[0] == reports[0] && (reports + more)[1..] == reports[1..] + more;
    if reports[0] != d {
      FirstStays(reports[1..], more, d);
    }
  }

  // They are kept in the order in which they were first reported.
  lemma {:induction false} KeptInOrderOfFirstReport(reports: Report)
    ensures
      var kept := AddAll([], reports);
      && Distinct(kept) && (forall d :: d in kept <==> d in reports)
      && forall i, j :: 0 <= i < j < |kept| ==> FirstAt(reports, kept[i]) < FirstAt(reports, kept[j])
    decreases |reports|
  {
    CollectsEachOnce([], reports);
    if reports != [] {
      var before, last := reports[..|reports| - 1], reports[|reports| - 1];
      var kept := AddAll([], before);
      KeptInOrderOfFirstReport(before);
      AddAllConcat([], before, [last]);
      assert before + [last] == reports && AddAll(kept, [last]) == Add(kept, last);
      forall d | d in kept ensures d in before && FirstAt(reports, d) == FirstAt(before, d) {
        FirstStays(before, [last], d);
      }
      if last !in kept {
        assert FirstAt(reports, last) == |reports| - 1;
      }
    }
  }

  class Collector {
    var values: Report
    var seen: set<Diagnostic>

    ghost predicate Valid()
      reads this
    {
      forall d :: d in seen <==> d in values
    }

    constructor ()
      ensures Valid() && values == []
    {
      values, seen := [], {};
    }

    method Record(code: Code, element: string, attribute: string)
      requires Valid()
      modifies this
      ensures Valid() && values == Add(old(values), Diagnostic(code, element, attribute))
    {
      var d := Diagnostic(code, element, attribute);
      if d in seen {
        return;
      }
      seen := seen + {d};
      values := values + [d];
    }
  }

  // ----- reports on attributes

  predicate IsResource(key: string) {
    key in {"action", "background", "cite", "data", "formaction", "href", "poster", "src", "srcset"}
  }

  predicate IsRemote(p: Policy, value: string) {
    var parsed := p.scheme(p.trim(value));
    parsed.Some? && parsed.value != "" && p.lower(parsed.value) in {"http", "https"}
  }

  predicate IsForeign(p: Policy, value: string) {
    var parsed := p.scheme(p.trim(value));
    parsed.Some? && parsed.value != "" && !AllowsScheme(p, parsed.value)
  }

  function RemovedReport(p: Policy, element: string, key: string, value: string): Report {
    if key == "" then []
    else if "on" <= key then [Diagnostic(UnsafeAttribute, element, key)]
    else if key == "style" then [Diagnostic(UnsafeStyle, element, key)]
    else if IsResource(key) && IsRemote(p, value) then [Diagnostic(RemoteResource, element, key)]
    else [Diagnostic(RemovedAttribute, element, key)]
  }

  function RemovedReports(p: Policy, element: string, attrs: seq<Attribute>): Report {
    if attrs == [] then []
    else RemovedReport(p, element, Key(p, attrs[0]), attrs[0].val) + RemovedReports(p, element, attrs[1..])
  }

  function DroppedReport(p: Policy, element: string, key: string, value: string): Report {
    if !IsResource(key) then []
    else if IsRemote(p, value) then [Diagnostic(RemoteResource, element, key)]
    else if key in {"src", "srcset", "poster"} && IsForeign(p, value) then [Diagnostic(UnsafeURL, element, key)]
    else []
  }

  function DroppedReports(p: Policy, element: string, attrs: seq<Attribute>): Report {
    if attrs == [] then []
    else DroppedReport(p, element, Key(p, attrs[0]), attrs[0].val) + DroppedReports(p, element, attrs[1..])
  }

  function LinkReport(p: Policy, a: Attribute, href: bool, title: bool): Report {
    var key := Key(p, a);
    if key == "href" then
      if href then [Diagnostic(RemovedAttribute, "a", key)]
      else if SafeLink(p, a.val) then []
      else [Diagnostic(UnsafeURL, "a", key)]
    else if key == "title" then
      if title then [Diagnostic(RemovedAttribute, "a", key)] else []
    else RemovedReport(p, "a", key, a.val)
  }

  function LinkReports(p: Policy, attrs: seq<Attribute>, href: bool, title: bool): Report {
    if attrs == [] then []
    else
      LinkReport(p, attrs[0], href, title)
      + LinkReports(p, attrs[1..], HrefSeen(p, attrs[0], href), TitleSeen(p, attrs[0], title))
  }

  function AttributeReports(p: Policy, name: string, attrs: seq<Attribute>): Report {
    if name != "a" then RemovedReports(p, name, attrs) else LinkReports(p, attrs, false, false)
  }

  // ----- reports on trees, in the order in which they are made

  ghost function Reports(p: Policy, t: Tree): Report
    decreases t, 1
  {
    if t.kind != Element then [] else
    var name := p.lower(t.data);
    if DropsSubtree(name) then
      [Diagnostic(RemovedElement, name, "")] + DroppedReports(p, name, t.attr)
    else if AllowsElement(name) then
      ReportsF(p, t.kids) + AttributeReports(p, name, t.attr)
    else
      ReportsF(p, t.kids) + RemovedReports(p, name, t.attr)
      + (if CleanF(p, t.kids) == [] then [Diagnostic(RemovedElement, name, "")] else [])
  }

  ghost function ReportsF(p: Policy, ts: Forest): Report
    decreases ts, 0
  {
    if ts == [] then [] else Reports(p, ts[0]) + ReportsF(p, ts[1..])
  }
}
