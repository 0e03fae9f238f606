// Which diagnostics a sanitization makes, by what is in the document: for
// every code, what has it reported, and that nothing else does.
module DiagnosticsLaws {
  import opened Diagnostics
  import opened Html
  import opened SanitizeSpec

  // The elements whose attributes the sanitizer looks at: all but those inside
  // dropped elements and comments.
  ghost function Visited(p: Policy, t: Tree): Forest
    decreases t, 1
  {
    if t.kind != Element then []
    else [t] + if DropsSubtree(p.lower(t.data)) then [] else VisitedAll(p, t.kids)
  }

  ghost function VisitedAll(p: Policy, ts: Forest): Forest
    decreases ts, 0
  {
    if ts == [] then [] else Visited(p, ts[0]) + VisitedAll(p, ts[1..])
  }

  predicate HasKey(p: Policy, attrs: seq<Attribute>, i: int, key: string) {
    0 <= i < |attrs| && Key(p, attrs[i]) == key
  }

  // An attribute in front of `i` was kept as the link's href.
  ghost predicate HrefBefore(p: Policy, attrs: seq<Attribute>, i: int) {
    exists j :: j < i && HasKey(p, attrs, j, "href") && SafeLink(p, attrs[j].val)
  }

  ghost predicate TitleBefore(p: Policy, attrs: seq<Attribute>, i: int) {
    exists j :: j < i && HasKey(p, attrs, j, "title")
  }

  // Attribute `i` of a link is its href or its title, kept or not.
  predicate IsLinkKey(name: string, key: string) {
    name == "a" && key in {"href", "title"}
  }

  predicate IsHandler(key: string) {
    "on" <= key
  }

  // What the attribute `i` of an element whose content stays has reported.
  ghost predicate AttributeReported(p: Policy, name: string, attrs: seq<Attribute>, i: int, code: Code, key: string) {
    && HasKey(p, attrs, i, key)
    && var value := attrs[i].val;
       if IsLinkKey(name, key) then
         match code
         case UnsafeURL => key == "href" && !SafeLink(p, value) && !HrefBefore(p, attrs, i)
         case RemovedAttribute => if key == "href" then HrefBefore(p, attrs, i) else TitleBefore(p, attrs, i)
         case _ => false
       else
         match code
         case UnsafeAttribute => IsHandler(key)
         case UnsafeStyle => key == "style"
         case RemoteResource => IsResource(key) && IsRemote(p, value)
         case RemovedAttribute =>
           key != "" && !IsHandler(key) && key != "style" && !(IsResource(key) && IsRemote(p, value))
         case _ => false
  }

  // What the attribute `i` of a dropped element has reported.
  ghost predicate ResourceReported(p: Policy, attrs: seq<Attribute>, i: int, code: Code, key: string) {
    && HasKey(p, attrs, i, key)
    && match code
       case RemoteResource => IsResource(key) && IsRemote(p, attrs[i].val)
       case UnsafeURL => key in {"src", "srcset", "poster"} && IsForeign(p, attrs[i].val)
       case _ => false
  }

  ghost predicate Reported(p: Policy, t: Tree, d: Diagnostic) {
    var name := p.lower(t.data);
    && d.element == name
    && if d.code == RemovedElement then
         d.attribute == "" && (DropsSubtree(name) || (!AllowsElement(name) && CleanF(p, t.kids) == []))
       else if DropsSubtree(name) then exists i :: ResourceReported(p, t.attr, i, d.code, d.attribute)
       else exists i :: AttributeReported(p, name, t.attr, i, d.code, d.attribute)
  }

  // ----- attributes

  lemma ResourceKeys(key: string)
    ensures IsResource(key) ==> key != "" && !IsHandler(key) && key != "style"
    ensures IsHandler(key) ==> key != "" && key != "style"
  {
    assert IsHandler(key) ==> key[0] == 'o';
    assert IsResource(key) ==> key[0] in "abcdfhps";
    assert key == "style" ==> key[0] == 's';
  }

  lemma {:induction false} RemovedReported(p: Policy, name: string, attrs: seq<Attribute>, d: Diagnostic)
    ensures d in RemovedReports(p, name, attrs) <==>
              exists i :: 0 <= i < |attrs| && d in RemovedReport(p, name, Key(p, attrs[i]), attrs[i].val)
  {
    hide RemovedReport;
    if attrs != [] {
      RemovedReported(p, name, attrs[1..], d);
      if i :| 0 <= i < |attrs| && d in RemovedReport(p, name, Key(p, attrs[i]), attrs[i].val) {
        assert i > 0 ==> attrs[1..][i - 1] == attrs[i];
      }
      if i :| 0 <= i < |attrs[1..]| && d in RemovedReport(p, name, Key(p, attrs[1..][i]), attrs[1..][i].val) {
        assert attrs[1..][i] == attrs[i + 1];
      }
    }
  }

  lemma {:induction false} DroppedReported(p: Policy, name: string, attrs: seq<Attribute>, d: Diagnostic)
    ensures d in DroppedReports(p, name, attrs) <==>
              exists i :: 0 <= i < |attrs| && d in DroppedReport(p, name, Key(p, attrs[i]), attrs[i].val)
  {
    hide DroppedReport;
    if attrs != [] {
      DroppedReported(p, name, attrs[1..], d);
      if i :| 0 <= i < |attrs| && d in DroppedReport(p, name, Key(p, attrs[i]), attrs[i].val) {
        assert i > 0 ==> attrs[1..][i - 1] == attrs[i];
      }
      if i :| 0 <= i < |attrs[1..]| && d in DroppedReport(p, name, Key(p, attrs[1..][i]), attrs[1..][i].val) {
        assert attrs[1..][i] == attrs[i + 1];
      }
    }
  }

  // The report on attribute `i` of a link whose loop had seen this much.
  ghost predicate LinkReportAt(p: Policy, attrs: seq<Attribute>, href: bool, title: bool, i: int, d: Diagnostic) {
    && 0 <= i < |attrs|
    && d in LinkReport(p, attrs[i], href || HrefBefore(p, attrs, i), title || TitleBefore(p, attrs, i))
  }

  lemma BeforeLater(p: Policy, attrs: seq<Attribute>, i: nat)
    requires i + 1 < |attrs|
    ensures HrefBefore(p, attrs, i + 1) <==> HrefSeen(p, attrs[0], false) || HrefBefore(p, attrs[1..], i)
    ensures TitleBefore(p, attrs, i + 1) <==> TitleSeen(p, attrs[0], false) || TitleBefore(p, attrs[1..], i)
  {
    var rest := attrs[1..];
    hide SafeLink, Key;
    assert HrefSeen(p, attrs[0], false) ==> HasKey(p, attrs, 0, "href");
    assert TitleSeen(p, attrs[0], false) ==> HasKey(p, attrs, 0, "title");
    if j :| j < i && HasKey(p, rest, j, "href") && SafeLink(p, rest[j].val) {
      assert rest[j] == attrs[j + 1] && HasKey(p, attrs, j + 1, "href");
    }
    if j :| j < i && HasKey(p, rest, j, "title") {
      assert rest[j] == attrs[j + 1] && HasKey(p, attrs, j + 1, "title");
    }
    if j :| j < i + 1 && HasKey(p, attrs, j, "href") && SafeLink(p, attrs[j].val) {
      assert j > 0 ==> rest[j - 1] == attrs[j] && HasKey(p, rest, j - 1, "href");
    }
    if j :| j < i + 1 && HasKey(p, attrs, j, "title") {
      assert j > 0 ==> rest[j - 1] == attrs[j] && HasKey(p, rest, j - 1, "title");
    }
  }

  lemma LinkReportLater(p: Policy, attrs: seq<Attribute>, href: bool, title: bool, i: nat, d: Diagnostic)
    requires i + 1 < |attrs|
    ensures LinkReportAt(p, attrs, href, title, i + 1, d) <==>
              LinkReportAt(p, attrs[1..], HrefSeen(p, attrs[0], href), TitleSeen(p, attrs[0], title), i, d)
  {
    hide LinkReport, HrefBefore, TitleBefore;
    BeforeLater(p, attrs, i);
    assert attrs[1..][i] == attrs[i + 1];
  }

  lemma {:induction false} LinkReported(p: Policy, attrs: seq<Attribute>, href: bool, title: bool, d: Diagnostic)
    ensures d in LinkReports(p, attrs, href, title) <==> exists i :: LinkReportAt(p, attrs, href, title, i, d)
  {
    hide LinkReport, SafeLink;
    if attrs != [] {
      var rest, h, t := attrs[1..], HrefSeen(p, attrs[0], href), TitleSeen(p, attrs[0], title);
      LinkReported(p, rest, h, t, d);
      assert LinkReportAt(p, attrs, href, title, 0, d) <==> d in LinkReport(p, attrs[0], href, title);
      if i: nat :| LinkReportAt(p, attrs, href, title, i, d) {
        if i > 0 {
          LinkReportLater(p, attrs, href, title, i - 1, d);
          assert LinkReportAt(p, rest, h, t, i - 1, d);
        }
      }
      if i: nat :| LinkReportAt(p, rest, h, t, i, d) {
        LinkReportLater(p, attrs, href, title, i, d);
        assert LinkReportAt(p, attrs, href, title, i + 1, d);
      }
    }
  }

  lemma AttributeIsReported(p: Policy, name: string, attrs: seq<Attribute>, d: Diagnostic)
    ensures d in AttributeReports(p, name, attrs) <==>
              d.element == name && exists i :: AttributeReported(p, name, attrs, i, d.code, d.attribute)
  {
    hide SafeLink, IsRemote, Key, LinkReports, RemovedReports;
    if name == "a" {
      LinkReported(p, attrs, false, false, d);
      forall i ensures LinkReportAt(p, attrs, false, false, i, d) <==>
                         d.element == name && AttributeReported(p, name, attrs, i, d.code, d.attribute)
      {
        if 0 <= i < |attrs| {
          OneLinkReport(p, attrs, i, d);
        }
      }
    } else {
      RemovedReported(p, name, attrs, d);
      forall i | 0 <= i < |attrs|
        ensures d in RemovedReport(p, name, Key(p, attrs[i]), attrs[i].val) <==>
                  d.element == name && AttributeReported(p, name, attrs, i, d.code, d.attribute)
      {
        OneReport(p, name, attrs, i, d);
      }
    }
  }

  lemma OneReport(p: Policy, name: string, attrs: seq<Attribute>, i: nat, d: Diagnostic)
    requires i < |attrs| && !IsLinkKey(name, Key(p, attrs[i]))
    ensures d in RemovedReport(p, name, Key(p, attrs[i]), attrs[i].val) <==>
              d.element == name && AttributeReported(p, name, attrs, i, d.code, d.attribute)
  {
    hide SafeLink, IsRemote;
    var key := Key(p, attrs[i]);
    ResourceKeys(key);
  }

  lemma OneLinkReport(p: Policy, attrs: seq<Attribute>, i: nat, d: Diagnostic)
    requires i < |attrs|
    ensures LinkReportAt(p, attrs, false, false, i, d) <==>
              d.element == "a" && AttributeReported(p, "a", attrs, i, d.code, d.attribute)
  {
    hide SafeLink, IsRemote, HrefBefore, TitleBefore;
    if !IsLinkKey("a", Key(p, attrs[i])) {
      OneReport(p, "a", attrs, i, d);
    }
  }

  lemma ResourceIsReported(p: Policy, name: string, attrs: seq<Attribute>, d: Diagnostic)
    ensures d in DroppedReports(p, name, attrs) <==>
              d.element == name && exists i :: ResourceReported(p, attrs, i, d.code, d.attribute)
  {
    DroppedReported(p, name, attrs, d);
    forall i | 0 <= i < |attrs|
      ensures d in DroppedReport(p, name, Key(p, attrs[i]), attrs[i].val) <==>
                d.element == name && ResourceReported(p, attrs, i, d.code, d.attribute)
    {
    }
  }

  // ----- trees

  lemma ElementIsReported(p: Policy, t: Tree, d: Diagnostic)
    requires t.kind == Element
    ensures
      d in Reports(p, t) <==>
        Reported(p, t, d) || (!DropsSubtree(p.lower(t.data)) && d in ReportsF(p, t.kids))
  {
    hide DropsSubtree, AllowsElement, AttributeReports, DroppedReports, ReportsF, CleanF;
    var name := p.lower(t.data);
    assert AllowsElement(name) || name != "a" by {
      LinksAreAllowed();
    }
    AttributeIsReported(p, name, t.attr, d);
    ResourceIsReported(p, name, t.attr, d);
    if !AllowsElement(name) {
      assert AttributeReports(p, name, t.attr) == RemovedReports(p, name, t.attr) by {
        NoLink(p, name, t.attr);
      }
    }
  }

  lemma LinksAreAllowed()
    ensures AllowsElement("a")
  {
  }

  lemma NoLink(p: Policy, name: string, attrs: seq<Attribute>)
    requires name != "a"
    ensures AttributeReports(p, name, attrs) == RemovedReports(p, name, attrs)
  {
  }

  // Every diagnostic is there because of a visited element, and every visited
  // element has all of its own.
  lemma {:induction false} ReportedExactly(p: Policy, t: Tree, d: Diagnostic)
    ensures d in Reports(p, t) <==> exists u :: u in Visited(p, t) && Reported(p, u, d)
    decreases t, 1
  {
    hide Reported;
    if t.kind == Element {
      ElementIsReported(p, t, d);
      ReportedExactlyAll(p, t.kids, d);
      assert t in Visited(p, t);
    }
  }

  lemma {:induction false} ReportedExactlyAll(p: Policy, ts: Forest, d: Diagnostic)
    ensures d in ReportsF(p, ts) <==> exists u :: u in VisitedAll(p, ts) && Reported(p, u, d)
    decreases ts, 0
  {
    hide Reported;
    if ts != [] {
      ReportedExactly(p, ts[0], d);
      ReportedExactlyAll(p, ts[1..], d);
    }
  }
}
