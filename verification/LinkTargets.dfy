// When a rendering shows where a link leads, and that the address is then in
// the text.
module LinkTargets {
  import opened Html
  import opened PlainForms
  import opened PlainTextContent
  import opened PlainTextLayout
  import opened PlainTextOutput
  import opened PlainTextRenderer
  import opened PlainTextRendering
  import opened RenderingFacts
  import opened SanitizeSpec
  import opened Sequences
  import opened Texts
  import opened Wrappers

  // ----- links by what they contain

  // The label of a link: the text rendered inside it, with single spaces.
  function LabelOf(p: Policy, t: Tree, verbatim: bool): string {
    NormalizeLabel(InnerTexts(p, t.kids, Some(t.data), verbatim), false, false)
  }

  lemma {:induction false} TextHasNoBreaks(es: seq<Event>)
    requires forall e :: e in es ==> e.Ch?
    ensures Newlines(Gap(es)) == 0 && forall e :: e in Gap(es) ==> e.Ch?
    decreases |es|
  {
    if es != [] {
      var before, last := es[..|es| - 1], es[|es| - 1];
      assert last in es;
      TextHasNoBreaks(before);
      if !Visible(last) {
        assert Gap(es)[..|Gap(es)| - 1] == Gap(before);
      }
    }
  }

  lemma {:induction false} NormalizedFrom(legacy: bool, es: seq<Event>, s: string, pending: bool, started: bool)
    requires forall e :: e in es ==> e.Ch?
    requires (started <==> Layout(legacy, es) != "") && (started ==> (pending <==> Gap(es) != []))
    ensures Layout(legacy, es + Prose(s)) == Layout(legacy, es) + NormalizeLabel(s, pending, started)
    decreases s
  {
    hide Layout, Gap, IsSpace, Newlines;
    if s == "" {
      assert es + Prose(s) == es;
    } else {
      var next, rest := es + [Ch(s[0])], s[1..];
      assert Prose(s) == [Ch(s[0])] + Prose(rest);
      Associate(es, [Ch(s[0])], Prose(rest));
      TextHasNoBreaks(es);
      StepEvent(legacy, es, Ch(s[0]));
      if IsSpace(s[0]) {
        NormalizedFrom(legacy, next, rest, true, started);
      } else {
        var space := if pending && started then " " else "";
        assert Layout(legacy, next) == Layout(legacy, es) + (space + [s[0]]);
        NormalizedFrom(legacy, next, rest, false, true);
        Associate(Layout(legacy, es), space + [s[0]], NormalizeLabel(rest, false, true));
      }
    }
  }

  // A label is what the writer would make of its text as prose.
  lemma LabelIsLaidOut(legacy: bool, s: string)
    ensures NormalizeLabel(s, false, false) == Layout(legacy, Prose(s))
  {
    NormalizedFrom(legacy, [], s, false, false);
    assert [] + Prose(s) == Prose(s) && "" + NormalizeLabel(s, false, false) == NormalizeLabel(s, false, false);
  }

  // The target of a link is its first safe href, trimmed; there is none if no
  // href is safe.
  lemma {:induction false} TargetIsFirstSafe(p: Policy, attrs: seq<Attribute>, k: nat)
    requires k <= |attrs|
    requires forall i :: 0 <= i < k ==> !(p.equalFold(attrs[i].key, "href") && SafeLink(p, attrs[i].val))
    requires k < |attrs| ==> p.equalFold(attrs[k].key, "href") && SafeLink(p, attrs[k].val)
    ensures LinkTarget(p, attrs) == if k < |attrs| then p.trim(attrs[k].val) else ""
  {
    if attrs != [] && k > 0 {
      assert forall i :: 0 <= i < |attrs[1..]| ==> attrs[1..][i] == attrs[i + 1];
      TargetIsFirstSafe(p, attrs[1..], k - 1);
    }
  }

  // The targets of the links in a subtree that have a label.
  function Targets(p: Policy, t: Tree, verbatim: bool): seq<string>
    decreases t, 1
  {
    match t.kind
    case Text => []
    case Other => TargetsOf(p, t.kids, verbatim)
    case Element =>
      var name := p.lower(t.data);
      if name in {"img", "br", "hr"} || DropsPlainText(name) then []
      else
        TargetsOf(p, t.kids, verbatim || name in {"pre", "code"})
        + if name == "a" && LabelOf(p, t, verbatim) != "" && LinkTarget(p, t.attr) != "" then [LinkTarget(p, t.attr)]
          else []
  }

  function TargetsOf(p: Policy, ts: Forest, verbatim: bool): seq<string>
    decreases ts, 0
  {
    if ts == [] then [] else Targets(p, ts[0], verbatim) + TargetsOf(p, ts[1..], verbatim)
  }

  // The link has a label and a target, the label does not show the target, and
  // no link inside leads there.
  predicate ShowsTarget(s: Setting, t: Tree, verbatim: bool) {
    var text, target := LabelOf(s.policy, t, verbatim), LinkTarget(s.policy, t.attr);
    && text != "" && target != "" && !s.redundant(text, target)
    && forall inner :: inner in TargetsOf(s.policy, t.kids, verbatim) ==> !s.policy.equalFold(inner, target)
  }

  function InParentheses(target: string): string {
    " (" + target + ")"
  }

  // ----- the open links remember the targets inside them

  ghost predicate Remembers(a: View, b: View, targets: seq<string>) {
    && |b.links| == |a.links|
    && forall i :: 0 <= i < |a.links| ==> b.links[i].nestedTargets == a.links[i].nestedTargets + targets
  }

  lemma RemembersBoth(a: View, b: View, c: View, x: seq<string>, y: seq<string>)
    requires Remembers(a, b, x) && Remembers(b, c, y)
    ensures Remembers(a, c, x + y)
  {
  }

  // Steps that touch neither links nor what they remember.
  lemma SameLinks(a: View, b: View, c: View, d: View, targets: seq<string>)
    requires a.links == b.links && Remembers(b, c, targets) && c.links == d.links
    ensures Remembers(a, d, targets)
  {
  }

  lemma NothingRemembered(a: View, b: View)
    requires b.links == a.links || Extends(a.links, b.links)
    ensures Remembers(a, b, [])
  {
  }

  ghost predicate Extends(a: seq<Link>, b: seq<Link>) {
    |b| == |a| && forall i :: 0 <= i < |a| ==> b[i].nestedTargets == a[i].nestedTargets
  }

  lemma BreaksKeepLinks(s: Setting, v: View, name: string, nested: bool)
    ensures PushBlockBreak(v).links == v.links && PushParagraphBreak(s, v).links == v.links
    ensures PushElementBreak(s, v, name).links == v.links && PushListBreak(s, v, nested).links == v.links
    ensures Verbatim(PushBlockBreak(v)) == Verbatim(v) && Verbatim(PushListBreak(s, v, nested)) == Verbatim(v)
    ensures Verbatim(PushElementBreak(s, v, name)) == Verbatim(v)
  {
  }

  lemma BlockBreakKeepsLinks(v: View)
    ensures PushBlockBreak(v).links == v.links && Verbatim(PushBlockBreak(v)) == Verbatim(v)
  {
  }

  lemma StartsKeepLinks(v: View)
    ensures StartItem(v).links == v.links && Verbatim(StartItem(v)) == Verbatim(v)
    ensures OpenRow(v).links == v.links && Verbatim(OpenRow(v)) == Verbatim(v)
    ensures OpenCell(v).links == v.links && Verbatim(OpenCell(v)) == Verbatim(v)
    ensures CloseRow(v).links == v.links
  {
    hide PushRaw, PushBlockBreak;
    BlockBreakKeepsLinks(v);
    RawKeepsLinks(PushBlockBreak(v), Indent(v.lists) + Marker(v.lists));
    RawKeepsLinks(PushBlockBreak(v), "| ");
    RawKeepsLinks(v, " | ");
    RawKeepsLinks(v, " |");
  }

  lemma {:induction false} NodeRemembers(s: Setting, v: View, t: Tree, parent: Option<string>)
    ensures Remembers(v, ViewNode(s, v, t, parent), Targets(s.policy, t, Verbatim(v)))
    decreases t, 3
  {
    match t.kind {
    case Text => NothingRemembered(v, ViewNode(s, v, t, parent));
    case Other => ChildrenRemember(s, v, t.kids, None);
    case Element =>
      var name := s.policy.lower(t.data);
      if name in {"img", "br", "hr"} || DropsPlainText(name) {
        hide DropsPlainText, PushParagraphBreak, PushRaw, ViewContainer;
        BreaksKeepLinks(s, v, "", false);
        RawKeepsLinks(v, AttributeValue(s.policy, t.attr, "alt"));
        NothingRemembered(v, ViewElement(s, v, t));
      } else {
        ContainerRemembers(s, v, t, name);
      }
    }
  }

  lemma {:induction false} ChildrenRemember(s: Setting, v: View, ts: Forest, parent: Option<string>)
    ensures Remembers(v, ViewChildren(s, v, ts, parent), TargetsOf(s.policy, ts, Verbatim(v)))
    decreases ts, 0
  {
    hide Remembers, ViewNode, Targets, Renders;
    if ts == [] {
      NothingRemembered(v, v);
    } else {
      var w := ViewNode(s, v, ts[0], parent);
      NodeRemembers(s, v, ts[0], parent);
      NodeRenders(s, v, ts[0], parent);
      DepthsAreBack(v, w, InnerText(s.policy, ts[0], parent, Verbatim(v)), Items(s.policy, ts[0]));
      ChildrenRemember(s, w, ts[1..], parent);
      RemembersBoth(v, w, ViewChildren(s, w, ts[1..], parent), Targets(s.policy, ts[0], Verbatim(v)),
                    TargetsOf(s.policy, ts[1..], Verbatim(v)));
    }
  }

  lemma {:induction false} ContainerRemembers(s: Setting, v: View, t: Tree, name: string)
    requires t.kind == Element && name == s.policy.lower(t.data)
    requires name !in {"img", "br", "hr"} && !DropsPlainText(name)
    ensures Remembers(v, ViewContainer(s, v, t, name), Targets(s.policy, t, Verbatim(v)))
    decreases t, 1, 1
  {
    hide DropsPlainText, Remembers;
    var targets := TargetsOf(s.policy, t.kids, Verbatim(v) || name in {"pre", "code"});
    assert targets + [] == targets;
    if name == "a" {
      LinkRemembers(s, v, t);
    } else {
      var w := Entered(s, v, name);
      EnteredKeepsLinks(s, v, name);
      ChildrenRemember(s, w, t.kids, Some(t.data));
      LeftKeepsLinks(s, v, t, name);
      SameLinks(v, w, Inside(s, w, t), ViewContainer(s, v, t, name), targets);
    }
  }

  // The view in which the children of an element other than a link are
  // rendered.
  function Entered(s: Setting, v: View, name: string): View {
    match name
    case "code" => v.(code := v.code + 1)
    case "pre" => PushParagraphBreak(s, v).(pre := v.pre + 1)
    case "ul" => var w := PushListBreak(s, v, |v.lists| > 0); w.(lists := w.lists + [List(false, 1)])
    case "ol" => var w := PushListBreak(s, v, |v.lists| > 0); w.(lists := w.lists + [List(true, 1)])
    case "li" => StartItem(v)
    case "table" => var w := PushListBreak(s, v, |v.tables| > 0); w.(tables := w.tables + [Table(false, 0)])
    case "tr" => if |v.tables| == 0 then PushBlockBreak(v) else OpenRow(v)
    case "td" => if !InRow(v) then PushBlockBreak(v) else OpenCell(v)
    case "th" => if !InRow(v) then PushBlockBreak(v) else OpenCell(v)
    case _ => PushElementBreak(s, v, name)
  }

  lemma EnteredKeepsLinks(s: Setting, v: View, name: string)
    ensures Entered(s, v, name).links == v.links
    ensures Verbatim(Entered(s, v, name)) == (Verbatim(v) || name in {"pre", "code"})
  {
    hide PushBlockBreak, PushParagraphBreak, PushElementBreak, PushListBreak, StartItem, OpenRow, OpenCell;
    BreaksKeepLinks(s, v, name, |v.lists| > 0);
    BreaksKeepLinks(s, v, name, |v.tables| > 0);
    StartsKeepLinks(v);
  }

  lemma LeftKeepsLinks(s: Setting, v: View, t: Tree, name: string)
    requires name != "a"
    ensures ViewContainer(s, v, t, name).links == Inside(s, Entered(s, v, name), t).links
  {
    hide ViewChildren, PushBlockBreak, PushParagraphBreak, PushElementBreak, PushListBreak, OpenRow, OpenCell, CloseRow;
    var x := Inside(s, Entered(s, v, name), t);
    StartsKeepLinks(x);
    BreaksKeepLinks(s, x, name, false);
    BreaksKeepLinks(s, x.(pre := v.pre), name, false);
    BreaksKeepLinks(s, x.(lists := DropLast(x.lists)), name, |v.lists| > 0);
    BreaksKeepLinks(s, x.(tables := DropLast(x.tables)), name, |v.tables| > 0);
  }

  // The link just before it closes: it has its target, its label, and the
  // targets inside it.
  lemma {:induction false} LinkBeforeClosing(s: Setting, v: View, t: Tree)
    ensures
      var x := Inside(s, OpenLink(v, LinkTarget(s.policy, t.attr)), t);
      && |x.links| == |v.links| + 1
      && x.links[|v.links|]
         == Link(LinkTarget(s.policy, t.attr), InnerTexts(s.policy, t.kids, Some(t.data), Verbatim(v)),
                 TargetsOf(s.policy, t.kids, Verbatim(v)))
      && forall i :: 0 <= i < |v.links| ==>
           x.links[i].nestedTargets == v.links[i].nestedTargets + TargetsOf(s.policy, t.kids, Verbatim(v))
    decreases t, 0
  {
    hide ViewChildren, InnerTexts, ItemsOf, TargetsOf, Said, ShowLink;
    var w := OpenLink(v, LinkTarget(s.policy, t.attr));
    var x := Inside(s, w, t);
    ChildrenRemember(s, w, t.kids, Some(t.data));
    ChildrenRender(s, w, t.kids, Some(t.data));
    LinkCloses(s, v, LinkTarget(s.policy, t.attr), x, InnerTexts(s.policy, t.kids, Some(t.data), Verbatim(v)),
               ItemsOf(s.policy, t.kids));
    var targets := TargetsOf(s.policy, t.kids, Verbatim(v));
    assert [] + targets == targets;
    assert w.links[|v.links|] == Link(LinkTarget(s.policy, t.attr), "", []);
    assert forall i :: 0 <= i < |v.links| ==> w.links[i] == v.links[i];
  }

  lemma {:induction false} LinkRemembers(s: Setting, v: View, t: Tree)
    requires t.kind == Element && s.policy.lower(t.data) == "a"
    ensures Remembers(v, ViewLink(s, v, t), Targets(s.policy, t, Verbatim(v)))
    decreases t, 1, 0
  {
    hide ViewChildren, InnerTexts, TargetsOf, NormalizeLabel, DropsPlainText, PushRaw;
    NoDrop();
    var x := Inside(s, OpenLink(v, LinkTarget(s.policy, t.attr)), t);
    LinkBeforeClosing(s, v, t);
    RawKeepsLinks(x, " (" + LinkTarget(s.policy, t.attr) + ")");
    assert x.links[|x.links| - 1] == x.links[|v.links|];
  }

  lemma NoDrop()
    ensures !DropsPlainText("a")
  {
  }

  lemma RawKeepsLinks(v: View, value: string)
    ensures PushRaw(v, value).links == v.links && Verbatim(PushRaw(v, value)) == Verbatim(v)
    ensures value != "" ==> PushRaw(v, value).tokens == v.tokens + [Token(value, true, false, true, false, false)]
  {
  }

  // A link shows its target right behind its content exactly when the target
  // says more than the label and the links inside it; otherwise it adds
  // nothing to its content.
  lemma LinkShowsTarget(s: Setting, v: View, t: Tree)
    ensures
      var content := ViewChildren(s, OpenLink(v, LinkTarget(s.policy, t.attr)), t.kids, Some(t.data));
      ViewLink(s, v, t).tokens
      == content.tokens
         + if ShowsTarget(s, t, Verbatim(v)) then [Raw(InParentheses(LinkTarget(s.policy, t.attr)))] else []
  {
    hide ViewChildren, InnerTexts, TargetsOf, NormalizeLabel, PushRaw;
    var target := LinkTarget(s.policy, t.attr);
    var x := Inside(s, OpenLink(v, target), t);
    LinkBeforeClosing(s, v, t);
    RawKeepsLinks(x, " (" + target + ")");
    assert x.links[|x.links| - 1] == x.links[|v.links|];
    assert x.tokens + [] == x.tokens;
  }

  // ----- all links and images of a document

  // What the links and images in a subtree show besides the document's text:
  // targets in parentheses, and texts in place of images.
  function Marks(s: Setting, t: Tree, verbatim: bool): seq<string>
    decreases t, 1
  {
    match t.kind
    case Text => []
    case Other => MarksOf(s, t.kids, verbatim)
    case Element =>
      var name := s.policy.lower(t.data);
      if name == "img" then
        var alt := AttributeValue(s.policy, t.attr, "alt");
        if alt == "" then [] else [alt]
      else if name in {"br", "hr"} || DropsPlainText(name) then []
      else
        MarksOf(s, t.kids, verbatim || name in {"pre", "code"})
        + if name == "a" && ShowsTarget(s, t, verbatim) then [InParentheses(LinkTarget(s.policy, t.attr))] else []
  }

  function MarksOf(s: Setting, ts: Forest, verbatim: bool): seq<string>
    decreases ts, 0
  {
    if ts == [] then [] else Marks(s, ts[0], verbatim) + MarksOf(s, ts[1..], verbatim)
  }

  ghost predicate HasMarkers(tokens: seq<Token>, marks: seq<string>) {
    forall mark :: mark in marks ==> Raw(mark) in tokens
  }

  lemma MarkersStay(a: seq<Token>, b: seq<Token>, marks: seq<string>)
    requires a <= b && HasMarkers(a, marks)
    ensures HasMarkers(b, marks)
  {
  }

  lemma LeftGrows(s: Setting, v: View, t: Tree, name: string)
    requires name != "a"
    ensures Inside(s, Entered(s, v, name), t).tokens <= ViewContainer(s, v, t, name).tokens
  {
    hide ViewChildren, PushBlockBreak, PushParagraphBreak, PushElementBreak, PushListBreak, CloseRow;
    var x := Inside(s, Entered(s, v, name), t);
    BreaksGrow(s, x, name, false);
    BreaksGrow(s, x.(pre := v.pre), name, false);
    BreaksGrow(s, x.(lists := DropLast(x.lists)), name, |v.lists| > 0);
    BreaksGrow(s, x.(tables := DropLast(x.tables)), name, |v.tables| > 0);
  }

  lemma BreaksGrow(s: Setting, v: View, name: string, nested: bool)
    ensures v.tokens <= PushBlockBreak(v).tokens && v.tokens <= PushParagraphBreak(s, v).tokens
    ensures v.tokens <= PushElementBreak(s, v, name).tokens && v.tokens <= PushListBreak(s, v, nested).tokens
    ensures v.tokens <= CloseRow(v).tokens
  {
    RawGrows(v, " |");
    hide PushRaw;
  }

  lemma RawGrows(v: View, value: string)
    ensures v.tokens <= PushRaw(v, value).tokens
  {
  }

  lemma {:induction false} NodeShows(s: Setting, v: View, t: Tree, parent: Option<string>)
    ensures HasMarkers(ViewNode(s, v, t, parent).tokens, Marks(s, t, Verbatim(v)))
    decreases t, 3
  {
    match t.kind {
    case Text =>
    case Other => ChildrenShow(s, v, t.kids, None);
    case Element =>
      var name := s.policy.lower(t.data);
      if name == "img" {
        assert ViewNode(s, v, t, parent) == PushRaw(v, AttributeValue(s.policy, t.attr, "alt"));
      } else if name !in {"br", "hr"} && !DropsPlainText(name) {
        ContainerShows(s, v, t, name);
      }
    }
  }

  lemma {:induction false} ChildrenShow(s: Setting, v: View, ts: Forest, parent: Option<string>)
    ensures HasMarkers(ViewChildren(s, v, ts, parent).tokens, MarksOf(s, ts, Verbatim(v)))
    decreases ts, 0
  {
    hide ViewNode, Marks, Renders;
    if ts != [] {
      var w := ViewNode(s, v, ts[0], parent);
      NodeShows(s, v, ts[0], parent);
      NodeRenders(s, v, ts[0], parent);
      DepthsAreBack(v, w, InnerText(s.policy, ts[0], parent, Verbatim(v)), Items(s.policy, ts[0]));
      ChildrenShow(s, w, ts[1..], parent);
      ChildrenGrow(s, w, ts[1..], parent);
      MarkersStay(w.tokens, ViewChildren(s, w, ts[1..], parent).tokens, Marks(s, ts[0], Verbatim(v)));
    }
  }

  lemma {:induction false} ContainerShows(s: Setting, v: View, t: Tree, name: string)
    requires t.kind == Element && name == s.policy.lower(t.data)
    requires name !in {"img", "br", "hr"} && !DropsPlainText(name)
    ensures HasMarkers(ViewContainer(s, v, t, name).tokens, Marks(s, t, Verbatim(v)))
    decreases t, 1, 1
  {
    hide DropsPlainText, ViewChildren, ShowsTarget;
    if name == "a" {
      var w := OpenLink(v, LinkTarget(s.policy, t.attr));
      ChildrenShow(s, w, t.kids, Some(t.data));
      LinkShowsTarget(s, v, t);
      MarkersStay(Inside(s, w, t).tokens, ViewLink(s, v, t).tokens, MarksOf(s, t.kids, Verbatim(v)));
    } else {
      var w := Entered(s, v, name);
      EnteredKeepsLinks(s, v, name);
      ChildrenShow(s, w, t.kids, Some(t.data));
      LeftGrows(s, v, t, name);
      MarkersStay(Inside(s, w, t).tokens, ViewContainer(s, v, t, name).tokens,
                  MarksOf(s, t.kids, Verbatim(v) || name in {"pre", "code"}));
    }
  }

  // ----- in the text

  ghost predicate Contains(s: string, part: string) {
    exists before, after :: s == before + part + after
  }

  lemma MarkerText(target: string)
    ensures
      var shown := "(" + NormalizeLineEndings(target) + ")";
      && NormalizeLineEndings(" (" + target + ")") == " " + shown
      && TrimLeftBlanks(" " + shown) == shown
  {
    var marker := " (" + target + ")";
    assert marker[0] == ' ' && marker[1..][0] == '(' && marker[1..][1..] == target + ")";
    LineEndingsAreExact(target, ")", ')');
    var shown := "(" + NormalizeLineEndings(target) + ")";
    assert (" " + shown)[1..] == shown;
    assert [marker[0]] + ([marker[1..][0]] + (NormalizeLineEndings(target) + ")")) == " " + shown;
  }

  // Trimming line breaks takes nothing away that begins and ends otherwise.
  lemma {:induction false} TrimmingSpares(s: string, part: string)
    requires Contains(s, part) && part != "" && part[0] != '\n' && part[|part| - 1] != '\n'
    ensures Contains(TrimNewlines(s), part)
    decreases |s|
  {
    var before, after :| s == before + part + after;
    if s[0] == '\n' {
      assert before != "" && s[1..] == before[1..] + part + after;
      TrimmingSpares(s[1..], part);
    } else if s[|s| - 1] == '\n' {
      assert after != "";
      assert s[..|s| - 1] == before + part + after[..|after| - 1];
      TrimmingSpares(s[..|s| - 1], part);
    }
  }

  // A mark is in the output, but for blanks in front of it.
  lemma MarkerIsWritten(legacy: bool, tokens: seq<Token>, mark: string, part: string)
    requires Raw(mark) in tokens && mark != ""
    requires NormalizeLineEndings(mark) in {part, " " + part} && TrimLeftBlanks(NormalizeLineEndings(mark)) == part
    ensures Contains(Written(legacy, tokens), part)
  {
    hide Written, NormalizeLineEndings, TrimLeftBlanks, PutAll, Contains;
    var k :| 0 <= k < |tokens| && tokens[k] == Raw(mark);
    var a, b := tokens[..k], tokens[k + 1..];
    assert tokens == a + [Raw(mark)] + b;
    PreservedTextIsVerbatim(legacy, a, Raw(mark), b);
    WrittenIs(legacy, tokens);
    var before, shown, after :|
      Written(legacy, tokens) == before + shown + after && (shown == " " + part || shown == part);
    ContainsIt(Written(legacy, tokens), before, part, after);
  }

  lemma WrittenIs(legacy: bool, tokens: seq<Token>)
    ensures Written(legacy, tokens) == PutAll(Mode(0, legacy), EMPTY, tokens).out
  {
  }

  lemma ContainsIt(s: string, before: string, part: string, after: string)
    requires s == before + part + after || s == before + (" " + part) + after
    ensures Contains(s, part)
  {
    if s == before + (" " + part) + after {
      assert s == (before + " ") + part + after;
    }
  }

  // No address is lost: every link that shows its target, wherever it is in the
  // document, has it in the text, in parentheses.
  lemma PlainTextShowsTargets(s: Setting, t: Tree, target: string)
    requires InParentheses(target) in Marks(s, t, false)
    ensures Contains(PlainText(s, t), "(" + NormalizeLineEndings(target) + ")")
  {
    hide Contains, ViewNode, Marks, NormalizeLineEndings, TrimNewlines;
    var v := ViewNode(s, BLANK, t, None);
    NodeShows(s, BLANK, t, None);
    MarkerText(target);
    MarkerIsWritten(s.legacy, v.tokens, InParentheses(target), "(" + NormalizeLineEndings(target) + ")");
    TrimmingSpares(Written(s.legacy, v.tokens), "(" + NormalizeLineEndings(target) + ")");
  }

  // Every image with a text has it in the text.
  lemma PlainTextShowsImages(s: Setting, t: Tree, alt: string)
    requires alt in Marks(s, t, false) && alt != "" && !IsSpace(alt[0]) && !IsSpace(alt[|alt| - 1]) && '\r' !in alt
    ensures Contains(PlainText(s, t), alt)
  {
    hide Contains, ViewNode, Marks, TrimNewlines;
    var v := ViewNode(s, BLANK, t, None);
    NodeShows(s, BLANK, t, None);
    Unchanged(alt);
    MarkerIsWritten(s.legacy, v.tokens, alt, alt);
    TrimmingSpares(Written(s.legacy, v.tokens), alt);
  }
}
