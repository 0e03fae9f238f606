// What a rendering keeps and contributes: the stacks and depths are back
// afterwards, every open label has grown by the text inside, and the text is
// among the tokens.
module RenderingFacts {
  import opened Html
  import opened PlainTextContent
  import opened PlainTextOutput
  import opened PlainTextRendering
  import opened SanitizeSpec
  import opened Sequences
  import opened Texts
  import opened Wrappers

  // ----- what a subtree contributes

  // The text a subtree adds to every open link label.  `verbatim` says whether
  // it lies inside preformatted text or code.
  function InnerText(p: Policy, t: Tree, parent: Option<string>, verbatim: bool): string
    decreases t, 1, 0
  {
    match t.kind
    case Text =>
      if AllSpace(t.data) && !verbatim && parent.Some? && IsStructural(p.lower(parent.value)) then "" else t.data
    case Other => InnerTexts(p, t.kids, None, verbatim)
    case Element =>
      var name := p.lower(t.data);
      if name in {"img", "br", "hr"} || DropsPlainText(name) then ""
      else InnerTexts(p, t.kids, Some(t.data), verbatim || name in {"pre", "code"})
  }

  function InnerTexts(p: Policy, ts: Forest, parent: Option<string>, verbatim: bool): string
    decreases ts, 0
  {
    if ts == [] then "" else InnerText(p, ts[0], parent, verbatim) + InnerTexts(p, ts[1..], parent, verbatim)
  }

  // The items a subtree adds to the innermost open list.
  function Items(p: Policy, t: Tree): nat
    decreases t, 1, 0
  {
    match t.kind
    case Text => 0
    case Other => ItemsOf(p, t.kids)
    case Element =>
      var name := p.lower(t.data);
      if name in {"img", "br", "hr", "ul", "ol"} || DropsPlainText(name) then 0
      else (if name == "li" then 1 else 0) + ItemsOf(p, t.kids)
  }

  function ItemsOf(p: Policy, ts: Forest): nat
    decreases ts, 0
  {
    if ts == [] then 0 else Items(p, ts[0]) + ItemsOf(p, ts[1..])
  }

  // ----- what rendering does to the stacks

  // The same stacks are open; below the innermost list and table nothing has
  // changed; the depths are back.
  ghost predicate Restored(a: View, b: View) {
    && |b.links| == |a.links| && (forall i :: 0 <= i < |a.links| ==> b.links[i].href == a.links[i].href)
    && |b.lists| == |a.lists| && (forall i :: 0 <= i < |a.lists| - 1 ==> b.lists[i] == a.lists[i])
    && (a.lists != [] ==> b.lists[|a.lists| - 1].ordered == a.lists[|a.lists| - 1].ordered)
    && |b.tables| == |a.tables| && (forall i :: 0 <= i < |a.tables| - 1 ==> b.tables[i] == a.tables[i])
    && b.pre == a.pre && b.code == a.code && b.cell == a.cell
  }

  // All but the tokens and the line's prefix.
  ghost predicate SameStacks(a: View, b: View) {
    && a.links == b.links && a.lists == b.lists && a.tables == b.tables
    && a.pre == b.pre && a.code == b.code && a.cell == b.cell
  }

  lemma RestoredPre(a: View, b: View, c: View, d: View)
    requires SameStacks(a.(pre := b.pre), b) && Restored(b, c) && SameStacks(c.(pre := a.pre), d)
    ensures Restored(a, d) && c.pre == b.pre
  {
  }

  lemma RestoredList(a: View, b: View, c: View, d: View, list: List)
    requires SameStacks(a.(lists := a.lists + [list]), b) && Restored(b, c)
    requires SameStacks(c.(lists := DropLast(c.lists)), d)
    ensures Restored(a, d)
  {
  }

  lemma RestoredTable(a: View, b: View, c: View, d: View, table: Table)
    requires SameStacks(a.(tables := a.tables + [table]), b) && Restored(b, c)
    requires SameStacks(c.(tables := DropLast(c.tables)), d)
    ensures Restored(a, d)
  {
  }

  // The innermost link is gone, the others have kept their targets.
  ghost predicate ClosesLink(a: View, b: View) {
    && SameStacks(a.(links := b.links), b) && |b.links| == |a.links| - 1
    && forall i :: 0 <= i < |b.links| ==> b.links[i].href == a.links[i].href
  }

  lemma RestoredLink(a: View, b: View, c: View, d: View, href: string)
    requires b == OpenLink(a, href) && Restored(b, c) && ClosesLink(c, d)
    ensures Restored(a, d)
  {
    assert forall i :: 0 <= i < |a.links| ==> b.links[i] == a.links[i];
  }

  lemma NextItemRestored(a: View, b: View)
    requires SameStacks(a.(lists := NextItem(a.lists)), b)
    ensures Restored(a, b)
  {
  }

  lemma SetTableRestored(a: View, b: View, table: Table)
    requires SameStacks(a.(tables := SetTable(a.tables, table)), b)
    ensures Restored(a, b)
  {
  }

  lemma RestoredCounts(a: View, b: View)
    requires Restored(a, b)
    ensures |b.links| == |a.links| && |b.lists| == |a.lists| && |b.tables| == |a.tables|
    ensures b.pre == a.pre && b.code == a.code && b.cell == a.cell
  {
  }

  ghost predicate Labelled(a: seq<Link>, b: seq<Link>, text: string) {
    |b| == |a| && forall i :: 0 <= i < |a| ==> b[i].text == a[i].text + text
  }

  ghost predicate Numbered(a: seq<List>, b: seq<List>, items: nat) {
    |b| == |a| && (a != [] ==>
      b[|a| - 1].next == a[|a| - 1].next + if a[|a| - 1].ordered then items else 0)
  }

  ghost predicate Grows(a: View, b: View) {
    a.tokens <= b.tokens && a.labels <= b.labels
  }

  // Going from `a` to `b` renders `text` and `items`.
  ghost predicate Renders(a: View, b: View, text: string, items: nat) {
    && Restored(a, b) && Grows(a, b)
    && Labelled(a.links, b.links, text) && Numbered(a.lists, b.lists, items)
    && Said(b.tokens) == Said(a.tokens) + Letters(text)
  }

  // Going from `a` to `b` only issues markers and breaks.
  ghost predicate Quiet(a: View, b: View) {
    b == a.(tokens := b.tokens, prefix := b.prefix) && a.tokens <= b.tokens && Said(b.tokens) == Said(a.tokens)
  }

  lemma QuietRenders(a: View, b: View)
    requires Quiet(a, b)
    ensures Renders(a, b, "", 0)
  {
    hide Said, Letters;
    NothingSaid(Said(a.tokens));
    forall i | 0 <= i < |a.links| ensures b.links[i].text == a.links[i].text + "" {
    }
  }

  lemma RendersBoth(a: View, b: View, c: View, x: string, y: string, i: nat, j: nat)
    requires Renders(a, b, x, i) && Renders(b, c, y, j)
    ensures Renders(a, c, x + y, i + j)
  {
    hide Said, Letters;
    forall k | 0 <= k < |a.links| ensures c.links[k].text == a.links[k].text + (x + y) {
      Associate(a.links[k].text, x, y);
    }
    LettersConcat(x, y);
    Associate(Said(a.tokens), Letters(x), Letters(y));
  }

  // Markers and breaks around a rendering change nothing of what it is.
  lemma RendersAmid(a: View, b: View, c: View, d: View, text: string, items: nat)
    requires Quiet(a, b) && Renders(b, c, text, items) && Quiet(c, d)
    ensures Renders(a, d, text, items)
  {
    hide Said, Letters;
  }

  // ----- single steps

  lemma PushIsQuiet(v: View, token: Token)
    requires SaidBy(token) == ""
    ensures Quiet(v, Push(v, token))
  {
    SaidSnoc(v.tokens, token);
    assert Said(v.tokens) + "" == Said(v.tokens);
  }

  lemma RawIsQuiet(v: View, value: string)
    ensures Quiet(v, PushRaw(v, value))
  {
    if value != "" {
      PushIsQuiet(v, Token(value, true, false, true, false, false));
    }
  }

  lemma BreakIsQuiet(v: View)
    ensures Quiet(v, PushBreak(v)) && Quiet(v, PushBlockBreak(v))
  {
    PushIsQuiet(v, Token("", false, false, false, true, false));
  }

  lemma BreaksAreQuiet(s: Setting, v: View, name: string, nested: bool)
    ensures Quiet(v, PushParagraphBreak(s, v)) && Quiet(v, PushElementBreak(s, v, name))
    ensures Quiet(v, PushListBreak(s, v, nested))
  {
    BreakIsQuiet(v);
    PushIsQuiet(v, Token("", false, false, false, false, true));
  }

  lemma TextRenders(s: Setting, v: View, value: string)
    ensures Renders(v, PushText(s, v, value), value, 0)
  {
    hide WriteOnly, Said, Letters;
    if value == "" {
      QuietRenders(v, v);
    } else {
      WrittenTextIsSaid(s, Label(v, value), value);
    }
  }

  lemma WrittenTextIsSaid(s: Setting, v: View, value: string)
    ensures
      var w := WriteOnly(s, v, value);
      && w == v.(tokens := w.tokens, prefix := w.prefix) && v.tokens <= w.tokens
      && Said(w.tokens) == Said(v.tokens) + Letters(value)
  {
    var text := if v.cell > 0 then EscapePipes(value) else value;
    EscapedLetters(value);
    if !s.legacy && AllSpace(text) && v.pre == 0 && v.code == 0 && AfterBreak(v) {
      SpaceHasNoLetters(text);
    } else {
      LettersOfNonSpace(text);
      SaidSnoc(v.tokens, Token(text, v.pre > 0 || v.code > 0, v.pre > 0, false, false, false));
    }
  }

  // ----- opening and closing

  // Closing the link that was opened in `a` takes its share of the text away.
  lemma LinkCloses(s: Setting, a: View, href: string, b: View, text: string, items: nat)
    requires Renders(OpenLink(a, href), b, text, items)
    ensures Renders(a, ShowLink(s, b), text, items)
    ensures b.links[|b.links| - 1].text == text
  {
    hide Said, Letters, NormalizeLabel;
    var link := b.links[|b.links| - 1];
    RawIsQuiet(b, " (" + link.href + ")");
    assert "" + text == text;
  }

  lemma ListCloses(a: View, list: List, b: View, text: string, items: nat)
    requires Renders(a.(lists := a.lists + [list]), b, text, items)
    ensures Renders(a, b.(lists := DropLast(b.lists)), text, 0)
  {
  }

  lemma TableCloses(a: View, table: Table, b: View, text: string, items: nat)
    requires Renders(a.(tables := a.tables + [table]), b, text, items)
    ensures Renders(a, b.(tables := DropLast(b.tables)), text, items)
  {
  }

  lemma ItemStarts(v: View)
    ensures Renders(v, StartItem(v), "", 1)
  {
    hide Said, Letters;
    var w := PushRaw(PushBlockBreak(v), Indent(v.lists) + Marker(v.lists));
    BreakIsQuiet(v);
    RawIsQuiet(PushBlockBreak(v), Indent(v.lists) + Marker(v.lists));
    QuietRenders(v, w);
  }

  lemma RowOpens(v: View)
    ensures Renders(v, OpenRow(v), "", 0)
  {
    hide Said, Letters;
    BreakIsQuiet(v);
    RawIsQuiet(PushBlockBreak(v), "| ");
    QuietRenders(v, PushRaw(PushBlockBreak(v), "| "));
  }

  lemma RowCloses(v: View)
    ensures Renders(v, CloseRow(v), "", 0)
  {
    hide Said, Letters;
    var w := PushRaw(v, " |");
    var x := if w.tables == [] then w
             else w.(tables := SetTable(w.tables, w.tables[|w.tables| - 1].(inRow := false)));
    RawIsQuiet(v, " |");
    BreakIsQuiet(x);
    QuietRenders(v, w);
    QuietRenders(x, PushBreak(x));
  }

  lemma CellOpens(v: View)
    requires v.tables != []
    ensures Renders(v, OpenCell(v).(cell := v.cell), "", 0) && OpenCell(v).cell == v.cell + 1
  {
    hide Said, Letters;
    RawIsQuiet(v, " | ");
    QuietRenders(v, PushRaw(v, " | "));
    QuietRenders(v, v);
  }

  lemma CellCloses(a: View, b: View, text: string, items: nat)
    requires Renders(a, b, text, items) && a.cell > 0
    ensures Renders(a.(cell := a.cell - 1), b.(cell := a.cell - 1), text, items)
  {
  }

  lemma DepthIsBack(a: View, b: View, text: string, items: nat)
    requires Renders(a, b, text, items)
    ensures forall n: nat :: Renders(a.(code := n), b.(code := n), text, items)
    ensures forall n: nat :: Renders(a.(pre := n), b.(pre := n), text, items)
  {
  }

  // ----- every node

  predicate Verbatim(v: View) {
    v.pre > 0 || v.code > 0
  }

  lemma {:induction false} NodeRenders(s: Setting, v: View, t: Tree, parent: Option<string>)
    ensures Renders(v, ViewNode(s, v, t, parent), InnerText(s.policy, t, parent, Verbatim(v)), Items(s.policy, t))
    decreases t, 3
  {
    match t.kind {
    case Text =>
      TextRenders(s, v, t.data);
      SameIsQuiet(v);
      QuietRenders(v, v);
    case Element => ElementRenders(s, v, t, parent);
    case Other => ChildrenRender(s, v, t.kids, None);
    }
  }

  lemma SameIsQuiet(v: View)
    ensures Quiet(v, v)
  {
  }

  lemma {:induction false} ChildrenRender(s: Setting, v: View, ts: Forest, parent: Option<string>)
    ensures Renders(v, ViewChildren(s, v, ts, parent), InnerTexts(s.policy, ts, parent, Verbatim(v)),
                    ItemsOf(s.policy, ts))
    decreases ts, 0
  {
    hide Renders, ViewNode, InnerText, Items;
    if ts == [] {
      SameIsQuiet(v);
      QuietRenders(v, v);
    } else {
      var w := ViewNode(s, v, ts[0], parent);
      NodeRenders(s, v, ts[0], parent);
      DepthsAreBack(v, w, InnerText(s.policy, ts[0], parent, Verbatim(v)), Items(s.policy, ts[0]));
      ChildrenRender(s, w, ts[1..], parent);
      RendersBoth(v, w, ViewChildren(s, w, ts[1..], parent), InnerText(s.policy, ts[0], parent, Verbatim(v)),
                  InnerTexts(s.policy, ts[1..], parent, Verbatim(v)), Items(s.policy, ts[0]),
                  ItemsOf(s.policy, ts[1..]));
    }
  }

  lemma DepthsAreBack(a: View, b: View, text: string, items: nat)
    requires Renders(a, b, text, items)
    ensures b.pre == a.pre && b.code == a.code && b.cell == a.cell && |b.tables| == |a.tables|
  {
  }

  // What the children of an element contribute.
  ghost function TextInside(s: Setting, t: Tree, verbatim: bool): string {
    InnerTexts(s.policy, t.kids, Some(t.data), verbatim)
  }

  ghost function ItemsInside(s: Setting, t: Tree): nat {
    ItemsOf(s.policy, t.kids)
  }

  lemma {:induction false} ElementRenders(s: Setting, v: View, t: Tree, parent: Option<string>)
    requires t.kind == Element
    ensures Renders(v, ViewElement(s, v, t), InnerText(s.policy, t, parent, Verbatim(v)), Items(s.policy, t))
    decreases t, 2
  {
    hide DropsPlainText, Renders;
    var name := s.policy.lower(t.data);
    if name in {"img", "br", "hr"} || DropsPlainText(name) {
      LeafRenders(s, v, t);
    } else {
      ContainerRenders(s, v, t, name);
    }
  }

  lemma LeafRenders(s: Setting, v: View, t: Tree)
    requires s.policy.lower(t.data) in {"img", "br", "hr"} || DropsPlainText(s.policy.lower(t.data))
    ensures Renders(v, ViewElement(s, v, t), "", 0)
  {
    hide DropsPlainText, Renders, Quiet, ViewContainer;
    SameIsQuiet(v);
    RawIsQuiet(v, AttributeValue(s.policy, t.attr, "alt"));
    BreakIsQuiet(v);
    BreaksAreQuiet(s, v, "", false);
    QuietRenders(v, ViewElement(s, v, t));
  }

  lemma {:induction false} ContainerRenders(s: Setting, v: View, t: Tree, name: string)
    ensures Renders(v, ViewContainer(s, v, t, name), TextInside(s, t, Verbatim(v) || name in {"pre", "code"}),
                    if name in {"ul", "ol"} then 0 else (if name == "li" then 1 else 0) + ItemsInside(s, t))
    decreases t, 1, 1
  {
    hide Renders, TextInside, ItemsInside;
    match name {
    case "a" => LinkRenders(s, v, t);
    case "code" => CodeRenders(s, v, t);
    case "pre" => PreformattedRenders(s, v, t);
    case "ul" => ListRenders(s, v, t, false);
    case "ol" => ListRenders(s, v, t, true);
    case "li" => ListItemRenders(s, v, t);
    case "table" => TableRenders(s, v, t);
    case "tr" => TableRowRenders(s, v, t);
    case "td" => TableCellRenders(s, v, t);
    case "th" => TableCellRenders(s, v, t);
    case _ => PlainElementRenders(s, v, t, name);
    }
  }

  lemma {:induction false} PlainElementRenders(s: Setting, v: View, t: Tree, name: string)
    ensures Renders(v, ViewPlainElement(s, v, t, name), TextInside(s, t, Verbatim(v)), ItemsInside(s, t))
    decreases t, 1, 0
  {
    var w := PushElementBreak(s, v, name);
    BreaksAreQuiet(s, v, name, false);
    ChildrenRender(s, w, t.kids, Some(t.data));
    BreaksAreQuiet(s, Inside(s, w, t), name, false);
    hide Renders, PushElementBreak;
    RendersAmid(v, w, Inside(s, w, t), PushElementBreak(s, Inside(s, w, t), name), TextInside(s, t, Verbatim(v)),
                ItemsInside(s, t));
  }

  lemma {:induction false} CodeRenders(s: Setting, v: View, t: Tree)
    ensures Renders(v, ViewCode(s, v, t), TextInside(s, t, true), ItemsInside(s, t))
    decreases t, 1, 0
  {
    hide Renders;
    var w := v.(code := v.code + 1);
    ChildrenRender(s, w, t.kids, Some(t.data));
    DepthIsBack(w, Inside(s, w, t), TextInside(s, t, true), ItemsInside(s, t));
    assert w.(code := v.code) == v;
  }

  lemma {:induction false} PreformattedRenders(s: Setting, v: View, t: Tree)
    ensures Renders(v, ViewPreformatted(s, v, t), TextInside(s, t, true), ItemsInside(s, t))
    decreases t, 1, 0
  {
    var x := PushParagraphBreak(s, v);
    BreaksAreQuiet(s, v, "", false);
    hide Renders, PushParagraphBreak;
    var w := x.(pre := v.pre + 1);
    ChildrenRender(s, w, t.kids, Some(t.data));
    DepthIsBack(w, Inside(s, w, t), TextInside(s, t, true), ItemsInside(s, t));
    assert w.(pre := v.pre) == x;
    var y := Inside(s, w, t).(pre := v.pre);
    BreaksAreQuiet(s, y, "", false);
    RendersAmid(v, x, y, PushParagraphBreak(s, y), TextInside(s, t, true), ItemsInside(s, t));
  }

  lemma {:induction false} LinkRenders(s: Setting, v: View, t: Tree)
    ensures Renders(v, ViewLink(s, v, t), TextInside(s, t, Verbatim(v)), ItemsInside(s, t))
    decreases t, 1, 0
  {
    hide Renders, ShowLink;
    var href := LinkTarget(s.policy, t.attr);
    ChildrenRender(s, OpenLink(v, href), t.kids, Some(t.data));
    LinkCloses(s, v, href, Inside(s, OpenLink(v, href), t), TextInside(s, t, Verbatim(v)), ItemsInside(s, t));
  }

  lemma {:induction false} ListRenders(s: Setting, v: View, t: Tree, ordered: bool)
    ensures Renders(v, ViewList(s, v, t, ordered), TextInside(s, t, Verbatim(v)), 0)
    decreases t, 1, 0
  {
    var nested := |v.lists| > 0;
    var w := PushListBreak(s, v, nested);
    BreaksAreQuiet(s, v, "", nested);
    hide Renders, PushListBreak;
    var x := w.(lists := w.lists + [List(ordered, 1)]);
    ChildrenRender(s, x, t.kids, Some(t.data));
    ListCloses(w, List(ordered, 1), Inside(s, x, t), TextInside(s, t, Verbatim(v)), ItemsInside(s, t));
    var y := Inside(s, x, t).(lists := DropLast(Inside(s, x, t).lists));
    BreaksAreQuiet(s, y, "", nested);
    RendersAmid(v, w, y, PushListBreak(s, y, nested), TextInside(s, t, Verbatim(v)), 0);
  }

  lemma {:induction false} ListItemRenders(s: Setting, v: View, t: Tree)
    ensures Renders(v, ViewListItem(s, v, t), TextInside(s, t, Verbatim(v)), 1 + ItemsInside(s, t))
    decreases t, 1, 0
  {
    hide Renders, StartItem, PushBlockBreak;
    var w := StartItem(v);
    ItemStarts(v);
    DepthsAreBack(v, w, "", 1);
    ChildrenRender(s, w, t.kids, Some(t.data));
    var x := Inside(s, w, t);
    var text := TextInside(s, t, Verbatim(v));
    RendersBoth(v, w, x, "", text, 1, ItemsInside(s, t));
    assert "" + text == text;
    BreakIsQuiet(x);
    SameIsQuiet(v);
    RendersAmid(v, v, x, PushBlockBreak(x), text, 1 + ItemsInside(s, t));
  }

  lemma {:induction false} TableRenders(s: Setting, v: View, t: Tree)
    ensures Renders(v, ViewTable(s, v, t), TextInside(s, t, Verbatim(v)), ItemsInside(s, t))
    decreases t, 1, 0
  {
    var nested := |v.tables| > 0;
    var w := PushListBreak(s, v, nested);
    BreaksAreQuiet(s, v, "", nested);
    hide Renders, PushListBreak;
    var x := w.(tables := w.tables + [Table(false, 0)]);
    ChildrenRender(s, x, t.kids, Some(t.data));
    TableCloses(w, Table(false, 0), Inside(s, x, t), TextInside(s, t, Verbatim(v)), ItemsInside(s, t));
    var y := Inside(s, x, t).(tables := DropLast(Inside(s, x, t).tables));
    BreaksAreQuiet(s, y, "", nested);
    RendersAmid(v, w, y, PushListBreak(s, y, nested), TextInside(s, t, Verbatim(v)), ItemsInside(s, t));
  }

  lemma {:induction false} BlockRenders(s: Setting, v: View, t: Tree)
    ensures Renders(v, PushBlockBreak(Inside(s, PushBlockBreak(v), t)), TextInside(s, t, Verbatim(v)),
                    ItemsInside(s, t))
    decreases t, 0, 1
  {
    var w := PushBlockBreak(v);
    BreakIsQuiet(v);
    hide Renders, PushBlockBreak;
    ChildrenRender(s, w, t.kids, Some(t.data));
    var x := Inside(s, w, t);
    BreakIsQuiet(x);
    RendersAmid(v, w, x, PushBlockBreak(x), TextInside(s, t, Verbatim(v)), ItemsInside(s, t));
  }

  lemma {:induction false} TableRowRenders(s: Setting, v: View, t: Tree)
    ensures Renders(v, ViewTableRow(s, v, t), TextInside(s, t, Verbatim(v)), ItemsInside(s, t))
    decreases t, 1, 0
  {
    hide Renders, PushBlockBreak, OpenRow, CloseRow;
    if |v.tables| == 0 {
      BlockRenders(s, v, t);
    } else {
      var w := OpenRow(v);
      var text, items := TextInside(s, t, Verbatim(v)), ItemsInside(s, t);
      RowOpens(v);
      DepthsAreBack(v, w, "", 0);
      ChildrenRender(s, w, t.kids, Some(t.data));
      var x := Inside(s, w, t);
      RendersBoth(v, w, x, "", text, 0, items);
      RowCloses(x);
      RendersBoth(v, x, CloseRow(x), "" + text, "", items, 0);
      assert ("" + text) + "" == text;
    }
  }

  lemma {:induction false} TableCellRenders(s: Setting, v: View, t: Tree)
    ensures Renders(v, ViewTableCell(s, v, t), TextInside(s, t, Verbatim(v)), ItemsInside(s, t))
    decreases t, 1, 0
  {
    hide Renders, PushBlockBreak, OpenCell;
    if !InRow(v) {
      BlockRenders(s, v, t);
    } else {
      var w := OpenCell(v);
      var text, items := TextInside(s, t, Verbatim(v)), ItemsInside(s, t);
      CellOpens(v);
      DepthsAreBack(v, w.(cell := v.cell), "", 0);
      ChildrenRender(s, w, t.kids, Some(t.data));
      var x := Inside(s, w, t);
      CellCloses(w, x, text, items);
      RendersBoth(v, w.(cell := v.cell), x.(cell := v.cell), "", text, 0, items);
      assert "" + text == text;
    }
  }

  // ----- what a rendering adds

  lemma NodeGrows(s: Setting, v: View, t: Tree, parent: Option<string>)
    ensures Grows(v, ViewNode(s, v, t, parent))
  {
    hide InnerText, Items, ViewNode, Said, Letters;
    NodeRenders(s, v, t, parent);
  }

  lemma ChildrenGrow(s: Setting, v: View, ts: Forest, parent: Option<string>)
    ensures Grows(v, ViewChildren(s, v, ts, parent))
  {
    hide InnerTexts, ItemsOf, ViewChildren, Said, Letters;
    ChildrenRender(s, v, ts, parent);
  }

  lemma ShowLinkGrows(s: Setting, v: View)
    ensures Grows(v, ShowLink(s, v))
  {
    hide NormalizeLabel;
  }
}
