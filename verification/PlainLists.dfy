// How lists are written out, for all texts of their items.
module PlainLists {
  import opened Html
  import opened PlainForms
  import opened PlainTextLayout
  import opened PlainTextOutput
  import opened PlainTextRenderer
  import opened PlainTextRendering
  import opened Sequences
  import opened Texts
  import opened Wrappers

  // ----- markers

  function Blanks(n: nat): string {
    seq(n, _ => ' ')
  }

  function MarkOf(ordered: bool, next: nat): string {
    if ordered then Itoa(next) + ". " else "- "
  }

  function DecimalValue(s: string): int {
    if s == "" then 0 else DecimalValue(s[..|s| - 1]) * 10 + (s[|s| - 1] as int - '0' as int)
  }

  // Numbers are written in decimal digits, without a leading zero.
  lemma {:induction false} ItoaIsDecimal(n: nat)
    ensures Itoa(n) != "" && (forall c :: c in Itoa(n) ==> '0' <= c <= '9')
    ensures DecimalValue(Itoa(n)) == n && (n > 0 ==> Itoa(n)[0] != '0')
    decreases n
  {
    var digit := n % 10;
    assert Itoa(digit) == [('0' as int + digit) as char];
    if n >= 10 {
      ItoaIsDecimal(n / 10);
      assert Itoa(n)[..|Itoa(n)| - 1] == Itoa(n / 10) && Itoa(n)[|Itoa(n)| - 1] == Itoa(digit)[0];
    } else {
      assert Itoa(n)[..0] == "";
    }
  }

  lemma MarkIsVisible(indent: nat, ordered: bool, next: nat)
    ensures
      var mark := Blanks(indent) + MarkOf(ordered, next);
      mark != "" && mark[0] != '\n' && mark[|mark| - 1] == ' ' && '\r' !in mark
  {
    ItoaIsDecimal(next);
    var mark := MarkOf(ordered, next);
    assert forall c :: c in mark ==> '0' <= c <= '9' || c in ". -";
    assert mark[0] in mark;
  }

  lemma {:induction false} RepeatIsBlanks(n: nat)
    ensures Repeat("  ", n) == Blanks(2 * n)
    decreases n
  {
    if n > 0 {
      RepeatIsBlanks(n - 1);
      assert "  " + Blanks(2 * n - 2) == Blanks(2 * n);
    }
  }

  // ----- outlines

  // An item with the list below it, if that has items of its own.
  datatype Outline = Outline(text: string, ordered: bool, kids: seq<Outline>)

  function ListOf(n: Node, ordered: bool, kids: Forest): Tree {
    ElementNode(n, if ordered then "ol" else "ul", kids)
  }

  function ItemNode(n: Node, o: Outline): Tree
    decreases o, 1
  {
    var below := if o.kids == [] then [] else [ListOf(n, o.ordered, ItemNodes(n, o.kids))];
    ElementNode(n, "li", [TextNode(n, o.text)] + below)
  }

  function ItemNodes(n: Node, os: seq<Outline>): Forest
    decreases os, 0
  {
    if os == [] then [] else [ItemNode(n, os[0])] + ItemNodes(n, os[1..])
  }

  ghost predicate AreItems(os: seq<Outline>) {
    os != [] ==> IsLine(os[0].text) && AreItems(os[0].kids) && AreItems(os[1..])
  }

  // ----- the lines of an outline

  datatype Entry = Entry(mark: string, text: string)

  // An item, the items below it two columns further in, then the items that
  // follow it.
  function Entries(indent: nat, ordered: bool, next: nat, os: seq<Outline>): seq<Entry>
    decreases os
  {
    if os == [] then []
    else
      ([Entry(Blanks(indent) + MarkOf(ordered, next), os[0].text)] + Entries(indent + 2, os[0].ordered, 1, os[0].kids))
      + Entries(indent, ordered, next + 1, os[1..])
  }

  function LinesOf(es: seq<Entry>): seq<string> {
    if es == [] then [] else [es[0].mark + es[0].text] + LinesOf(es[1..])
  }

  // Each entry, and such a break behind it.
  function TokensOf(es: seq<Entry>, end: Token): seq<Token> {
    if es == [] then [] else [Raw(es[0].mark), Plain(es[0].text), end] + TokensOf(es[1..], end)
  }

  lemma {:induction false} TokensConcat(a: seq<Entry>, b: seq<Entry>, end: Token)
    ensures TokensOf(a + b, end) == TokensOf(a, end) + TokensOf(b, end)
  {
    if a == [] {
      assert a + b == b;
    } else {
      TokensConcat(a[1..], b, end);
      assert (a + b)[1..] == a[1..] + b;
      Associate([Raw(a[0].mark), Plain(a[0].text), end], TokensOf(a[1..], end), TokensOf(b, end));
    }
  }

  lemma {:induction false} TokensEnd(es: seq<Entry>, end: Token)
    requires es != []
    ensures TokensOf(es, end) != [] && TokensOf(es, end)[|TokensOf(es, end)| - 1] == end
  {
    if |es| > 1 {
      TokensEnd(es[1..], end);
    }
  }

  ghost predicate AreEntries(es: seq<Entry>) {
    forall i :: 0 <= i < |es| ==> IsEntry(es[i])
  }

  ghost predicate IsEntry(e: Entry) {
    IsLine(e.text) && e.mark != "" && e.mark[0] != '\n' && e.mark[|e.mark| - 1] == ' ' && '\r' !in e.mark
  }

  lemma {:induction false} ItemsAreEntries(indent: nat, ordered: bool, next: nat, os: seq<Outline>)
    requires AreItems(os)
    ensures AreEntries(Entries(indent, ordered, next, os)) && (os != [] <==> Entries(indent, ordered, next, os) != [])
    decreases os
  {
    hide IsLine, MarkOf;
    if os != [] {
      MarkIsVisible(indent, ordered, next);
      ItemsAreEntries(indent + 2, os[0].ordered, 1, os[0].kids);
      ItemsAreEntries(indent, ordered, next + 1, os[1..]);
    }
  }

  // ----- items

  // In a list and the lists around it, at the start of a line.
  predicate InList(v: View, outer: seq<List>, ordered: bool, next: nat) {
    && v.links == [] && v.lists == outer + [List(ordered, next)] && v.tables == []
    && v.pre == 0 && v.code == 0 && v.cell == 0 && !v.prefix && AfterBreak(v)
  }

  function Later(ordered: bool, next: nat): nat {
    if ordered then next + 1 else next
  }

  // An item begins with its marker, two columns further in for every list
  // around its own.
  lemma ItemBegins(v: View, outer: seq<List>, ordered: bool, next: nat)
    requires InList(v, outer, ordered, next)
    ensures StartItem(v) == v.(tokens := v.tokens + [Raw(Blanks(2 * |outer|) + MarkOf(ordered, next))],
                               lists := outer + [List(ordered, Later(ordered, next))], prefix := true)
  {
    hide Itoa;
    MarkIsVisible(2 * |outer|, ordered, next);
    RepeatIsBlanks(|outer|);
    assert v.lists[|v.lists| - 1] == List(ordered, next);
    assert v.lists[|v.lists| - 1 := List(ordered, next + 1)] == outer + [List(ordered, next + 1)];
  }

  // What rendering some items of a list has added.
  predicate Listed(v: View, w: View, outer: seq<List>, ordered: bool, next: nat, es: seq<Entry>) {
    && w == v.(tokens := v.tokens + TokensOf(es, BREAK), lists := w.lists)
    && w.lists == outer + [List(ordered, next)]
  }

  lemma ListedNext(a: View, b: View, c: View, outer: seq<List>, ordered: bool, next: nat, es: seq<Entry>,
                   later: nat, more: seq<Entry>)
    requires Listed(a, b, outer, ordered, next, es) && Listed(b, c, outer, ordered, later, more)
    ensures Listed(a, c, outer, ordered, later, es + more)
  {
    TokensConcat(es, more, BREAK);
    Associate(a.tokens, TokensOf(es, BREAK), TokensOf(more, BREAK));
  }

  // A text and a break behind it, up to which the rest of the item stands.
  lemma TextThenBreak(v: View, text: string)
    ensures
      var w := Push(v, Plain(text)).(prefix := false);
      PushBlockBreak(w) == v.(tokens := v.tokens + [Plain(text), BREAK], prefix := false)
  {
    var w := Push(v, Plain(text)).(prefix := false);
    assert w.tokens[|w.tokens| - 1] == Plain(text);
    assert w.tokens + [BREAK] == v.tokens + [Plain(text), BREAK];
  }

  function AfterItemText(v: View, outer: seq<List>, ordered: bool, next: nat, text: string): View {
    var mark := Blanks(2 * |outer|) + MarkOf(ordered, next);
    v.(tokens := v.tokens + TokensOf([Entry(mark, text)], BREAK),
       lists := outer + [List(ordered, Later(ordered, next))])
  }

  // The item up to the list below it, and the break that this or its end adds.
  lemma ItemTextIsViewed(s: Setting, v: View, n: Node, text: string, outer: seq<List>, ordered: bool, next: nat,
                         parent: Option<string>)
    returns (w: View)
    requires IsLine(text) && InList(v, outer, ordered, next)
    ensures w == ViewNode(s, StartItem(v), TextNode(n, text), parent)
    ensures w.lists == outer + [List(ordered, Later(ordered, next))] && !w.prefix
    ensures PushBlockBreak(w) == AfterItemText(v, outer, ordered, next, text)
  {
    hide IsLine, MarkOf, PushBlockBreak, StartItem;
    ItemBegins(v, outer, ordered, next);
    TextIsViewed(s, StartItem(v), n, text, parent);
    w := Push(StartItem(v), Plain(text)).(prefix := false);
    TextThenBreak(StartItem(v), text);
    var mark := Blanks(2 * |outer|) + MarkOf(ordered, next);
    assert [Entry(mark, text)][1..] == [];
    assert TokensOf([Entry(mark, text)], BREAK) == [Raw(mark), Plain(text), BREAK];
    assert (v.tokens + [Raw(mark)]) + [Plain(text), BREAK] == v.tokens + [Raw(mark), Plain(text), BREAK];
  }

  lemma TextIsViewed(s: Setting, v: View, n: Node, text: string, parent: Option<string>)
    requires v.links == [] && v.pre == 0 && v.code == 0 && v.cell == 0 && IsLine(text)
    ensures ViewNode(s, v, TextNode(n, text), parent) == Push(v, Plain(text)).(prefix := false)
  {
    assert text[0] in text && !AllSpace(text);
    TextIsPushed(s, v, text);
  }

  lemma ListItemOpens(s: Setting, v: View, t: Tree, parent: Option<string>)
    requires KnowsNames(s.policy) && t.kind == Element && t.data == "li"
    ensures ViewNode(s, v, t, parent) == PushBlockBreak(ViewChildren(s, StartItem(v), t.kids, Some("li")))
  {
    hide StartItem, PushBlockBreak, DropsPlainText;
    ContainersAreKept();
    ElementIsViewed(s, v, t, "li", parent);
    assert ViewContainer(s, v, t, "li") == ViewListItem(s, v, t);
    assert Inside(s, StartItem(v), t) == ViewChildren(s, StartItem(v), t.kids, Some("li"));
  }

  lemma ItemOpens(s: Setting, v: View, n: Node, o: Outline, parent: Option<string>)
    requires KnowsNames(s.policy)
    ensures
      ViewNode(s, v, ItemNode(n, o), parent)
      == PushBlockBreak(ViewChildren(s, ViewNode(s, StartItem(v), TextNode(n, o.text), Some("li")),
                                     ItemNode(n, o).kids[1..], Some("li")))
  {
    hide StartItem, PushBlockBreak, ViewNode, ItemNodes;
    var t := ItemNode(n, o);
    ListItemOpens(s, v, t, parent);
    assert t.kids[0] == TextNode(n, o.text);
  }

  // A list opens with a break in front of it and closes with one behind.
  lemma ListOpens(s: Setting, v: View, n: Node, ordered: bool, kids: Forest, parent: Option<string>)
    requires KnowsNames(s.policy)
    ensures
      var open := PushListBreak(s, v, |v.lists| > 0);
      var inner := ViewChildren(s, open.(lists := open.lists + [List(ordered, 1)]), kids,
                                Some(if ordered then "ol" else "ul"));
      ViewNode(s, v, ListOf(n, ordered, kids), parent)
      == PushListBreak(s, inner.(lists := DropLast(inner.lists)), |v.lists| > 0)
  {
    hide PushListBreak, DropsPlainText;
    var t, name := ListOf(n, ordered, kids), if ordered then "ol" else "ul";
    ContainersAreKept();
    ElementIsViewed(s, v, t, name, parent);
    assert ViewContainer(s, v, t, name) == ViewList(s, v, t, ordered);
    var open := PushListBreak(s, v, |v.lists| > 0);
    var inside := open.(lists := open.lists + [List(ordered, 1)]);
    assert Inside(s, inside, t) == ViewChildren(s, inside, kids, Some(name));
  }

  lemma BreakOnce(v: View)
    requires AfterBreak(v) || v.prefix
    ensures PushBlockBreak(v) == v
  {
  }

  // The item's own line, then those of the list below it.
  lemma {:induction false} ItemIsViewed(s: Setting, v: View, n: Node, o: Outline, outer: seq<List>, ordered: bool,
                                        next: nat, parent: Option<string>)
    returns (w: View, es: seq<Entry>)
    requires KnowsNames(s.policy) && IsLine(o.text) && AreItems(o.kids) && InList(v, outer, ordered, next)
    ensures w == ViewNode(s, v, ItemNode(n, o), parent)
    ensures es == [Entry(Blanks(2 * |outer|) + MarkOf(ordered, next), o.text)]
                  + Entries(2 * |outer| + 2, o.ordered, 1, o.kids)
    ensures Listed(v, w, outer, ordered, Later(ordered, next), es)
    ensures InList(w, outer, ordered, Later(ordered, next))
    decreases o, 1
  {
    hide IsLine, MarkOf, StartItem, PushBlockBreak, ViewNode, AreItems, Entries, ItemNodes, KnowsNames;
    w := ViewNode(s, v, ItemNode(n, o), parent);
    var x := ItemTextIsViewed(s, v, n, o.text, outer, ordered, next, Some("li"));
    var y := AfterItemText(v, outer, ordered, next, o.text);
    var e := Entry(Blanks(2 * |outer|) + MarkOf(ordered, next), o.text);
    ItemOpens(s, v, n, o, parent);
    TokensEnd([e], BREAK);
    assert y.tokens[|y.tokens| - 1] == BREAK;
    es := [e] + Entries(2 * |outer| + 2, o.ordered, 1, o.kids);
    if o.kids == [] {
      NoEntries(2 * |outer| + 2, o.ordered);
      assert ItemNode(n, o).kids[1..] == [] && [e] + [] == [e];
    } else {
      var z := ListBelow(s, x, y, n, o, Some("li"));
      assert ItemNode(n, o).kids[1..] == [ListOf(n, o.ordered, ItemNodes(n, o.kids))];
      OneNode(s, x, ListOf(n, o.ordered, ItemNodes(n, o.kids)), Some("li"));
      BreakOnce(z);
      TokensConcat([e], Entries(2 * |outer| + 2, o.ordered, 1, o.kids), BREAK);
      Associate(v.tokens, TokensOf([e], BREAK), TokensOf(Entries(2 * |outer| + 2, o.ordered, 1, o.kids), BREAK));
    }
  }

  lemma OneNode(s: Setting, v: View, t: Tree, parent: Option<string>)
    ensures ViewChildren(s, v, [t], parent) == ViewNode(s, v, t, parent)
  {
    hide ViewNode;
    assert [t][1..] == [];
  }

  lemma NoEntries(indent: nat, ordered: bool)
    ensures Entries(indent, ordered, 1, []) == []
  {
  }

  // A list inside an item has its lines and no blank line around them.
  lemma {:induction false} ListBelow(s: Setting, x: View, y: View, n: Node, o: Outline, parent: Option<string>)
    returns (z: View)
    requires KnowsNames(s.policy) && AreItems(o.kids) && o.kids != [] && !x.prefix
    requires x.lists != [] && y == PushBlockBreak(x) && AfterBreak(y)
    requires y.links == [] && y.tables == [] && y.pre == 0 && y.code == 0 && y.cell == 0 && !y.prefix
    requires y.lists == x.lists
    ensures z == ViewNode(s, x, ListOf(n, o.ordered, ItemNodes(n, o.kids)), parent)
    ensures z == y.(tokens := y.tokens + TokensOf(Entries(2 * |y.lists|, o.ordered, 1, o.kids), BREAK))
    ensures AfterBreak(z)
    decreases o, 0
  {
    hide IsLine, ViewNode, ViewChildren, Entries, AreItems, PushBlockBreak, TokensOf, ItemNodes, KnowsNames;
    ListOpens(s, x, n, o.ordered, ItemNodes(n, o.kids), parent);
    var v := y.(lists := y.lists + [List(o.ordered, 1)]);
    var inner := ItemsAreViewed(s, v, n, o.kids, y.lists, o.ordered, 1, Some(if o.ordered then "ol" else "ul"));
    z := inner.(lists := DropLast(inner.lists));
    assert z.lists == y.lists;
    BreakOnce(z);
  }

  lemma {:induction false} ItemsAreViewed(s: Setting, v: View, n: Node, os: seq<Outline>, outer: seq<List>,
                                          ordered: bool, next: nat, parent: Option<string>)
    returns (w: View)
    requires KnowsNames(s.policy) && AreItems(os) && InList(v, outer, ordered, next)
    ensures w == ViewChildren(s, v, ItemNodes(n, os), parent)
    ensures Listed(v, w, outer, ordered, if ordered then next + |os| else next,
                   Entries(2 * |outer|, ordered, next, os))
    ensures InList(w, outer, ordered, if ordered then next + |os| else next)
    decreases os
  {
    hide IsLine, MarkOf, ViewNode, ItemNode, Listed, InList, KnowsNames;
    w := ViewChildren(s, v, ItemNodes(n, os), parent);
    if os == [] {
      ListedNothing(v, outer, ordered, next);
    } else {
      var x, es := ItemIsViewed(s, v, n, os[0], outer, ordered, next, parent);
      var y := ItemsAreViewed(s, x, n, os[1..], outer, ordered, Later(ordered, next), parent);
      SameMarks(2 * |outer|, ordered, Later(ordered, next), next + 1, os[1..]);
      var later := if ordered then next + |os| else next;
      ListedNext(v, x, w, outer, ordered, Later(ordered, next), es, later,
                 Entries(2 * |outer|, ordered, next + 1, os[1..]));
    }
  }

  lemma ListedNothing(v: View, outer: seq<List>, ordered: bool, next: nat)
    requires InList(v, outer, ordered, next)
    ensures Listed(v, v, outer, ordered, next, [])
  {
    assert v.tokens + [] == v.tokens;
  }

  lemma {:induction false} SameMarks(indent: nat, ordered: bool, a: nat, b: nat, os: seq<Outline>)
    requires ordered ==> a == b
    ensures Entries(indent, ordered, a, os) == Entries(indent, ordered, b, os)
    decreases |os|
  {
    if os != [] {
      SameMarks(indent, ordered, a + 1, b + 1, os[1..]);
    }
  }

  // ----- what is written

  lemma {:induction false} EntriesStand(legacy: bool, es: seq<Event>, out: string, entries: seq<Entry>, end: Token)
    requires AreEntries(entries) && end in {BREAK, PARAGRAPH} && Stands(legacy, es, out, EventsOf(end))
    ensures
      var gap := EventsOf(end);
      var all := out + if entries == [] then "" else Between(out, gap) + Joined(LinesOf(entries), Between("x", gap));
      Stands(legacy, es + Events(TokensOf(entries, end)), all, gap)
    decreases entries
  {
    hide Stands, IsLine;
    if entries == [] {
      assert es + Events([]) == es && out + "" == out;
    } else {
      var mark, text := entries[0].mark, entries[0].text;
      var written := ItemStands(legacy, es, out, mark, text, end);
      EntriesStand(legacy, es + Events([Raw(mark), Plain(text), end]), written, entries[1..], end);
      EventsNext(es, [Raw(mark), Plain(text), end], TokensOf(entries[1..], end));
      LinesNext(entries);
      JoinedNext(out, Between(out, EventsOf(end)), LinesOf(entries), Between("x", EventsOf(end)));
    }
  }

  lemma LinesNext(es: seq<Entry>)
    requires es != []
    ensures
      var lines := LinesOf(es);
      && lines != [] && lines[0] == es[0].mark + es[0].text
      && lines[1..] == LinesOf(es[1..]) && (lines[1..] == [] <==> es[1..] == [])
  {
  }

  lemma ItemStands(legacy: bool, es: seq<Event>, out: string, mark: string, text: string, end: Token)
    returns (written: string)
    requires end in {BREAK, PARAGRAPH} && Stands(legacy, es, out, EventsOf(end)) && IsLine(text)
    requires mark != "" && mark[|mark| - 1] == ' ' && '\r' !in mark
    ensures written == out + Between(out, EventsOf(end)) + (mark + text) && written != ""
    ensures Stands(legacy, es + Events([Raw(mark), Plain(text), end]), written, EventsOf(end))
  {
    hide Stands, IsLine;
    LineEnds(text);
    var gap := EventsOf(end);
    var marked := out + Between(out, gap) + mark;
    var a := es + EventsOf(Raw(mark));
    MarkStands(legacy, es, out, gap, mark);
    TextStands(legacy, a, marked, [], text);
    written := marked + Between(marked, []) + text;
    BreakStands(legacy, a + EventsOf(Plain(text)), written, end);
    EventsOfThree(es, Raw(mark), Plain(text), end);
    assert written == out + Between(out, gap) + (mark + text);
  }

  lemma EventsOfThree(es: seq<Event>, a: Token, b: Token, c: Token)
    ensures es + Events([a, b, c]) == ((es + EventsOf(a)) + EventsOf(b)) + EventsOf(c)
  {
    EventsOfTwo(es + EventsOf(a), b, c);
    assert [a, b, c][1..] == [b, c];
    Associate(es, EventsOf(a), Events([b, c]));
  }

  lemma {:induction false} LinesEnd(es: seq<Entry>, separator: string)
    requires AreEntries(es)
    ensures
      var all := Joined(LinesOf(es), separator);
      (es == [] <==> all == "") && (all != "" ==> all[0] != '\n' && all[|all| - 1] != '\n')
    decreases es
  {
    hide IsLine;
    if es != [] {
      LineEnds(es[0].text);
      LinesEnd(es[1..], separator);
      LinesNext(es);
    }
  }

  // ----- a list and what surrounds it

  // The breaks around an outermost list or table.
  lemma ListBreaks(s: Setting, v: View)
    requires !v.prefix
    ensures PushListBreak(s, BLANK, false) == Push(BLANK, if s.legacy then BREAK else PARAGRAPH)
    ensures v.tokens != [] && v.tokens[|v.tokens| - 1] == BREAK ==>
              PushListBreak(s, v, false) == v.(tokens := v.tokens + if s.legacy then [] else [PARAGRAPH])
    ensures v.tokens == [if s.legacy then BREAK else PARAGRAPH] ==> PushListBreak(s, v, false) == v
    ensures v.tokens != [] && v.tokens[|v.tokens| - 1] == PARAGRAPH ==> PushListBreak(s, v, false) == v
  {
    assert v.tokens + [] == v.tokens;
  }

  function FirstOf(s: Setting): Token {
    if s.legacy then BREAK else PARAGRAPH
  }

  // What stands behind a list whose last token this is.
  function LastOf(s: Setting, items: seq<Token>, end: Token): seq<Token> {
    if end == FirstOf(s) || items == [] then [] else [PARAGRAPH]
  }

  function Started(s: Setting, ordered: bool): View {
    Push(BLANK, FirstOf(s)).(lists := [List(ordered, 1)])
  }

  lemma StartIsInList(s: Setting, ordered: bool)
    ensures InList(Started(s, ordered), [], ordered, 1) && Started(s, ordered).tokens == [FirstOf(s)]
  {
    var v := Started(s, ordered);
    assert [] + [List(ordered, 1)] == [List(ordered, 1)] && [] + [FirstOf(s)] == [FirstOf(s)];
    assert v.tokens[|v.tokens| - 1] == FirstOf(s);
  }

  lemma OuterListIsViewed(s: Setting, n: Node, ordered: bool, kids: Forest, items: seq<Token>, end: Token, inner: View)
    requires KnowsNames(s.policy) && end in {BREAK, PARAGRAPH} && (s.legacy ==> end == BREAK)
    requires inner == ViewChildren(s, Started(s, ordered), kids, Some(if ordered then "ol" else "ul"))
    requires inner == Started(s, ordered).(tokens := [FirstOf(s)] + items, lists := inner.lists) && |inner.lists| == 1
    requires items != [] ==> items[|items| - 1] == end
    ensures ViewNode(s, BLANK, ListOf(n, ordered, kids), None).tokens
         == [FirstOf(s)] + (items + LastOf(s, items, end))
  {
    hide PushListBreak, ViewChildren, ViewNode, KnowsNames;
    ListOpens(s, BLANK, n, ordered, kids, None);
    ListBreaks(s, BLANK);
    assert [] + [List(ordered, 1)] == [List(ordered, 1)];
    var w := inner.(lists := DropLast(inner.lists));
    ListBreaks(s, w);
    Associate([FirstOf(s)], items, LastOf(s, items, end));
    if items != [] {
      assert w.tokens[|w.tokens| - 1] == end;
      assert w.tokens + [] == w.tokens;
    } else {
      assert w.tokens == [FirstOf(s)] == [FirstOf(s)] + [];
    }
  }

  lemma {:induction false} EntriesAreWritten(s: Setting, entries: seq<Entry>, end: Token)
    requires AreEntries(entries) && end in {BREAK, PARAGRAPH} && (s.legacy ==> end == BREAK)
    ensures
      var items := TokensOf(entries, end);
      TrimNewlines(Written(s.legacy, [FirstOf(s)] + (items + LastOf(s, items, end))))
      == Joined(LinesOf(entries), if end == BREAK then "\n" else "\n\n")
  {
    hide IsLine, Stands, Joined, AreEntries, TokensOf, LinesOf, TrimNewlines, Written;
    var separator := Between("x", EventsOf(end));
    var all, items := Joined(LinesOf(entries), separator), TokensOf(entries, end);
    StartStands(s.legacy, FirstOf(s));
    EntriesStand(s.legacy, EventsOf(FirstOf(s)), "", entries, end);
    LinesEnd(entries, separator);
    assert "" + ("" + all) == all && "" + "" == "";
    FormWithBreakIsWritten(s.legacy, FirstOf(s), items, LastOf(s, items, end), all, EventsOf(end));
  }

  lemma {:induction false} EntriesEnd(entries: seq<Entry>, end: Token)
    ensures var items := TokensOf(entries, end); items != [] ==> items[|items| - 1] == end
  {
    if entries != [] {
      TokensEnd(entries, end);
    }
  }

  // A list has an item on each line, numbered from one or behind a dash, and
  // behind each item, two columns further in, the lines of the list below it.
  lemma ListsAreWritten(s: Setting, n: Node, ordered: bool, os: seq<Outline>)
    requires KnowsNames(s.policy) && AreItems(os)
    ensures PlainText(s, ListOf(n, ordered, ItemNodes(n, os))) == Joined(LinesOf(Entries(0, ordered, 1, os)), "\n")
  {
    hide IsLine, Joined, ViewNode, ViewChildren, AreItems, Entries, TokensOf, LinesOf, TrimNewlines, Written, LastOf;
    var entries := Entries(0, ordered, 1, os);
    StartIsInList(s, ordered);
    var inner := ItemsAreViewed(s, Started(s, ordered), n, os, [], ordered, 1, Some(if ordered then "ol" else "ul"));
    EntriesEnd(entries, BREAK);
    OuterListIsViewed(s, n, ordered, ItemNodes(n, os), TokensOf(entries, BREAK), BREAK, inner);
    ItemsAreEntries(0, ordered, 1, os);
    EntriesAreWritten(s, entries, BREAK);
  }

  // ----- lists whose items are blocks

  // An item for each text, which a block in it holds.
  function BlockItems(n: Node, name: string, texts: seq<string>): Forest {
    if texts == [] then []
    else [ElementNode(n, "li", [ElementNode(n, name, [TextNode(n, texts[0])])])] + BlockItems(n, name, texts[1..])
  }

  function Leaves(texts: seq<string>): seq<Outline> {
    if texts == [] then [] else [Outline(texts[0], false, [])] + Leaves(texts[1..])
  }

  // The marker stays on the line of the block's text.
  lemma BlockItemIsViewed(s: Setting, v: View, n: Node, name: string, text: string, ordered: bool, next: nat,
                          parent: Option<string>)
    returns (w: View)
    requires KnowsNames(s.policy) && IsTextBlock(s.policy, name) && IsLine(text) && InList(v, [], ordered, next)
    ensures w == ViewNode(s, v, ElementNode(n, "li", [ElementNode(n, name, [TextNode(n, text)])]), parent)
    ensures w == v.(tokens := v.tokens + [Raw(MarkOf(ordered, next)), Plain(text), EndOf(s, name)],
                    lists := [List(ordered, Later(ordered, next))])
    ensures InList(w, [], ordered, Later(ordered, next))
  {
    hide IsLine, MarkOf, StartItem, PushBlockBreak, ViewNode, IsTextBlock, KnowsNames, PushElementBreak;
    var t, mark := ElementNode(n, name, [TextNode(n, text)]), MarkOf(ordered, next);
    var item := ElementNode(n, "li", [t]);
    w := ViewNode(s, v, item, parent);
    ListItemOpens(s, v, item, parent);
    ItemBegins(v, [], ordered, next);
    assert Blanks(0) + mark == mark;
    assert [] + [List(ordered, Later(ordered, next))] == [List(ordered, Later(ordered, next))];
    var x := StartItem(v);
    OneNode(s, x, t, Some("li"));
    BlockOnMarkerLine(s, x, n, name, text, Some("li"));
    var y := x.(tokens := x.tokens + [Plain(text), EndOf(s, name)], prefix := false);
    assert y.tokens[|y.tokens| - 1] == EndOf(s, name);
    BreakOnce(y);
    assert (v.tokens + [Raw(mark)]) + [Plain(text), EndOf(s, name)]
        == v.tokens + [Raw(mark), Plain(text), EndOf(s, name)];
  }

  lemma BlockOnMarkerLine(s: Setting, v: View, n: Node, name: string, text: string, parent: Option<string>)
    requires IsTextBlock(s.policy, name) && IsLine(text) && v.prefix
    requires v.links == [] && v.pre == 0 && v.code == 0 && v.cell == 0
    ensures ViewNode(s, v, ElementNode(n, name, [TextNode(n, text)]), parent)
         == v.(tokens := v.tokens + [Plain(text), EndOf(s, name)], prefix := false)
  {
    hide IsSpace, DropsPlainText, IsParagraph, IsBlock, IsLine;
    var t := ElementNode(n, name, [TextNode(n, text)]);
    BlockIsPlain(s, v, t, name);
    ElementIsViewed(s, v, t, name, parent);
    assert PushElementBreak(s, v, name) == v;
    OneTextInside(s, v, n, t, text);
    var w := Push(v, Plain(text)).(prefix := false);
    assert w.tokens[|w.tokens| - 1] == Plain(text);
    assert (v.tokens + [Plain(text)]) + [EndOf(s, name)] == v.tokens + [Plain(text), EndOf(s, name)];
  }

  lemma {:induction false} BlockItemsAreViewed(s: Setting, v: View, n: Node, name: string, texts: seq<string>,
                                               ordered: bool, next: nat, parent: Option<string>)
    returns (w: View)
    requires KnowsNames(s.policy) && IsTextBlock(s.policy, name) && AreLines(texts) && InList(v, [], ordered, next)
    ensures w == ViewChildren(s, v, BlockItems(n, name, texts), parent)
    ensures w == v.(tokens := v.tokens + TokensOf(Entries(0, ordered, next, Leaves(texts)), EndOf(s, name)),
                    lists := w.lists)
    ensures |w.lists| == 1
    decreases texts
  {
    hide IsLine, MarkOf, ViewNode, InList, KnowsNames, IsTextBlock, EndOf;
    if texts == [] {
      w := v;
      assert v.tokens + [] == v.tokens;
      OneList(v, ordered, next);
    } else {
      var x := BlockItemIsViewed(s, v, n, name, texts[0], ordered, next, parent);
      assert AreLines(texts[1..]);
      w := BlockItemsAreViewed(s, x, n, name, texts[1..], ordered, Later(ordered, next), parent);
      SameMarks(0, ordered, Later(ordered, next), next + 1, Leaves(texts[1..]));
      LeavesNext(ordered, next, texts);
      Associate(v.tokens, [Raw(MarkOf(ordered, next)), Plain(texts[0]), EndOf(s, name)],
                TokensOf(Entries(0, ordered, next + 1, Leaves(texts[1..])), EndOf(s, name)));
    }
  }

  lemma OneList(v: View, ordered: bool, next: nat)
    requires InList(v, [], ordered, next)
    ensures |v.lists| == 1
  {
  }

  lemma LeavesNext(ordered: bool, next: nat, texts: seq<string>)
    requires texts != []
    ensures
      var es := Entries(0, ordered, next, Leaves(texts));
      && es == [Entry(MarkOf(ordered, next), texts[0])] + Entries(0, ordered, next + 1, Leaves(texts[1..]))
      && es[1..] == Entries(0, ordered, next + 1, Leaves(texts[1..]))
  {
    hide MarkOf;
    NoEntries(2, false);
    assert Leaves(texts)[0] == Outline(texts[0], false, []) && Leaves(texts)[1..] == Leaves(texts[1..]);
    assert Blanks(0) + MarkOf(ordered, next) == MarkOf(ordered, next);
    var e := Entry(MarkOf(ordered, next), texts[0]);
    assert [e] + [] == [e];
  }

  lemma {:induction false} LeavesAreItems(texts: seq<string>)
    requires AreLines(texts)
    ensures AreItems(Leaves(texts)) && (texts == [] <==> Leaves(texts) == [])
  {
    hide IsLine;
    if texts != [] {
      assert AreLines(texts[1..]);
      LeavesAreItems(texts[1..]);
      assert Leaves(texts)[1..] == Leaves(texts[1..]);
    }
  }

  // Items that are paragraphs have a blank line between them, other blocks and
  // the legacy form have none; the marker is on the line of the text.
  lemma BlockListsAreWritten(s: Setting, n: Node, ordered: bool, name: string, texts: seq<string>)
    requires KnowsNames(s.policy) && IsTextBlock(s.policy, name) && AreLines(texts)
    ensures PlainText(s, ListOf(n, ordered, BlockItems(n, name, texts)))
         == Joined(LinesOf(Entries(0, ordered, 1, Leaves(texts))),
                   if IsParagraph(name) && !s.legacy then "\n\n" else "\n")
  {
    hide IsLine, Joined, ViewNode, ViewChildren, Entries, TokensOf, LinesOf, TrimNewlines, Written, LastOf;
    hide IsParagraph, IsTextBlock;
    var entries, end := Entries(0, ordered, 1, Leaves(texts)), EndOf(s, name);
    StartIsInList(s, ordered);
    var inner := BlockItemsAreViewed(s, Started(s, ordered), n, name, texts, ordered, 1,
                                     Some(if ordered then "ol" else "ul"));
    EntriesEnd(entries, end);
    OuterListIsViewed(s, n, ordered, BlockItems(n, name, texts), TokensOf(entries, end), end, inner);
    LeavesAreItems(texts);
    ItemsAreEntries(0, ordered, 1, Leaves(texts));
    EntriesAreWritten(s, entries, end);
  }
}
