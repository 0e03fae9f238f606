// What rendering a tree means: the tokens it issues and the state it leaves,
// with no limit on either. The renderer follows it step by step.
module PlainTextRendering {
  import opened Html
  import opened PlainTextContent
  import opened PlainTextOutput
  import opened SanitizeSpec
  import opened Sequences
  import opened Texts
  import opened Wrappers

  datatype Link = Link(href: string, text: string, nestedTargets: seq<string>)
  datatype List = List(ordered: bool, next: nat)
  datatype Table = Table(inRow: bool, cellCount: nat)

  // Link targets that a label already shows (URL and address parsing).
  type Redundant = (string, string) -> bool

  datatype Setting = Setting(policy: Policy, redundant: Redundant, legacy: bool)

  // The state of a rendering: the tokens issued so far, whether the line has
  // only its prefix yet, the stacks and depths, and how many label bytes have
  // been collected in all.
  datatype View = View(tokens: seq<Token>, prefix: bool, links: seq<Link>, lists: seq<List>, tables: seq<Table>,
                       pre: nat, code: nat, cell: nat, labels: nat)

  const BLANK := View([], false, [], [], [], 0, 0, 0, 0)

  // ----- element tables

  predicate DropsPlainText(name: string) {
    name in {"applet", "audio", "base", "button", "canvas", "embed", "form", "frame", "frameset", "head", "iframe",
             "input", "link", "math", "meta", "noscript", "object", "option", "script", "select", "source", "style",
             "svg", "template", "textarea", "track", "video"}
  }

  predicate IsParagraph(name: string) {
    name in {"blockquote", "h1", "h2", "h3", "h4", "h5", "h6", "p"}
  }

  predicate IsBlock(name: string) {
    name in {"address", "article", "aside", "blockquote", "caption", "dd", "details", "div", "dl", "dt", "figcaption",
             "figure", "footer", "form", "h1", "h2", "h3", "h4", "h5", "h6", "header", "main", "nav", "p", "section",
             "summary", "title"}
  }

  predicate IsStructural(name: string) {
    name in {"body", "html", "ol", "table", "tbody", "tfoot", "thead", "tr", "ul"}
  }

  // ----- small text functions

  function Itoa(n: nat): string {
    if n < 10 then [('0' as int + n) as char] else Itoa(n / 10) + Itoa(n % 10)
  }

  function Repeat(s: string, n: nat): string {
    if n == 0 then "" else s + Repeat(s, n - 1)
  }

  function EscapePipes(s: string): string {
    if s == "" then "" else (if s[0] == '|' then "\\|" else [s[0]]) + EscapePipes(s[1..])
  }

  lemma {:induction false} EscapedLetters(s: string)
    ensures Letters(EscapePipes(s)) == Letters(s)
  {
    if s != "" {
      EscapedLetters(s[1..]);
      if s[0] == '|' {
        LettersConcat("\\|", EscapePipes(s[1..]));
        assert "\\|"[1..] == "|" && "|"[1..] == "";
      } else {
        assert ([s[0]] + EscapePipes(s[1..]))[1..] == EscapePipes(s[1..]);
      }
    }
  }

  lemma {:induction false} SpaceHasNoLetters(s: string)
    requires AllSpace(s)
    ensures Letters(s) == ""
  {
    if s != "" {
      assert s[0] in s && AllSpace(s[1..]);
      SpaceHasNoLetters(s[1..]);
    }
  }

  // White space runs inside a label become one space.
  function NormalizeLabel(s: string, pending: bool, started: bool): string
    decreases s
  {
    if s == "" then ""
    else if IsSpace(s[0]) then NormalizeLabel(s[1..], true, started)
    else (if pending && started then " " else "") + [s[0]] + NormalizeLabel(s[1..], false, true)
  }

  function LinkTarget(p: Policy, attrs: seq<Attribute>): string {
    if attrs == [] then ""
    else if p.equalFold(attrs[0].key, "href") && SafeLink(p, attrs[0].val) then p.trim(attrs[0].val)
    else LinkTarget(p, attrs[1..])
  }

  predicate ContainsTarget(p: Policy, targets: seq<string>, target: string) {
    exists i :: 0 <= i < |targets| && p.equalFold(targets[i], target)
  }

  // ----- single steps

  function Push(v: View, token: Token): View {
    v.(tokens := v.tokens + [token])
  }

  function PushRaw(v: View, value: string): View {
    if value == "" then v else Push(v, Token(value, true, false, true, false, false))
  }

  function PushBreak(v: View): View {
    Push(v, Token("", false, false, false, true, false)).(prefix := false)
  }

  predicate AfterBreak(v: View) {
    v.tokens != [] && var last := v.tokens[|v.tokens| - 1]; last.lineBreak || last.blockBreak
  }

  predicate AfterParagraphBreak(v: View) {
    v.tokens != [] && v.tokens[|v.tokens| - 1].blockBreak
  }

  // The last token is preformatted text that ends its own line.
  predicate AfterPreformattedLine(v: View) {
    && v.tokens != []
    && var last := v.tokens[|v.tokens| - 1];
       var text := NormalizeLineEndings(last.text);
       last.preserve && last.block && text != "" && text[|text| - 1] == '\n'
  }

  function PushBlockBreak(v: View): View {
    if v.prefix || AfterBreak(v) || AfterPreformattedLine(v) then v else PushBreak(v)
  }

  function PushParagraphBreak(s: Setting, v: View): View {
    if s.legacy then PushBlockBreak(v)
    else if v.prefix || AfterParagraphBreak(v) then v
    else Push(v, Token("", false, false, false, false, true))
  }

  function PushElementBreak(s: Setting, v: View, name: string): View {
    if IsParagraph(name) then PushParagraphBreak(s, v) else if IsBlock(name) then PushBlockBreak(v) else v
  }

  function PushListBreak(s: Setting, v: View, nested: bool): View {
    if nested then PushBlockBreak(v) else PushParagraphBreak(s, v)
  }

  function Extended(links: seq<Link>, text: string): seq<Link> {
    seq(|links|, i requires 0 <= i < |links| => links[i].(text := links[i].text + text))
  }

  // Document text goes to every open label and, unless it is white space that
  // a line would start with, to the output.
  function PushText(s: Setting, v: View, value: string): View {
    if value == "" then v else WriteOnly(s, Label(v, value), value)
  }

  function Label(v: View, value: string): View {
    v.(links := Extended(v.links, value), labels := v.labels + Bytes(value) * |v.links|)
  }

  function WriteOnly(s: Setting, v: View, value: string): View {
    var text := if v.cell > 0 then EscapePipes(value) else value;
    var w := v.(prefix := v.prefix && AllSpace(value));
    if !s.legacy && AllSpace(text) && v.pre == 0 && v.code == 0 && AfterBreak(v) then w
    else Push(w, Token(text, v.pre > 0 || v.code > 0, v.pre > 0, false, false, false))
  }

  // ----- links, lists and tables

  function DropLast<T>(s: seq<T>): seq<T> {
    if s == [] then [] else s[..|s| - 1]
  }

  function OpenLink(v: View, href: string): View {
    v.(links := v.links + [Link(href, "", [])])
  }

  function WithTarget(links: seq<Link>, href: string): seq<Link> {
    seq(|links|, i requires 0 <= i < |links| => links[i].(nestedTargets := links[i].nestedTargets + [href]))
  }

  // The innermost link closes. Its target is written unless the label shows
  // it, and every enclosing link remembers it.
  function ShowLink(s: Setting, v: View): View {
    if v.links == [] then v
    else
      var link := v.links[|v.links| - 1];
      var text := NormalizeLabel(link.text, false, false);
      var shown := text != "" && link.href != "";
      var w :=
        if shown && !s.redundant(text, link.href) && !ContainsTarget(s.policy, link.nestedTargets, link.href) then
          PushRaw(v, " (" + link.href + ")")
        else v;
      w.(links := if shown then WithTarget(DropLast(v.links), link.href) else DropLast(v.links))
  }

  predicate IsOrdered(lists: seq<List>) {
    lists != [] && lists[|lists| - 1].ordered
  }

  // An item is numbered in an ordered list, and has a dash otherwise.
  function Marker(lists: seq<List>): string {
    if IsOrdered(lists) then Itoa(lists[|lists| - 1].next) + ". " else "- "
  }

  function NextItem(lists: seq<List>): seq<List> {
    if !IsOrdered(lists) then lists
    else lists[|lists| - 1 := lists[|lists| - 1].(next := lists[|lists| - 1].next + 1)]
  }

  function Indent(lists: seq<List>): string {
    Repeat("  ", if |lists| > 0 then |lists| - 1 else 0)
  }

  function StartItem(v: View): View {
    PushRaw(PushBlockBreak(v), Indent(v.lists) + Marker(v.lists)).(prefix := true, lists := NextItem(v.lists))
  }

  function SetTable(tables: seq<Table>, table: Table): seq<Table> {
    if tables == [] then [] else tables[|tables| - 1 := table]
  }

  predicate InRow(v: View) {
    v.tables != [] && v.tables[|v.tables| - 1].inRow
  }

  function OpenRow(v: View): View {
    PushRaw(PushBlockBreak(v), "| ").(tables := SetTable(v.tables, Table(true, 0)), prefix := true)
  }

  function CloseRow(v: View): View {
    var w := PushRaw(v, " |");
    PushBreak(if w.tables == [] then w
              else w.(tables := SetTable(w.tables, w.tables[|w.tables| - 1].(inRow := false))))
  }

  function OpenCell(v: View): View {
    if v.tables == [] then v
    else
      var row := v.tables[|v.tables| - 1];
      var w := if row.cellCount > 0 then PushRaw(v, " | ").(prefix := true) else v;
      w.(tables := SetTable(v.tables, row.(cellCount := row.cellCount + 1)), cell := v.cell + 1)
  }

  // ----- whole trees

  predicate IgnoresSpace(s: Setting, v: View, parent: Option<string>) {
    !(v.pre > 0 || v.code > 0 || parent.None?) && IsStructural(s.policy.lower(parent.value))
  }

  function ViewNode(s: Setting, v: View, t: Tree, parent: Option<string>): View
    decreases t, 3
  {
    match t.kind
    case Text => if AllSpace(t.data) && IgnoresSpace(s, v, parent) then v else PushText(s, v, t.data)
    case Element => ViewElement(s, v, t)
    case Other => ViewChildren(s, v, t.kids, None)
  }

  function ViewChildren(s: Setting, v: View, ts: Forest, parent: Option<string>): View
    decreases ts, 0
  {
    if ts == [] then v else ViewChildren(s, ViewNode(s, v, ts[0], parent), ts[1..], parent)
  }

  function ViewElement(s: Setting, v: View, t: Tree): View
    decreases t, 2
  {
    var name := s.policy.lower(t.data);
    if name == "img" then PushRaw(v, AttributeValue(s.policy, t.attr, "alt"))
    else if DropsPlainText(name) then v
    else if name == "br" then PushBreak(v)
    else if name == "hr" then if s.legacy then PushBreak(v) else PushParagraphBreak(s, v)
    else ViewContainer(s, v, t, name)
  }

  function ViewContainer(s: Setting, v: View, t: Tree, name: string): View
    decreases t, 1, 1
  {
    match name
    case "a" => ViewLink(s, v, t)
    case "code" => ViewCode(s, v, t)
    case "pre" => ViewPreformatted(s, v, t)
    case "ul" => ViewList(s, v, t, false)
    case "ol" => ViewList(s, v, t, true)
    case "li" => ViewListItem(s, v, t)
    case "table" => ViewTable(s, v, t)
    case "tr" => ViewTableRow(s, v, t)
    case "td" => ViewTableCell(s, v, t)
    case "th" => ViewTableCell(s, v, t)
    case _ => ViewPlainElement(s, v, t, name)
  }

  function Inside(s: Setting, v: View, t: Tree): View
    decreases t, 0
  {
    ViewChildren(s, v, t.kids, Some(t.data))
  }

  function ViewPlainElement(s: Setting, v: View, t: Tree, name: string): View
    decreases t, 1, 0
  {
    PushElementBreak(s, Inside(s, PushElementBreak(s, v, name), t), name)
  }

  function ViewCode(s: Setting, v: View, t: Tree): View
    decreases t, 1, 0
  {
    Inside(s, v.(code := v.code + 1), t).(code := v.code)
  }

  function ViewPreformatted(s: Setting, v: View, t: Tree): View
    decreases t, 1, 0
  {
    var inside := PushParagraphBreak(s, v).(pre := v.pre + 1);
    PushParagraphBreak(s, Inside(s, inside, t).(pre := v.pre))
  }

  function ViewLink(s: Setting, v: View, t: Tree): View
    decreases t, 1, 0
  {
    ShowLink(s, Inside(s, OpenLink(v, LinkTarget(s.policy, t.attr)), t))
  }

  function ViewList(s: Setting, v: View, t: Tree, ordered: bool): View
    decreases t, 1, 0
  {
    var nested := |v.lists| > 0;
    var w := PushListBreak(s, v, nested);
    var inner := Inside(s, w.(lists := w.lists + [List(ordered, 1)]), t);
    PushListBreak(s, inner.(lists := DropLast(inner.lists)), nested)
  }

  function ViewListItem(s: Setting, v: View, t: Tree): View
    decreases t, 1, 0
  {
    PushBlockBreak(Inside(s, StartItem(v), t))
  }

  function ViewTable(s: Setting, v: View, t: Tree): View
    decreases t, 1, 0
  {
    var nested := |v.tables| > 0;
    var w := PushListBreak(s, v, nested);
    var inner := Inside(s, w.(tables := w.tables + [Table(false, 0)]), t);
    PushListBreak(s, inner.(tables := DropLast(inner.tables)), nested)
  }

  function ViewTableRow(s: Setting, v: View, t: Tree): View
    decreases t, 1, 0
  {
    if |v.tables| == 0 then PushBlockBreak(Inside(s, PushBlockBreak(v), t))
    else CloseRow(Inside(s, OpenRow(v), t))
  }

  function ViewTableCell(s: Setting, v: View, t: Tree): View
    decreases t, 1, 0
  {
    if !InRow(v) then PushBlockBreak(Inside(s, PushBlockBreak(v), t))
    else Inside(s, OpenCell(v), t).(cell := v.cell)
  }
}
