// The recursive meaning of draft sanitization, and what it guarantees.
//
// Nothing here touches the heap: `Clean` maps the tree of a node to the trees
// that survive it, naming the surviving node objects.
module SanitizeSpec {
  import opened Html
  import opened Sequences
  import opened Wrappers

  // Library code the sanitizer consults: case mapping, trimming, the
  // case-insensitive comparison and URL parsing.  `scheme` is None for text
  // that does not parse; a URL is absolute when its scheme is not empty.
  datatype Policy = Policy(
    lower: string -> string,
    trim: string -> string,
    equalFold: (string, string) -> bool,
    scheme: string -> Option<string>
  )

  ghost predicate Lawful(p: Policy) {
    && (forall s: string :: p.lower(p.lower(s)) == p.lower(s))
    && (forall s: string :: p.trim(p.trim(s)) == p.trim(s))
    && (forall k: string :: k in {"href", "title", "rel"} ==> p.lower(k) == k && p.trim(k) == k)
  }

  const REL := Attribute("", "rel", "nofollow noreferrer")

  predicate AllowsElement(name: string) {
    name in {"a", "b", "blockquote", "br", "code", "del", "em", "h1", "h2", "h3", "h4", "h5", "h6",
             "hr", "i", "li", "ol", "p", "pre", "s", "strong", "table", "tbody", "td", "tfoot", "th", "thead",
             "tr", "u", "ul"}
  }

  predicate DropsSubtree(name: string) {
    name in {"applet", "audio", "base", "button", "canvas", "embed", "form", "frame", "frameset", "iframe", "img",
             "input", "link", "math", "noscript", "object", "option", "script", "select", "source", "style",
             "template", "textarea", "track", "video"}
  }

  predicate AllowsScheme(p: Policy, scheme: string) {
    p.lower(scheme) in {"http", "https", "mailto"}
  }

  predicate SafeLink(p: Policy, value: string) {
    var parsed := p.scheme(p.trim(value));
    parsed.Some? && parsed.value != "" && AllowsScheme(p, parsed.value)
  }

  function AttributeValue(p: Policy, attrs: seq<Attribute>, key: string): string {
    if attrs == [] then ""
    else if p.equalFold(attrs[0].key, key) then attrs[0].val
    else AttributeValue(p, attrs[1..], key)
  }

  function Key(p: Policy, a: Attribute): string {
    p.lower(p.trim(a.key))
  }

  predicate HrefSeen(p: Policy, a: Attribute, href: bool) {
    href || (Key(p, a) == "href" && SafeLink(p, a.val))
  }

  predicate TitleSeen(p: Policy, a: Attribute, title: bool) {
    title || Key(p, a) == "title"
  }

  function KeptAttribute(p: Policy, a: Attribute, href: bool, title: bool): seq<Attribute> {
    if Key(p, a) == "href" && !href && SafeLink(p, a.val) then [Attribute("", "href", p.trim(a.val))]
    else if Key(p, a) == "title" && !title then [Attribute("", "title", a.val)]
    else []
  }

  // The attributes a link keeps: the first safe href, the first title.
  function CleanLink(p: Policy, attrs: seq<Attribute>, href: bool, title: bool): seq<Attribute> {
    if attrs == [] then []
    else
      KeptAttribute(p, attrs[0], href, title)
      + CleanLink(p, attrs[1..], HrefSeen(p, attrs[0], href), TitleSeen(p, attrs[0], title))
  }

  function CleanAttributes(p: Policy, name: string, attrs: seq<Attribute>): seq<Attribute> {
    if name != "a" then [] else CleanLink(p, attrs, false, false) + [REL]
  }

  // ----- the meaning of a subtree

  ghost function Alt(p: Policy, t: Tree): string {
    if p.lower(t.data) == "img" then AttributeValue(p, t.attr, "alt") else ""
  }

  ghost function Clean(p: Policy, t: Tree): Forest
    decreases t, 1
  {
    match t.kind
    case Text => [t]
    case Other => []
    case Element =>
      var name := p.lower(t.data);
      if DropsSubtree(name) then
        if Alt(p, t) == "" then [] else [Tree(t.ref, Text, Alt(p, t), "", [], [])]
      else if !AllowsElement(name) then CleanF(p, t.kids)
      else [Tree(t.ref, Element, name, "", CleanAttributes(p, name, t.attr), Merge(CleanF(p, t.kids)))]
  }

  ghost function CleanF(p: Policy, ts: Forest): Forest
    decreases ts, 0
  {
    if ts == [] then [] else Clean(p, ts[0]) + CleanF(p, ts[1..])
  }

  ghost predicate BothText(a: Tree, b: Tree) {
    a.kind == Text && b.kind == Text
  }

  ghost function Joined(a: Tree, b: Tree): Tree {
    a.(data := a.data + b.data)
  }

  // Every run of adjacent text siblings becomes its first node.
  ghost function Merge(ts: Forest): Forest
    decreases |ts|
  {
    if |ts| < 2 then ts
    else if BothText(ts[0], ts[1]) then Merge([Joined(ts[0], ts[1])] + ts[2..])
    else [ts[0]] + Merge(ts[1..])
  }

  // ----- no node is invented or duplicated

  lemma {:induction false} MergeNodes(ts: Forest)
    ensures NodesF(Merge(ts)) <= NodesF(ts)
    ensures ProperF(ts) ==> ProperF(Merge(ts))
    decreases |ts|
  {
    if |ts| >= 2 {
      assert ts[1..][1..] == ts[2..];
      if BothText(ts[0], ts[1]) {
        var next := [Joined(ts[0], ts[1])] + ts[2..];
        assert next[0] == Joined(ts[0], ts[1]) && next[1..] == ts[2..];
        assert NodesF(ts) == Nodes(ts[0]) + (Nodes(ts[1]) + NodesF(ts[2..]));
        assert NodesF(next) == Nodes(ts[0]) + NodesF(ts[2..]);
        if ProperF(ts) {
          assert Proper(ts[0]) && ProperF(ts[1..]);
          assert Proper(next[0]);
          assert ProperF(next);
        }
        MergeNodes(next);
      } else {
        MergeNodes(ts[1..]);
        assert Merge(ts)[1..] == Merge(ts[1..]);
      }
    }
  }

  lemma {:induction false} CleanNodes(p: Policy, t: Tree)
    ensures NodesF(Clean(p, t)) <= Nodes(t)
    ensures Proper(t) ==> ProperF(Clean(p, t))
    decreases t, 1
  {
    CleanNodesF(p, t.kids);
    MergeNodes(CleanF(p, t.kids));
    if t.kind == Text {
      assert [t][1..] == [];
    }
  }

  lemma {:induction false} CleanNodesF(p: Policy, ts: Forest)
    ensures NodesF(CleanF(p, ts)) <= NodesF(ts)
    ensures ProperF(ts) ==> ProperF(CleanF(p, ts))
    decreases ts, 0
  {
    if ts != [] {
      CleanNodes(p, ts[0]);
      CleanNodesF(p, ts[1..]);
      NodesConcat(Clean(p, ts[0]), CleanF(p, ts[1..]));
      ProperConcat(Clean(p, ts[0]), CleanF(p, ts[1..]));
    }
  }
}
