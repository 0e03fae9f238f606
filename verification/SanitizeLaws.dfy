// What sanitizing does, said without following it: the attributes a link
// keeps, and the markup that is left.
module SanitizeLaws {
  import opened Html
  import opened SanitizeSpec
  import opened Sequences
  import opened Wrappers

  // ----- the attributes of a link

  type Choice = Attribute -> bool

  function SafeHref(p: Policy): Choice {
    a => Key(p, a) == "href" && SafeLink(p, a.val)
  }

  function AnyTitle(p: Policy): Choice {
    a => Key(p, a) == "title"
  }

  // `k` is the place of the first chosen attribute, or there is none.
  ghost predicate IsFirst(attrs: seq<Attribute>, choice: Choice, k: Option<nat>) {
    && (k.Some? ==> k.value < |attrs| && choice(attrs[k.value]))
    && forall i :: 0 <= i < (if k.Some? then k.value else |attrs|) ==> !choice(attrs[i])
  }

  function Next(k: Option<nat>): Option<nat> {
    if k.Some? then Some(k.value + 1) else None
  }

  ghost function First(attrs: seq<Attribute>, choice: Choice): (k: Option<nat>)
    ensures IsFirst(attrs, choice, k)
  {
    if attrs == [] then None else if choice(attrs[0]) then Some(0) else Next(First(attrs[1..], choice))
  }

  lemma FirstIsUnique(attrs: seq<Attribute>, choice: Choice, k: Option<nat>)
    requires IsFirst(attrs, choice, k)
    ensures k == First(attrs, choice)
  {
  }

  function Href(p: Policy, a: Attribute): Attribute {
    Attribute("", "href", p.trim(a.val))
  }

  function Title(a: Attribute): Attribute {
    Attribute("", "title", a.val)
  }

  // The attributes at two places, in source order.
  ghost function InOrder(p: Policy, attrs: seq<Attribute>, href: Option<nat>, title: Option<nat>): seq<Attribute>
    requires (href.Some? ==> href.value < |attrs|) && (title.Some? ==> title.value < |attrs|)
  {
    match (href, title)
    case (None, None) => []
    case (Some(h), None) => [Href(p, attrs[h])]
    case (None, Some(t)) => [Title(attrs[t])]
    case (Some(h), Some(t)) =>
      if h < t then [Href(p, attrs[h]), Title(attrs[t])] else [Title(attrs[t]), Href(p, attrs[h])]
  }

  // The rest of the loop, once an href, a title or both have been seen.
  lemma {:induction false} NothingAfterBoth(p: Policy, attrs: seq<Attribute>)
    ensures CleanLink(p, attrs, true, true) == []
  {
    if attrs != [] {
      NothingAfterBoth(p, attrs[1..]);
    }
  }

  lemma {:induction false} TitleAfterHref(p: Policy, attrs: seq<Attribute>)
    ensures CleanLink(p, attrs, true, false) == InOrder(p, attrs, None, First(attrs, AnyTitle(p)))
  {
    if attrs != [] {
      TitleAfterHref(p, attrs[1..]);
      NothingAfterBoth(p, attrs[1..]);
    }
  }

  lemma {:induction false} HrefAfterTitle(p: Policy, attrs: seq<Attribute>)
    ensures CleanLink(p, attrs, false, true) == InOrder(p, attrs, First(attrs, SafeHref(p)), None)
  {
    if attrs != [] {
      HrefAfterTitle(p, attrs[1..]);
      NothingAfterBoth(p, attrs[1..]);
    }
  }

  lemma FirstComesFirst(p: Policy, attrs: seq<Attribute>, h: Option<nat>, t: Option<nat>)
    requires attrs != [] && (h.Some? ==> h.value < |attrs[1..]|) && (t.Some? ==> t.value < |attrs[1..]|)
    ensures InOrder(p, attrs, Next(h), Next(t)) == InOrder(p, attrs[1..], h, t)
    ensures InOrder(p, attrs, Some(0), Next(t)) == [Href(p, attrs[0])] + InOrder(p, attrs[1..], None, t)
    ensures InOrder(p, attrs, Next(h), Some(0)) == [Title(attrs[0])] + InOrder(p, attrs[1..], h, None)
  {
    hide Href, Title;
  }

  lemma {:induction false} LinkKeepsFrom(p: Policy, attrs: seq<Attribute>)
    ensures CleanLink(p, attrs, false, false) == InOrder(p, attrs, First(attrs, SafeHref(p)), First(attrs, AnyTitle(p)))
  {
    if attrs != [] {
      hide IsFirst, SafeLink, Key, InOrder;
      var rest, h, t := attrs[1..], First(attrs[1..], SafeHref(p)), First(attrs[1..], AnyTitle(p));
      LinkKeepsFrom(p, rest);
      TitleAfterHref(p, rest);
      HrefAfterTitle(p, rest);
      FirstComesFirst(p, attrs, h, t);
    }
  }

  // A link keeps its first safe href, trimmed, and its first title, in source
  // order and in front of the protective rel, and nothing else.
  lemma LinkKeepsExactly(p: Policy, attrs: seq<Attribute>, href: Option<nat>, title: Option<nat>)
    requires IsFirst(attrs, SafeHref(p), href) && IsFirst(attrs, AnyTitle(p), title)
    ensures CleanAttributes(p, "a", attrs) == InOrder(p, attrs, href, title) + [REL]
  {
    LinkKeepsFrom(p, attrs);
    FirstIsUnique(attrs, SafeHref(p), href);
    FirstIsUnique(attrs, AnyTitle(p), title);
  }

  // ----- the markup that is left

  // A tree as a reader meets it: tags and single characters.
  datatype Event =
    | Open(kind: Kind, ref: Node, name: string, ns: string, attrs: seq<Attribute>)
    | Character(c: char)
    | Close(kind: Kind, ref: Node, name: string)

  type Markup = seq<Event>

  ghost function Characters(s: string): Markup {
    if s == "" then [] else [Character(s[0])] + Characters(s[1..])
  }

  ghost function MarkupOf(t: Tree): Markup
    decreases t, 1
  {
    if t.kind == Text then Characters(t.data)
    else [Open(t.kind, t.ref, t.data, t.ns, t.attr)] + MarkupOfAll(t.kids) + [Close(t.kind, t.ref, t.data)]
  }

  ghost function MarkupOfAll(ts: Forest): Markup
    decreases ts, 0
  {
    if ts == [] then [] else MarkupOf(ts[0]) + MarkupOfAll(ts[1..])
  }

  // One pass over the markup.  `depth` counts the open tags since one whose
  // content goes; what is inside them goes with it.
  ghost function Strain(p: Policy, es: Markup, depth: nat): Markup
    decreases es
  {
    if es == [] then []
    else if depth > 0 then
      Strain(p, es[1..], if es[0].Open? then depth + 1 else if es[0].Close? then depth - 1 else depth)
    else
      match es[0]
      case Character(_) => [es[0]] + Strain(p, es[1..], 0)
      case Open(kind, ref, name, _, attrs) =>
        if kind == Other then Strain(p, es[1..], 1)
        else if DropsSubtree(p.lower(name)) then
          Characters(if p.lower(name) == "img" then AttributeValue(p, attrs, "alt") else "") + Strain(p, es[1..], 1)
        else
          (if AllowsElement(p.lower(name)) then
             [Open(Element, ref, p.lower(name), "", CleanAttributes(p, p.lower(name), attrs))]
           else [])
          + Strain(p, es[1..], 0)
      case Close(_, ref, name) =>
        (if AllowsElement(p.lower(name)) then [Close(Element, ref, p.lower(name))] else []) + Strain(p, es[1..], 0)
  }

  lemma {:induction false} CharactersConcat(a: string, b: string)
    ensures Characters(a + b) == Characters(a) + Characters(b)
  {
    if a == "" {
      assert a + b == b;
    } else {
      CharactersConcat(a[1..], b);
      assert (a + b)[1..] == a[1..] + b;
      Associate([Character(a[0])], Characters(a[1..]), Characters(b));
    }
  }

  lemma {:induction false} MarkupConcat(a: Forest, b: Forest)
    ensures MarkupOfAll(a + b) == MarkupOfAll(a) + MarkupOfAll(b)
  {
    if a == [] {
      assert a + b == b;
    } else {
      MarkupConcat(a[1..], b);
      assert (a + b)[1..] == a[1..] + b;
      Associate(MarkupOf(a[0]), MarkupOfAll(a[1..]), MarkupOfAll(b));
    }
  }

  lemma MarkupOfOne(t: Tree)
    ensures MarkupOfAll([t]) == MarkupOf(t)
  {
    assert [t][1..] == [];
  }

  // Joining texts changes no markup.
  lemma {:induction false} MergeKeepsMarkup(ts: Forest)
    ensures MarkupOfAll(Merge(ts)) == MarkupOfAll(ts)
    decreases |ts|
  {
    if |ts| >= 2 {
      if BothText(ts[0], ts[1]) {
        var next := [Joined(ts[0], ts[1])] + ts[2..];
        MergeKeepsMarkup(next);
        assert ts[1..][1..] == ts[2..] && next[1..] == ts[2..];
        CharactersConcat(ts[0].data, ts[1].data);
        assert MarkupOf(next[0]) == Characters(ts[0].data + ts[1].data);
        assert MarkupOfAll(ts[1..]) == Characters(ts[1].data) + MarkupOfAll(ts[2..]);
        Associate(Characters(ts[0].data), Characters(ts[1].data), MarkupOfAll(ts[2..]));
      } else {
        MergeKeepsMarkup(ts[1..]);
        assert Merge(ts)[1..] == Merge(ts[1..]);
      }
    }
  }

  lemma CharacterPasses(p: Policy, c: char, rest: Markup, depth: nat)
    ensures Strain(p, [Character(c)] + rest, depth)
         == (if depth == 0 then [Character(c)] else []) + Strain(p, rest, depth)
  {
    hide DropsSubtree, AllowsElement, CleanAttributes;
    assert ([Character(c)] + rest)[1..] == rest;
  }

  lemma {:induction false} CharactersPass(p: Policy, s: string, rest: Markup, depth: nat)
    ensures Strain(p, Characters(s) + rest, depth)
         == (if depth == 0 then Characters(s) else []) + Strain(p, rest, depth)
  {
    hide Strain;
    if s == "" {
      assert Characters(s) + rest == rest;
    } else {
      CharactersPass(p, s[1..], rest, depth);
      CharacterPasses(p, s[0], Characters(s[1..]) + rest, depth);
      Associate([Character(s[0])], Characters(s[1..]), rest);
      Associate([Character(s[0])], Characters(s[1..]), Strain(p, rest, 0));
    }
  }

  // Inside a dropped element everything goes.
  lemma {:induction false} DroppedPasses(p: Policy, t: Tree, rest: Markup, depth: nat)
    requires depth > 0
    ensures Strain(p, MarkupOf(t) + rest, depth) == Strain(p, rest, depth)
    decreases t, 1
  {
    hide DropsSubtree, AllowsElement, CleanAttributes;
    if t.kind == Text {
      CharactersPass(p, t.data, rest, depth);
    } else {
      var close := [Close(t.kind, t.ref, t.data)];
      Around(t, rest);
      DroppedAllPass(p, t.kids, close + rest, depth + 1);
      assert (close + rest)[1..] == rest;
    }
  }

  lemma {:induction false} DroppedAllPass(p: Policy, ts: Forest, rest: Markup, depth: nat)
    requires depth > 0
    ensures Strain(p, MarkupOfAll(ts) + rest, depth) == Strain(p, rest, depth)
    decreases ts, 0
  {
    hide Strain;
    if ts == [] {
      assert MarkupOfAll(ts) + rest == rest;
    } else {
      DroppedPasses(p, ts[0], MarkupOfAll(ts[1..]) + rest, depth);
      DroppedAllPass(p, ts[1..], rest, depth);
      Associate(MarkupOf(ts[0]), MarkupOfAll(ts[1..]), rest);
    }
  }

  lemma Around(t: Tree, rest: Markup)
    requires t.kind != Text
    ensures
      var es := MarkupOf(t) + rest;
      && es != [] && es[0] == Open(t.kind, t.ref, t.data, t.ns, t.attr)
      && es[1..] == MarkupOfAll(t.kids) + ([Close(t.kind, t.ref, t.data)] + rest)
  {
    var open, close := [Open(t.kind, t.ref, t.data, t.ns, t.attr)], [Close(t.kind, t.ref, t.data)];
    var inner := MarkupOfAll(t.kids);
    assert MarkupOf(t) == open + inner + close;
    assert (open + inner + close) + rest == open + (inner + (close + rest));
  }

  // What sanitizing leaves of a tree is what the pass leaves of its markup.
  lemma {:induction false} MarkupIsStrained(p: Policy, t: Tree, rest: Markup)
    ensures Strain(p, MarkupOf(t) + rest, 0) == MarkupOfAll(Clean(p, t)) + Strain(p, rest, 0)
    decreases t, 1
  {
    hide DropsSubtree, AllowsElement, CleanAttributes;
    match t.kind {
    case Text =>
      CharactersPass(p, t.data, rest, 0);
      MarkupOfOne(t);
    case Other =>
      DroppedContent(p, t, rest);
    case Element =>
      var name := p.lower(t.data);
      if DropsSubtree(name) {
        DroppedContent(p, t, rest);
        if Alt(p, t) != "" {
          MarkupOfOne(Tree(t.ref, Text, Alt(p, t), "", [], []));
        }
      } else {
        KeptContent(p, t, name, rest);
      }
    }
  }

  lemma DroppedContent(p: Policy, t: Tree, rest: Markup)
    requires t.kind != Text
    ensures
      var es := MarkupOf(t) + rest;
      es != [] && es[0] == Open(t.kind, t.ref, t.data, t.ns, t.attr) && Strain(p, es[1..], 1) == Strain(p, rest, 0)
  {
    hide DropsSubtree, AllowsElement, CleanAttributes;
    Around(t, rest);
    var close := [Close(t.kind, t.ref, t.data)];
    DroppedAllPass(p, t.kids, close + rest, 1);
    assert (close + rest)[1..] == rest;
  }

  lemma {:induction false} KeptContent(p: Policy, t: Tree, name: string, rest: Markup)
    requires t.kind == Element && name == p.lower(t.data) && !DropsSubtree(name)
    ensures Strain(p, MarkupOf(t) + rest, 0) == MarkupOfAll(Clean(p, t)) + Strain(p, rest, 0)
    decreases t, 0
  {
    hide DropsSubtree, AllowsElement, CleanAttributes;
    Around(t, rest);
    var close := [Close(t.kind, t.ref, t.data)];
    MarkupsAreStrained(p, t.kids, close + rest);
    assert (close + rest)[0] == close[0] && (close + rest)[1..] == rest;
    var inner, after := MarkupOfAll(CleanF(p, t.kids)), Strain(p, rest, 0);
    if AllowsElement(name) {
      KeptMarkup(p, t, name);
      Regroup([Open(Element, t.ref, name, "", CleanAttributes(p, name, t.attr))], inner,
              [Close(Element, t.ref, name)], after);
    } else {
      Regroup([], inner, [], after);
      assert [] + inner + [] == inner;
    }
  }

  lemma KeptMarkup(p: Policy, t: Tree, name: string)
    requires t.kind == Element && name == p.lower(t.data) && !DropsSubtree(name) && AllowsElement(name)
    ensures
      MarkupOfAll(Clean(p, t))
      == [Open(Element, t.ref, name, "", CleanAttributes(p, name, t.attr))] + MarkupOfAll(CleanF(p, t.kids))
         + [Close(Element, t.ref, name)]
  {
    hide DropsSubtree, AllowsElement, CleanAttributes;
    MergeKeepsMarkup(CleanF(p, t.kids));
    MarkupOfOne(Clean(p, t)[0]);
  }

  lemma Regroup(open: Markup, inner: Markup, close: Markup, rest: Markup)
    ensures open + (inner + (close + rest)) == (open + inner + close) + rest
  {
  }

  lemma {:induction false} MarkupsAreStrained(p: Policy, ts: Forest, rest: Markup)
    ensures Strain(p, MarkupOfAll(ts) + rest, 0) == MarkupOfAll(CleanF(p, ts)) + Strain(p, rest, 0)
    decreases ts, 0
  {
    hide Strain, Clean;
    if ts == [] {
      assert MarkupOfAll(ts) + rest == rest;
    } else {
      var later := MarkupOfAll(ts[1..]) + rest;
      MarkupIsStrained(p, ts[0], later);
      MarkupsAreStrained(p, ts[1..], rest);
      Associate(MarkupOf(ts[0]), MarkupOfAll(ts[1..]), rest);
      MarkupConcat(Clean(p, ts[0]), CleanF(p, ts[1..]));
      Associate(MarkupOfAll(Clean(p, ts[0])), MarkupOfAll(CleanF(p, ts[1..])), Strain(p, rest, 0));
    }
  }

  // The sanitized body is the body's markup after one pass: every allowed tag
  // outside dropped content stays around what stays of its content, every
  // other tag goes, and every character outside dropped content stays.
  lemma SanitizingIsOnePass(p: Policy, kids: Forest)
    ensures MarkupOfAll(Merge(CleanF(p, kids))) == Strain(p, MarkupOfAll(kids), 0)
  {
    MarkupsAreStrained(p, kids, []);
    MergeKeepsMarkup(CleanF(p, kids));
    assert MarkupOfAll(kids) + [] == MarkupOfAll(kids);
  }
}
