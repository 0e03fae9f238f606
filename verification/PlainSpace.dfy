// White space between the children of lists, tables and other structural
// elements.
module PlainSpace {
  import opened Html
  import opened PlainForms
  import opened PlainTextRenderer
  import opened PlainTextRendering
  import opened RenderingFacts
  import opened Texts
  import opened Wrappers

  // White space in front of each tree and behind the last one.
  function Padded(n: Node, space: string, ts: Forest): Forest {
    [TextNode(n, space)] + if ts == [] then [] else [ts[0]] + Padded(n, space, ts[1..])
  }

  lemma ViewNext(s: Setting, v: View, t: Tree, ts: Forest, parent: Option<string>)
    ensures ViewChildren(s, v, [t] + ts, parent) == ViewChildren(s, ViewNode(s, v, t, parent), ts, parent)
  {
    hide ViewNode;
    assert ([t] + ts)[0] == t && ([t] + ts)[1..] == ts;
  }

  lemma SpaceIsIgnored(s: Setting, v: View, n: Node, space: string, ts: Forest, parent: string)
    requires AllSpace(space) && IgnoresSpace(s, v, Some(parent))
    ensures ViewChildren(s, v, [TextNode(n, space)] + ts, Some(parent)) == ViewChildren(s, v, ts, Some(parent))
  {
    ViewNext(s, v, TextNode(n, space), ts, Some(parent));
    assert ViewNode(s, v, TextNode(n, space), Some(parent)) == v;
  }

  lemma NodeKeepsDepths(s: Setting, v: View, t: Tree, parent: Option<string>)
    ensures ViewNode(s, v, t, parent).pre == v.pre && ViewNode(s, v, t, parent).code == v.code
  {
    hide ViewNode, InnerText, Items;
    NodeRenders(s, v, t, parent);
  }

  lemma {:induction false} PaddingIsNothing(s: Setting, v: View, n: Node, space: string, ts: Forest, parent: string)
    requires AllSpace(space) && IgnoresSpace(s, v, Some(parent))
    ensures ViewChildren(s, v, Padded(n, space, ts), Some(parent)) == ViewChildren(s, v, ts, Some(parent))
    decreases |ts|
  {
    hide ViewNode, ViewChildren;
    if ts == [] {
      assert Padded(n, space, ts) == [TextNode(n, space)] + ts;
      SpaceIsIgnored(s, v, n, space, ts, parent);
    } else {
      var t, rest := ts[0], ts[1..];
      SpaceIsIgnored(s, v, n, space, [t] + Padded(n, space, rest), parent);
      ViewNext(s, v, t, Padded(n, space, rest), Some(parent));
      NodeKeepsDepths(s, v, t, Some(parent));
      PaddingIsNothing(s, ViewNode(s, v, t, Some(parent)), n, space, rest, parent);
      ViewNext(s, v, t, rest, Some(parent));
      assert ts == [t] + rest;
    }
  }

  lemma BreaksKeepDepths(s: Setting, v: View, nested: bool)
    ensures PushListBreak(s, v, nested).pre == v.pre && PushListBreak(s, v, nested).code == v.code
    ensures PushBlockBreak(v).pre == v.pre && PushBlockBreak(v).code == v.code
    ensures OpenRow(v).pre == v.pre && OpenRow(v).code == v.code
  {
  }

  lemma PaddingInside(s: Setting, v: View, n: Node, space: string, ts: Forest, name: string)
    requires AllSpace(space) && s.policy.lower(name) == name && IsStructural(name) && v.pre == 0 && v.code == 0
    ensures Inside(s, v, ElementNode(n, name, Padded(n, space, ts))) == Inside(s, v, ElementNode(n, name, ts))
  {
    hide ViewChildren, IsStructural, Padded;
    PaddingIsNothing(s, v, n, space, ts, name);
  }

  // Whatever a structural element holds, white space between it changes
  // nothing, unless it is preformatted text or code.
  lemma SpaceInStructureIsNothing(s: Setting, v: View, n: Node, space: string, ts: Forest, name: string,
                                  parent: Option<string>)
    requires AllSpace(space) && s.policy.lower(name) == name && IsStructural(name) && v.pre == 0 && v.code == 0
    ensures ViewNode(s, v, ElementNode(n, name, Padded(n, space, ts)), parent)
         == ViewNode(s, v, ElementNode(n, name, ts), parent)
  {
    hide Padded, PushListBreak, PushBlockBreak, OpenRow, Inside, ElementNode, AllSpace;
    var t, u := ElementNode(n, name, Padded(n, space, ts)), ElementNode(n, name, ts);
    StructureIsContainer(s, v, n, name, ts, parent);
    StructureIsContainer(s, v, n, name, Padded(n, space, ts), parent);
    BreaksKeepDepths(s, v, |v.lists| > 0);
    BreaksKeepDepths(s, v, |v.tables| > 0);
    var inList, inTable := PushListBreak(s, v, |v.lists| > 0), PushListBreak(s, v, |v.tables| > 0);
    forall ordered: bool {
      PaddingInside(s, inList.(lists := inList.lists + [List(ordered, 1)]), n, space, ts, name);
    }
    PaddingInside(s, inTable.(tables := inTable.tables + [Table(false, 0)]), n, space, ts, name);
    PaddingInside(s, PushBlockBreak(v), n, space, ts, name);
    PaddingInside(s, OpenRow(v), n, space, ts, name);
    PaddingInside(s, v, n, space, ts, name);
  }

  // No break is put around a structural element that is neither list, table nor
  // row.
  lemma StructureIsContainer(s: Setting, v: View, n: Node, name: string, ts: Forest, parent: Option<string>)
    requires s.policy.lower(name) == name && IsStructural(name)
    ensures
      var t := ElementNode(n, name, ts);
      ViewNode(s, v, t, parent)
      == match name
         case "ol" => ViewList(s, v, t, true)
         case "ul" => ViewList(s, v, t, false)
         case "table" => ViewTable(s, v, t)
         case "tr" => ViewTableRow(s, v, t)
         case _ => Inside(s, v, t)
  {
    hide Inside, ViewList, ViewTable, ViewTableRow;
    ElementIsViewed(s, v, ElementNode(n, name, ts), name, parent);
  }
}
