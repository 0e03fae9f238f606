// The sanitizer that rewrites the node tree in place.  Each method is proved
// against the recursive meaning in SanitizeSpec and the reports in Diagnostics.
module Sanitizer {
  import opened Html
  import opened Sequences
  import opened SanitizeSpec
  import opened Contexts
  import opened Diagnostics

  method HtmlAttributeValue(p: Policy, attrs: seq<Attribute>, key: string) returns (value: string)
    ensures value == AttributeValue(p, attrs, key)
  {
    for i := 0 to |attrs|
      invariant AttributeValue(p, attrs[i..], key) == AttributeValue(p, attrs, key)
    {
      if p.equalFold(attrs[i].key, key) {
        return attrs[i].val;
      }
      assert attrs[i..][1..] == attrs[i + 1..];
    }
    return "";
  }

  method RecordRemovedAttribute(p: Policy, element: string, key: string, value: string, diags: Collector)
    requires diags.Valid()
    modifies diags
    ensures diags.Valid() && diags.values == AddAll(old(diags.values), RemovedReport(p, element, key, value))
  {
    if key == "" {
      return;
    }
    if "on" <= key {
      diags.Record(UnsafeAttribute, element, key);
    } else if key == "style" {
      diags.Record(UnsafeStyle, element, key);
    } else if IsResource(key) && IsRemote(p, value) {
      diags.Record(RemoteResource, element, key);
    } else {
      diags.Record(RemovedAttribute, element, key);
    }
  }

  method RecordRemovedAttributes(p: Policy, element: string, attrs: seq<Attribute>, diags: Collector)
    requires diags.Valid()
    modifies diags
    ensures diags.Valid() && diags.values == AddAll(old(diags.values), RemovedReports(p, element, attrs))
  {
    for i := 0 to |attrs|
      invariant diags.Valid()
      invariant AddAll(diags.values, RemovedReports(p, element, attrs[i..]))
             == AddAll(old(diags.values), RemovedReports(p, element, attrs))
    {
      ghost var report := RemovedReport(p, element, Key(p, attrs[i]), attrs[i].val);
      assert attrs[i..][1..] == attrs[i + 1..];
      AddAllConcat(diags.values, report, RemovedReports(p, element, attrs[i + 1..]));
      RecordRemovedAttribute(p, element, Key(p, attrs[i]), attrs[i].val, diags);
    }
  }

  method RecordDroppedResources(p: Policy, element: string, attrs: seq<Attribute>, diags: Collector)
    requires diags.Valid()
    modifies diags
    ensures diags.Valid() && diags.values == AddAll(old(diags.values), DroppedReports(p, element, attrs))
  {
    for i := 0 to |attrs|
      invariant diags.Valid()
      invariant AddAll(diags.values, DroppedReports(p, element, attrs[i..]))
             == AddAll(old(diags.values), DroppedReports(p, element, attrs))
    {
      var key, value := Key(p, attrs[i]), attrs[i].val;
      assert attrs[i..][1..] == attrs[i + 1..];
      AddAllConcat(diags.values, DroppedReport(p, element, key, value), DroppedReports(p, element, attrs[i + 1..]));
      if !IsResource(key) {
        continue;
      }
      if IsRemote(p, value) {
        diags.Record(RemoteResource, element, key);
        continue;
      }
      if key in {"src", "srcset", "poster"} {
        if IsForeign(p, value) {
          diags.Record(UnsafeURL, element, key);
        }
      }
    }
  }

  // One turn of the attribute loop of a link.
  method SanitizeLinkAttribute(p: Policy, a: Attribute, hrefSeen: bool, titleSeen: bool, diags: Collector)
    returns (kept: seq<Attribute>, href: bool, title: bool)
    requires diags.Valid()
    modifies diags
    ensures diags.Valid() && diags.values == AddAll(old(diags.values), LinkReport(p, a, hrefSeen, titleSeen))
    ensures kept == KeptAttribute(p, a, hrefSeen, titleSeen)
    ensures href == HrefSeen(p, a, hrefSeen) && title == TitleSeen(p, a, titleSeen)
  {
    var key := Key(p, a);
    kept, href, title := [], hrefSeen, titleSeen;
    if key == "href" {
      if href {
        diags.Record(RemovedAttribute, "a", key);
        return;
      }
      if SafeLink(p, a.val) {
        kept := [Attribute("", key, p.trim(a.val))];
        href := true;
      } else {
        diags.Record(UnsafeURL, "a", key);
      }
    } else if key == "title" {
      if title {
        diags.Record(RemovedAttribute, "a", key);
        return;
      }
      kept := [Attribute("", key, a.val)];
      title := true;
    } else {
      RecordRemovedAttribute(p, "a", key, a.val, diags);
    }
  }

  method SanitizeElementAttributes(p: Policy, name: string, attrs: seq<Attribute>, diags: Collector)
    returns (clean: seq<Attribute>)
    requires diags.Valid()
    modifies diags
    ensures diags.Valid() && diags.values == AddAll(old(diags.values), AttributeReports(p, name, attrs))
    ensures clean == CleanAttributes(p, name, attrs)
  {
    if name != "a" {
      RecordRemovedAttributes(p, name, attrs, diags);
      return [];
    }
    clean := [];
    var href, title := false, false;
    for i := 0 to |attrs|
      invariant diags.Valid()
      invariant clean + CleanLink(p, attrs[i..], href, title) == CleanLink(p, attrs, false, false)
      invariant AddAll(diags.values, LinkReports(p, attrs[i..], href, title))
             == AddAll(old(diags.values), LinkReports(p, attrs, false, false))
    {
      var a := attrs[i];
      assert attrs[i..][1..] == attrs[i + 1..];
      ghost var rest := CleanLink(p, attrs[i + 1..], HrefSeen(p, a, href), TitleSeen(p, a, title));
      Associate(clean, KeptAttribute(p, a, href, title), rest);
      AddAllConcat(diags.values, LinkReport(p, a, href, title),
                   LinkReports(p, attrs[i + 1..], HrefSeen(p, a, href), TitleSeen(p, a, title)));
      var kept;
      kept, href, title := SanitizeLinkAttribute(p, a, href, title, diags);
      clean := clean + kept;
    }
    clean := clean + [REL];
  }

  // ----- the tree

  ghost predicate Unmoved(ns: set<Node>)
    reads ns
  {
    forall n :: n in ns ==> !n.moved
  }

  lemma NextAt(parent: Node, pre: seq<Node>, n: Node, post: seq<Node>)
    requires n.parent == parent && parent.children == pre + [n] + post && n !in pre
    ensures n.NextSibling() == if post == [] then null else post[0]
  {
    AfterAt(pre, n, post);
  }

  // The children of `parent` are `pre`, the node of `head`, and `tail`.
  ghost predicate Run(parent: Node, pre: seq<Node>, head: Tree, tail: Forest)
    reads parent, head.ref, NodesF(tail)
  {
    && parent.children == pre + [head.ref] + Roots(tail)
    && head.ref.parent == parent
    && HoldsF(tail, parent)
    && ProperF(tail)
    && head.ref !in pre && head.ref !in NodesF(tail)
    && (forall n :: n in NodesF(tail) ==> n !in pre)
    && parent !in NodesF(tail) && parent != head.ref
  }

  lemma RunStep(pre: seq<Node>, head: Tree, tail: Forest)
    requires tail != []
    ensures pre + [head.ref] + Roots(tail) == (pre + [head.ref]) + [tail[0].ref] + Roots(tail[1..])
    ensures tail[0].ref in Nodes(tail[0])
  {
    assert Roots(tail) == [tail[0].ref] + Roots(tail[1..]);
  }

  predicate FollowedByText(node: Node)
    reads node, node.parent, node.NextSibling()
  {
    var next := node.NextSibling();
    node.kind == Text && next != null && next.kind == Text
  }

  lemma FollowedAt(parent: Node, pre: seq<Node>, head: Tree, tail: Forest)
    requires Run(parent, pre, head, tail)
    ensures head.ref.NextSibling() == if tail == [] then null else tail[0].ref
  {
    NextAt(parent, pre, head.ref, Roots(tail));
  }

  // Takes the text sibling after `node` out of the tree.
  method AbsorbNext(parent: Node, node: Node, ghost pre: seq<Node>, ghost head: Tree, ghost tail: Forest)
    returns (text: string)
    requires node == head.ref && Run(parent, pre, head, tail) && tail != []
    modifies parent`children, tail[0].ref`parent
    ensures text == tail[0].data
    ensures Run(parent, pre, head, tail[1..])
  {
    assert allocated(NodesF(tail));
    FollowedAt(parent, pre, head, tail);
    var next := node.NextSibling();
    text := next.data;
    RunStep(pre, head, tail);
    assert Holds(tail[0]) && next in NodesF(tail) && next !in NodesF(tail[1..]);
    assert NodesF(tail[1..]) <= NodesF(tail);
    parent.RemoveChild(next, pre + [node], Roots(tail[1..]));
    assert HoldsF(tail[1..], parent);
  }

  // Joins the run of text nodes that starts at `node` into `node`.
  method JoinTextRun(ctx: Context, parent: Node, node: Node, ghost pre: seq<Node>, ghost head: Tree, ghost tail: Forest)
    returns (ok: bool, ghost head': Tree, ghost tail': Forest)
    requires node == head.ref && Holds(head) && Proper(head)
    requires Run(parent, pre, head, tail) && Nodes(head) !! NodesF(tail) && parent !in Nodes(head)
    modifies parent`children, node`data, NodesF(tail)
    ensures ok || ctx.cancellable
    ensures ok ==> head' == head.(data := head'.data) && Holds(head')
    ensures ok ==> Run(parent, pre, head', tail') && NodesF(tail') <= NodesF(tail) && |tail'| <= |tail|
    ensures ok ==> Merge([head] + tail) == [head'] + Merge(tail')
  {
    assert allocated(NodesF(tail)) && allocated(Nodes(head));
    tail' := tail;
    var joined := node.data;
    FollowedAt(parent, pre, head, tail');
    while FollowedByText(node)
      invariant Run(parent, pre, head, tail') && Holds(head)
      invariant NodesF(tail') <= NodesF(tail) && |tail'| <= |tail|
      invariant Merge([head] + tail) == Merge([head.(data := joined)] + tail')
      invariant node.NextSibling() == if tail' == [] then null else tail'[0].ref
      decreases |tail'|
    {
      var cancelled: bool := *;
      if cancelled && ctx.cancellable {
        return false, head, tail';
      }
      assert Holds(tail'[0]);
      MergeStep(head.(data := joined), tail');
      var text := AbsorbNext(parent, node, pre, head, tail');
      joined, tail' := joined + text, tail'[1..];
      FollowedAt(parent, pre, head, tail');
    }
    node.data := joined;
    head' := head.(data := joined);
    MergeStep(head', tail');
    ok := true;
  }

  lemma MergeStep(head: Tree, tail: Forest)
    ensures Merge([head] + tail)
         == if head.kind == Text && tail != [] && tail[0].kind == Text
            then Merge([head.(data := head.data + tail[0].data)] + tail[1..])
            else [head] + Merge(tail)
  {
    var run := [head] + tail;
    assert run[1..] == tail;
    if tail != [] {
      assert run[2..] == tail[1..];
    }
  }

  method MergeHTMLTextNodes(ctx: Context, parent: Node, ghost ts: Forest) returns (ok: bool)
    requires parent.children == Roots(ts) && HoldsF(ts, parent) && ProperF(ts) && parent !in NodesF(ts)
    modifies parent`children, NodesF(ts)
    ensures ok || ctx.cancellable
    ensures ok ==> parent.children == Roots(Merge(ts)) && HoldsF(Merge(ts), parent)
  {
    hide Run, Holds, Proper;
    assert allocated(NodesF(ts));
    ghost var done: Forest, todo := [], ts;
    var node := parent.FirstChild();
    while node != null
      invariant parent.children == Roots(done) + Roots(todo)
      invariant NodesF(done) + NodesF(todo) <= NodesF(ts) && NodesF(done) !! NodesF(todo)
      invariant HoldsF(done, parent) && HoldsF(todo, parent) && ProperF(todo)
      invariant done + Merge(todo) == Merge(ts)
      invariant node == if todo == [] then null else todo[0].ref
      decreases |todo|
    {
      var cancelled: bool := *;
      if cancelled && ctx.cancellable {
        return false;
      }
      ghost var head, tail := todo[0], todo[1..];
      StartRun(parent, done, head, tail);
      assert todo == [head] + tail;
      ok, head, tail := JoinTextRun(ctx, parent, node, Roots(done), head, tail);
      if !ok {
        return false;
      }
      FollowedAt(parent, Roots(done), head, tail);
      node := node.NextSibling();
      EndRun(parent, done, head, tail);
      Associate(done, [head], Merge(tail));
      done, todo := done + [head], tail;
    }
    assert done + Merge(todo) == done;
    ok := true;
  }

  lemma StartRun(parent: Node, done: Forest, head: Tree, tail: Forest)
    requires parent.children == Roots(done) + Roots([head] + tail)
    requires HoldsF([head] + tail, parent) && ProperF([head] + tail)
    requires NodesF(done) !! NodesF([head] + tail) && parent !in NodesF([head] + tail)
    ensures Holds(head) && Proper(head) && Nodes(head) !! NodesF(tail) && parent !in Nodes(head)
    ensures NodesF([head] + tail) == Nodes(head) + NodesF(tail)
    ensures Run(parent, Roots(done), head, tail)
  {
    var run := [head] + tail;
    assert run[0] == head && run[1..] == tail;
    RootsInNodes(done);
    assert Roots(run) == [head.ref] + Roots(tail);
    assert parent.children == Roots(done) + [head.ref] + Roots(tail);
    assert head.ref in Nodes(head);
  }

  lemma EndRun(parent: Node, done: Forest, head: Tree, tail: Forest)
    requires Run(parent, Roots(done), head, tail) && HoldsF(done, parent) && Holds(head)
    requires Nodes(head) !! NodesF(tail) && NodesF(done) !! Nodes(head) + NodesF(tail)
    ensures parent.children == Roots(done + [head]) + Roots(tail)
    ensures HoldsF(done + [head], parent) && NodesF(done + [head]) == NodesF(done) + Nodes(head)
  {
    assert [head][1..] == [];
    HoldsConcat(done, [head], parent);
    NodesConcat(done, [head]);
    assert Roots(done + [head]) == Roots(done) + [head.ref];
  }

  ghost function Weight(t: Tree): nat
    decreases t, 1
  {
    1 + Weights(t.kids)
  }

  ghost function Weights(ts: Forest): nat
    decreases ts, 0
  {
    if ts == [] then 0 else Weight(ts[0]) + Weights(ts[1..])
  }

  // ----- one node on its way to its retained parent

  // `node` either is the child `before` of its retained parent already, or is
  // the first child left in a wrapper, to be put in front of `before`.
  ghost predicate Slot(node: Node, parent: Node, before: Node, pre: seq<Node>, post: seq<Node>, rest: seq<Node>)
    reads node, node.parent, parent
  {
    && node.parent != null && node.parent != node && parent != node
    && parent.children == pre + [before] + post && before !in pre
    && (node.parent == parent ==> before == node)
    && (node.parent != parent ==> before != node && node.parent.children == [node] + rest)
  }

  // The children after `out` has taken the place of the node that was in
  // `wrapper`.
  ghost predicate Placed(out: seq<Node>, parent: Node, wrapper: Node, before: Node,
                         pre: seq<Node>, post: seq<Node>, rest: seq<Node>)
    reads wrapper, parent
  {
    if wrapper == parent then
      parent.children == pre + out + post
    else
      parent.children == pre + out + [before] + post && wrapper.children == rest
  }

  method Detach(node: Node, ghost parent: Node, ghost before: Node,
                ghost pre: seq<Node>, ghost post: seq<Node>, ghost rest: seq<Node>)
    requires Slot(node, parent, before, pre, post, rest)
    modifies node.parent`children, node`parent
    ensures Placed([], parent, old(node.parent), before, pre, post, rest) && node.parent == null
  {
    ghost var inPlace := node.parent == parent;
    assert [] + [node] + rest == [node] + rest && pre + [] == pre;
    node.parent.RemoveChild(node, if inPlace then pre else [], if inPlace then post else rest);
    assert [] + rest == rest;
  }

  // Keeps `node`, whose subtree is now `out`.
  method Settle(node: Node, parent: Node, before: Node, ghost out: Tree,
                ghost pre: seq<Node>, ghost post: seq<Node>, ghost rest: seq<Node>)
    requires Slot(node, parent, before, pre, post, rest) && !node.moved
    requires node == out.ref && Holds(out) && node !in NodesF(out.kids)
    requires parent !in NodesF(out.kids) && node.parent !in NodesF(out.kids)
    modifies parent`children, node.parent`children, node`parent, node`moved
    ensures Placed(Roots([out]), parent, old(node.parent), before, pre, post, rest)
    ensures HoldsF([out], parent)
  {
    assert allocated(NodesF(out.kids));
    if node.parent != parent {
      Detach(node, parent, before, pre, post, rest);
      assert pre + [] == pre;
      parent.InsertBefore(node, before, pre, post);
    }
    assert HoldsF(out.kids, node);
    assert [out][1..] == [] && Roots([out]) == [node];
  }

  ghost predicate Ready(t: Tree, parent: Node, before: Node, pre: seq<Node>, post: seq<Node>, rest: seq<Node>)
    reads Nodes(t), parent, t.ref.parent
  {
    && Holds(t) && Proper(t) && Unmoved(Nodes(t))
    && t.ref.parent != null && t.ref.parent !in Nodes(t) && parent !in Nodes(t)
    && (t.ref.parent != parent ==> before !in Nodes(t))
    && Slot(t.ref, parent, before, pre, post, rest)
  }

  // Cleans the node of `t` and leaves what survives in front of its slot.
  method SanitizeHTMLNode(ctx: Context, p: Policy, node: Node, parent: Node, before: Node, diags: Collector,
                          ghost t: Tree, ghost pre: seq<Node>, ghost post: seq<Node>, ghost rest: seq<Node>)
    returns (keep: bool, ok: bool)
    requires node == t.ref && Ready(t, parent, before, pre, post, rest) && diags.Valid()
    modifies Nodes(t), parent`children, node.parent`children, diags
    ensures ok || ctx.cancellable
    ensures diags.Valid()
    ensures ok ==> keep == (Clean(p, t) != [])
    ensures ok ==> HoldsF(Clean(p, t), parent)
    ensures ok ==> Placed(Roots(Clean(p, t)), parent, old(node.parent), before, pre, post, rest)
    ensures ok ==> diags.values == AddAll(old(diags.values), Reports(p, t))
    decreases Weight(t), 2
  {
    var cancelled: bool := *;
    if cancelled && ctx.cancellable {
      return false, false;
    }
    match node.kind {
    case Text =>
      Settle(node, parent, before, t, pre, post, rest);
      keep, ok := true, true;
    case Element =>
      var name := p.lower(node.data);
      if DropsSubtree(name) {
        keep := DropSubtree(p, node, name, diags, t, parent, before, pre, post, rest);
        ok := true;
      } else if !AllowsElement(name) {
        keep, ok := UnwrapSanitizedHTMLNode(ctx, p, node, name, parent, before, diags, t, pre, post, rest);
      } else {
        keep, ok := SanitizeAllowed(ctx, p, node, name, parent, before, diags, t, pre, post, rest);
      }
    case Other =>
      Detach(node, parent, before, pre, post, rest);
      keep, ok := false, true;
    }
  }

  // The drop branch: the node disappears, or turns into its alternative text.
  method DropSubtree(p: Policy, node: Node, name: string, diags: Collector,
                     ghost t: Tree, parent: Node, before: Node,
                     ghost pre: seq<Node>, ghost post: seq<Node>, ghost rest: seq<Node>)
    returns (keep: bool)
    requires node == t.ref && Ready(t, parent, before, pre, post, rest) && diags.Valid()
    requires t.kind == Element && name == p.lower(t.data) && DropsSubtree(name)
    modifies Nodes(t), parent`children, node.parent`children, diags
    ensures diags.Valid()
    ensures keep == (Clean(p, t) != [])
    ensures HoldsF(Clean(p, t), parent)
    ensures Placed(Roots(Clean(p, t)), parent, old(node.parent), before, pre, post, rest)
    ensures diags.values == AddAll(old(diags.values), Reports(p, t))
  {
    assert allocated(Nodes(t));
    var alt := DescribeDropped(p, name, node.attr, diags);
    if alt == "" {
      Detach(node, parent, before, pre, post, rest);
      return false;
    }
    DetachChildren(node, t.kids);
    node.kind, node.data, node.ns, node.attr := Text, alt, "", [];
    Settle(node, parent, before, Tree(node, Text, alt, "", [], []), pre, post, rest);
    keep := true;
  }

  method DescribeDropped(p: Policy, name: string, attrs: seq<Attribute>, diags: Collector) returns (alt: string)
    requires diags.Valid()
    modifies diags
    ensures diags.Valid()
    ensures alt == if name == "img" then AttributeValue(p, attrs, "alt") else ""
    ensures diags.values
         == AddAll(old(diags.values), [Diagnostic(RemovedElement, name, "")] + DroppedReports(p, name, attrs))
  {
    AddAllConcat(diags.values, [Diagnostic(RemovedElement, name, "")], DroppedReports(p, name, attrs));
    diags.Record(RemovedElement, name, "");
    RecordDroppedResources(p, name, attrs, diags);
    alt := "";
    if name == "img" {
      alt := HtmlAttributeValue(p, attrs, "alt");
    }
  }

  method DetachChildren(node: Node, ghost kids: Forest)
    requires node.children == Roots(kids) && HoldsF(kids, node) && ProperF(kids) && node !in NodesF(kids)
    modifies node`children, NodesF(kids)`parent
    ensures node.children == []
  {
    assert allocated(NodesF(kids));
    ghost var todo := kids;
    while node.children != []
      invariant node.children == Roots(todo) && HoldsF(todo, node) && ProperF(todo) && NodesF(todo) <= NodesF(kids)
      decreases |todo|
    {
      var child := node.children[0];
      assert child in NodesF(todo);
      assert Roots(todo) == [] + [child] + Roots(todo[1..]);
      node.RemoveChild(child, [], Roots(todo[1..]));
      todo := todo[1..];
    }
  }

  // The allowed branch: children first, then the element itself.
  method SanitizeAllowed(ctx: Context, p: Policy, node: Node, name: string, parent: Node, before: Node,
                         diags: Collector, ghost t: Tree, ghost pre: seq<Node>, ghost post: seq<Node>,
                         ghost rest: seq<Node>)
    returns (keep: bool, ok: bool)
    requires node == t.ref && Ready(t, parent, before, pre, post, rest) && diags.Valid()
    requires t.kind == Element && name == p.lower(t.data) && !DropsSubtree(name) && AllowsElement(name)
    modifies Nodes(t), parent`children, node.parent`children, diags
    ensures ok || ctx.cancellable
    ensures diags.Valid()
    ensures ok ==> keep && |Clean(p, t)| == 1
    ensures ok ==> HoldsF(Clean(p, t), parent)
    ensures ok ==> Placed(Roots(Clean(p, t)), parent, old(node.parent), before, pre, post, rest)
    ensures ok ==> diags.values == AddAll(old(diags.values), Reports(p, t))
    decreases Weight(t), 1
  {
    assert allocated(Nodes(t));
    CleanNodes(p, t);
    ok := CleanElement(ctx, p, node, name, diags, t);
    if !ok {
      return false, false;
    }
    Settle(node, parent, before, Cleaned(p, t), pre, post, rest);
    keep := true;
  }

  ghost function Cleaned(p: Policy, t: Tree): Tree {
    var name := p.lower(t.data);
    Tree(t.ref, Element, name, "", CleanAttributes(p, name, t.attr), Merge(CleanF(p, t.kids)))
  }

  // Cleans the content of an allowed element where it stands.
  method CleanElement(ctx: Context, p: Policy, node: Node, name: string, diags: Collector, ghost t: Tree)
    returns (ok: bool)
    requires node == t.ref && Holds(t) && Proper(t) && Unmoved(Nodes(t)) && diags.Valid()
    requires t.kind == Element && name == p.lower(t.data)
    modifies node`children, node`data, node`ns, node`attr, NodesF(t.kids), diags
    ensures ok || ctx.cancellable
    ensures diags.Valid()
    ensures ok ==> Holds(Cleaned(p, t))
    ensures ok ==> diags.values == AddAll(old(diags.values), ReportsF(p, t.kids) + AttributeReports(p, name, t.attr))
    decreases Weight(t), 0
  {
    assert allocated(Nodes(t));
    AddAllConcat(diags.values, ReportsF(p, t.kids), AttributeReports(p, name, t.attr));
    ok := SanitizeHTMLChildren(ctx, p, node, diags, t.kids);
    if ok {
      CleanNodesF(p, t.kids);
      MergeNodes(CleanF(p, t.kids));
      RewriteElement(p, node, name, diags, Merge(CleanF(p, t.kids)));
    }
  }

  method RewriteElement(p: Policy, node: Node, name: string, diags: Collector, ghost kids: Forest)
    requires node.kind == Element && node.children == Roots(kids) && HoldsF(kids, node) && node !in NodesF(kids)
    requires diags.Valid()
    modifies node`data, node`ns, node`attr, diags
    ensures diags.Valid()
    ensures Holds(Tree(node, Element, name, "", CleanAttributes(p, name, old(node.attr)), kids))
    ensures diags.values == AddAll(old(diags.values), AttributeReports(p, name, old(node.attr)))
  {
    assert allocated(NodesF(kids));
    var attr := SanitizeElementAttributes(p, name, node.attr, diags);
    node.data, node.ns, node.attr := name, "", attr;
    assert HoldsF(kids, node);
  }

  // ----- unwrapping

  // Half way through unwrapping `node`: `out` has been put in front of
  // `before`, the trees `todo` are still below `node`.
  ghost predicate Unwrapping(node: Node, parent: Node, before: Node, pre: seq<Node>, post: seq<Node>, rest: seq<Node>,
                             out: Forest, todo: Forest)
    reads node, node.parent, parent, NodesF(out), NodesF(todo)
  {
    && Slot(node, parent, before, pre + Roots(out), post, rest)
    && HoldsF(out, parent) && {node, parent, before, node.parent} !! NodesF(out)
    && node.children == Roots(todo) && HoldsF(todo, node) && ProperF(todo) && Unmoved(NodesF(todo))
    && {node, parent, before, node.parent} !! NodesF(todo)
    && NodesF(out) !! NodesF(todo)
  }

  method UnwrapChild(ctx: Context, p: Policy, node: Node, parent: Node, before: Node, child: Node, diags: Collector,
                     ghost pre: seq<Node>, ghost post: seq<Node>, ghost rest: seq<Node>,
                     ghost out: Forest, ghost t: Tree, ghost todo: Forest)
    returns (keep: bool, ok: bool)
    requires Unwrapping(node, parent, before, pre, post, rest, out, [t] + todo) && child == t.ref && diags.Valid()
    modifies Nodes(t), parent`children, node`children, diags
    ensures ok || ctx.cancellable
    ensures diags.Valid()
    ensures ok ==> keep == (Clean(p, t) != [])
    ensures ok ==> Unwrapping(node, parent, before, pre, post, rest, out + Clean(p, t), todo)
    ensures ok ==> NodesF(out + Clean(p, t)) <= NodesF(out) + Nodes(t)
    ensures ok ==> diags.values == AddAll(old(diags.values), Reports(p, t))
    decreases Weight(t), 3
  {
    hide Clean, Reports;
    StartTodo(t, todo, node);
    assert allocated(Nodes(t)) && allocated(NodesF(todo)) && allocated(NodesF(out));
    RootsInNodes(out);
    ghost var clean := Clean(p, t);
    CleanNodes(p, t);
    keep, ok := SanitizeHTMLNode(ctx, p, child, parent, before, diags, t, pre + Roots(out), post, Roots(todo));
    if ok {
      EndTodo(out, clean, parent, pre);
      RootsInNodes(out + clean);
      assert parent.children == pre + Roots(out + clean) + [before] + post;
      assert Slot(node, parent, before, pre + Roots(out + clean), post, rest);
    }
  }

  lemma StartTodo(t: Tree, todo: Forest, node: Node)
    ensures NodesF([t] + todo) == Nodes(t) + NodesF(todo)
    ensures ProperF([t] + todo) <==> Proper(t) && ProperF(todo) && Nodes(t) !! NodesF(todo)
    ensures HoldsF([t] + todo, node) <==> Holds(t) && t.ref.parent == node && HoldsF(todo, node)
    ensures Roots([t] + todo) == [t.ref] + Roots(todo)
    ensures t.ref in Nodes(t)
  {
    assert ([t] + todo)[0] == t && ([t] + todo)[1..] == todo;
  }

  lemma EndTodo(out: Forest, clean: Forest, parent: Node, pre: seq<Node>)
    ensures HoldsF(out + clean, parent) <==> HoldsF(out, parent) && HoldsF(clean, parent)
    ensures NodesF(out + clean) == NodesF(out) + NodesF(clean)
    ensures pre + Roots(out + clean) == pre + Roots(out) + Roots(clean)
  {
    HoldsConcat(out, clean, parent);
    NodesConcat(out, clean);
    assert Roots(out + clean) == Roots(out) + Roots(clean);
  }

  method UnwrapSanitizedHTMLNode(ctx: Context, p: Policy, node: Node, name: string, parent: Node, before: Node,
                                 diags: Collector, ghost t: Tree, ghost pre: seq<Node>, ghost post: seq<Node>,
                                 ghost rest: seq<Node>)
    returns (retained: bool, ok: bool)
    requires node == t.ref && Ready(t, parent, before, pre, post, rest) && diags.Valid()
    requires t.kind == Element && name == p.lower(t.data) && !DropsSubtree(name) && !AllowsElement(name)
    modifies Nodes(t), parent`children, node.parent`children, diags
    ensures ok || ctx.cancellable
    ensures diags.Valid()
    ensures ok ==> retained == (Clean(p, t) != [])
    ensures ok ==> HoldsF(Clean(p, t), parent)
    ensures ok ==> Placed(Roots(Clean(p, t)), parent, old(node.parent), before, pre, post, rest)
    ensures ok ==> diags.values == AddAll(old(diags.values), Reports(p, t))
    decreases Weight(t), 1
  {
    assert allocated(Nodes(t));
    retained, ok := UnwrapChildren(ctx, p, node, parent, before, diags, t.kids, pre, post, rest);
    if ok {
      CleanNodesF(p, t.kids);
      FinishUnwrap(p, node, name, parent, before, diags, retained, CleanF(p, t.kids), ReportsF(p, t.kids),
                   old(diags.values), pre, post, rest);
    }
  }

  lemma NextInUnwrapping(node: Node, parent: Node, before: Node, pre: seq<Node>, post: seq<Node>, rest: seq<Node>,
                         out: Forest, t: Tree, tail: Forest)
    requires Unwrapping(node, parent, before, pre, post, rest, out, [t] + tail)
    ensures t.ref.NextSibling() == if tail == [] then null else tail[0].ref
    ensures NodesF([t] + tail) == Nodes(t) + NodesF(tail)
  {
    StartTodo(t, tail, node);
    assert node.children == [] + [t.ref] + Roots(tail);
    NextAt(node, [], t.ref, Roots(tail));
  }

  // The loop over the wrapper's children.
  method UnwrapChildren(ctx: Context, p: Policy, node: Node, parent: Node, before: Node, diags: Collector,
                        ghost kids: Forest, ghost pre: seq<Node>, ghost post: seq<Node>, ghost rest: seq<Node>)
    returns (retained: bool, ok: bool)
    requires Unwrapping(node, parent, before, pre, post, rest, [], kids) && diags.Valid()
    modifies NodesF(kids), parent`children, node`children, diags
    ensures ok || ctx.cancellable
    ensures diags.Valid()
    ensures ok ==> retained == (CleanF(p, kids) != [])
    ensures ok ==> Unwrapping(node, parent, before, pre, post, rest, CleanF(p, kids), [])
    ensures ok ==> diags.values == AddAll(old(diags.values), ReportsF(p, kids))
    decreases Weights(kids), 4
  {
    assert allocated(NodesF(kids));
    hide Clean, Reports;
    ghost var todo: Forest, out: Forest := kids, [];
    var child := node.FirstChild();
    retained := false;
    while child != null
      invariant Weights(todo) <= Weights(kids)
      invariant NodesF(out) + NodesF(todo) <= NodesF(kids)
      invariant Unwrapping(node, parent, before, pre, post, rest, out, todo)
      invariant CleanF(p, kids) == out + CleanF(p, todo)
      invariant child == if todo == [] then null else todo[0].ref
      invariant retained == (out != [])
      invariant diags.Valid()
      invariant AddAll(diags.values, ReportsF(p, todo)) == AddAll(old(diags.values), ReportsF(p, kids))
      decreases |todo|
    {
      ghost var t, tail := todo[0], todo[1..];
      assert todo == [t] + tail;
      NextInUnwrapping(node, parent, before, pre, post, rest, out, t, tail);
      var next := child.NextSibling();
      Associate(out, Clean(p, t), CleanF(p, tail));
      AddAllConcat(diags.values, Reports(p, t), ReportsF(p, tail));
      var keep;
      keep, ok := UnwrapChild(ctx, p, node, parent, before, child, diags, pre, post, rest, out, t, tail);
      if !ok {
        return;
      }
      retained := retained || keep;
      child, todo, out := next, tail, out + Clean(p, t);
    }
    assert out + [] == out;
    ok := true;
  }

  // The wrapper itself goes once its children have moved.
  method FinishUnwrap(p: Policy, node: Node, name: string, parent: Node, before: Node, diags: Collector,
                      retained: bool, ghost out: Forest, ghost report: Report, ghost values: Report,
                      ghost pre: seq<Node>, ghost post: seq<Node>, ghost rest: seq<Node>)
    requires Unwrapping(node, parent, before, pre, post, rest, out, [])
    requires diags.Valid() && diags.values == AddAll(values, report)
    modifies node.parent`children, node`parent, diags
    ensures diags.Valid()
    ensures HoldsF(out, parent)
    ensures Placed(Roots(out), parent, old(node.parent), before, pre, post, rest)
    ensures diags.values == AddAll(values, report + RemovedReports(p, name, old(node.attr))
                                           + (if retained then [] else [Diagnostic(RemovedElement, name, "")]))
  {
    assert allocated(NodesF(out));
    ghost var attrs, last := RemovedReports(p, name, node.attr), Diagnostic(RemovedElement, name, "");
    AddAllConcat(values, report, attrs);
    AddAllConcat(values, report + attrs, [last]);
    assert report + attrs + [] == report + attrs;
    RecordRemovedAttributes(p, name, node.attr, diags);
    if !retained {
      diags.Record(RemovedElement, name, "");
    }
    Detach(node, parent, before, pre + Roots(out), post, rest);
    assert pre + Roots(out) + [] == pre + Roots(out);
  }

  // ----- the children of a retained parent

  // Half way through the children of `node`: `out` is done, `todo` is not.
  ghost predicate Cleaning(node: Node, out: Forest, todo: Forest)
    reads node, NodesF(out), NodesF(todo)
  {
    && node.children == Roots(out) + Roots(todo)
    && HoldsF(out, node) && node !in NodesF(out)
    && HoldsF(todo, node) && ProperF(todo) && Unmoved(NodesF(todo)) && node !in NodesF(todo)
    && NodesF(out) !! NodesF(todo)
  }

  method SanitizeChild(ctx: Context, p: Policy, node: Node, child: Node, diags: Collector,
                       ghost out: Forest, ghost t: Tree, ghost todo: Forest)
    returns (ok: bool)
    requires Cleaning(node, out, [t] + todo) && child == t.ref && diags.Valid()
    modifies Nodes(t), node`children, diags
    ensures ok || ctx.cancellable
    ensures diags.Valid()
    ensures ok ==> Cleaning(node, out + Clean(p, t), todo)
    ensures ok ==> NodesF(out + Clean(p, t)) <= NodesF(out) + Nodes(t)
    ensures ok ==> diags.values == AddAll(old(diags.values), Reports(p, t))
    decreases Weight(t), 3
  {
    hide Clean, Reports, AddAll, Weight, Nodes, NodesF, Roots;
    StartTodo(t, todo, node);
    assert allocated(Nodes(t)) && allocated(NodesF(todo)) && allocated(NodesF(out));
    RootsInNodes(out);
    ghost var clean := Clean(p, t);
    CleanNodes(p, t);
    assert node.children == Roots(out) + [child] + Roots(todo);
    var keep;
    keep, ok := SanitizeHTMLNode(ctx, p, child, node, child, diags, t, Roots(out), Roots(todo), []);
    if ok {
      EndTodo(out, clean, node, []);
      assert [] + Roots(out + clean) == Roots(out + clean) && [] + Roots(out) == Roots(out);
    }
  }

  method SanitizeHTMLChildren(ctx: Context, p: Policy, node: Node, diags: Collector, ghost kids: Forest)
    returns (ok: bool)
    requires node.children == Roots(kids) && HoldsF(kids, node) && ProperF(kids) && node !in NodesF(kids)
    requires Unmoved(NodesF(kids)) && diags.Valid()
    modifies node`children, NodesF(kids), diags
    ensures ok || ctx.cancellable
    ensures diags.Valid()
    ensures ok ==> node.children == Roots(Merge(CleanF(p, kids))) && HoldsF(Merge(CleanF(p, kids)), node)
    ensures ok ==> diags.values == AddAll(old(diags.values), ReportsF(p, kids))
    decreases Weights(kids), 5
  {
    CleanNodesF(p, kids);
    assert [] + Roots(kids) == Roots(kids);
    ok := SanitizeEach(ctx, p, node, diags, kids);
    if ok {
      assert Roots(CleanF(p, kids)) + [] == Roots(CleanF(p, kids));
      ok := MergeHTMLTextNodes(ctx, node, CleanF(p, kids));
    }
  }

  lemma NextInCleaning(node: Node, out: Forest, t: Tree, tail: Forest)
    requires Cleaning(node, out, [t] + tail)
    ensures t.ref.NextSibling() == if tail == [] then null else tail[0].ref
    ensures NodesF([t] + tail) == Nodes(t) + NodesF(tail)
  {
    StartTodo(t, tail, node);
    RootsInNodes(out);
    assert node.children == Roots(out) + [t.ref] + Roots(tail);
    NextAt(node, Roots(out), t.ref, Roots(tail));
  }

  // The loop over the children.
  method SanitizeEach(ctx: Context, p: Policy, node: Node, diags: Collector, ghost kids: Forest) returns (ok: bool)
    requires Cleaning(node, [], kids) && diags.Valid()
    modifies node`children, NodesF(kids), diags
    ensures ok || ctx.cancellable
    ensures diags.Valid()
    ensures ok ==> Cleaning(node, CleanF(p, kids), [])
    ensures ok ==> diags.values == AddAll(old(diags.values), ReportsF(p, kids))
    decreases Weights(kids), 4
  {
    assert allocated(NodesF(kids));
    hide Clean, Reports;
    ghost var todo: Forest, out: Forest := kids, [];
    var child := node.FirstChild();
    while child != null
      invariant Weights(todo) <= Weights(kids)
      invariant NodesF(out) + NodesF(todo) <= NodesF(kids)
      invariant Cleaning(node, out, todo)
      invariant CleanF(p, kids) == out + CleanF(p, todo)
      invariant child == if todo == [] then null else todo[0].ref
      invariant diags.Valid()
      invariant AddAll(diags.values, ReportsF(p, todo)) == AddAll(old(diags.values), ReportsF(p, kids))
      decreases |todo|
    {
      ghost var t, tail := todo[0], todo[1..];
      assert todo == [t] + tail;
      NextInCleaning(node, out, t, tail);
      var next := child.NextSibling();
      Associate(out, Clean(p, t), CleanF(p, tail));
      AddAllConcat(diags.values, Reports(p, t), ReportsF(p, tail));
      ok := SanitizeChild(ctx, p, node, child, diags, out, t, tail);
      if !ok {
        return;
      }
      child, todo, out := next, tail, out + Clean(p, t);
    }
    assert out + [] == out;
    ok := true;
  }
}
