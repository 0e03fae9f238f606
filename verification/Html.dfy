// The mutable HTML node tree that the draft pipeline works on.
//
// A node's first-child and next-sibling links, kept by the HTML library, are
// represented by the child sequence of its parent.  A ghost `Tree` names the
// nodes of a subtree together with the content they should hold; `Holds` ties
// the two.
module Html {
  import opened Sequences

  datatype Kind = Text | Element | Other

  datatype Attribute = Attribute(ns: string, key: string, val: string)

  class Node {
    var kind: Kind
    var data: string
    var ns: string
    var attr: seq<Attribute>
    var parent: Node?
    var children: seq<Node>
    ghost var moved: bool  // has this node been given a new parent?

    function FirstChild(): Node?
      reads this
    {
      if children == [] then null else children[0]
    }

    function NextSibling(): Node?
      reads this, parent
    {
      if parent == null then null else After(parent.children, this)
    }

    // The library's removal of one child; it leaves the child without a parent.
    method RemoveChild(child: Node, ghost pre: seq<Node>, ghost post: seq<Node>)
      requires child.parent == this
      requires children == pre + [child] + post && child !in pre
      modifies this`children, child`parent
      ensures children == pre + post
      ensures child.parent == null
    {
      WithoutAt(pre, child, post);
      children := Without(children, child);
      child.parent := null;
    }

    // The library's insertion of a detached node in front of a child.  The
    // ghost precondition makes every caller show that a node is inserted under
    // a new parent at most once.
    method InsertBefore(child: Node, before: Node, ghost pre: seq<Node>, ghost post: seq<Node>)
      requires child.parent == null && !child.moved
      requires children == pre + [before] + post && before !in pre
      modifies this`children, child`parent, child`moved
      ensures children == pre + [child] + [before] + post
      ensures child.parent == this && child.moved
    {
      InsertedAt(pre, child, before, post);
      children := Inserted(children, child, before);
      child.parent := this;
      child.moved := true;
    }
  }

  function After(s: seq<Node>, n: Node): Node? {
    if |s| < 2 then null
    else if s[0] == n then s[1]
    else After(s[1..], n)
  }

  function Without(s: seq<Node>, n: Node): seq<Node> {
    if s == [] then []
    else if s[0] == n then s[1..]
    else [s[0]] + Without(s[1..], n)
  }

  function Inserted(s: seq<Node>, n: Node, before: Node): seq<Node> {
    if s == [] then [n]
    else if s[0] == before then [n] + s
    else [s[0]] + Inserted(s[1..], n, before)
  }

  lemma {:induction false} AfterAt(pre: seq<Node>, n: Node, post: seq<Node>)
    requires n !in pre
    ensures After(pre + [n] + post, n) == if post == [] then null else post[0]
  {
    var s := pre + [n] + post;
    if pre != [] {
      AfterAt(pre[1..], n, post);
      assert s[1..] == pre[1..] + [n] + post;
    }
  }

  lemma {:induction false} WithoutAt(pre: seq<Node>, n: Node, post: seq<Node>)
    requires n !in pre
    ensures Without(pre + [n] + post, n) == pre + post
  {
    var s := pre + [n] + post;
    if pre == [] {
      assert s[1..] == post;
    } else {
      WithoutAt(pre[1..], n, post);
      assert s[1..] == pre[1..] + [n] + post;
    }
  }

  lemma {:induction false} InsertedAt(pre: seq<Node>, n: Node, before: Node, post: seq<Node>)
    requires before !in pre
    ensures Inserted(pre + [before] + post, n, before) == pre + [n] + [before] + post
  {
    var s := pre + [before] + post;
    if pre == [] {
      assert [n] + s == pre + [n] + [before] + post;
    } else {
      InsertedAt(pre[1..], n, before, post);
      assert s[1..] == pre[1..] + [before] + post;
    }
  }

  // ----- ghost trees

  datatype Tree = Tree(ref: Node, kind: Kind, data: string, ns: string, attr: seq<Attribute>, kids: seq<Tree>)

  type Forest = seq<Tree>

  ghost function Nodes(t: Tree): set<Node>
    decreases t, 1
  {
    {t.ref} + NodesF(t.kids)
  }

  ghost function NodesF(ts: Forest): set<Node>
    decreases ts, 0
  {
    if ts == [] then {} else Nodes(ts[0]) + NodesF(ts[1..])
  }

  ghost function Roots(ts: Forest): seq<Node> {
    seq(|ts|, i requires 0 <= i < |ts| => ts[i].ref)
  }

  // No node occurs twice.
  ghost predicate Proper(t: Tree)
    decreases t, 1
  {
    t.ref !in NodesF(t.kids) && ProperF(t.kids)
  }

  ghost predicate ProperF(ts: Forest)
    decreases ts, 0
  {
    ts != [] ==> Proper(ts[0]) && ProperF(ts[1..]) && Nodes(ts[0]) !! NodesF(ts[1..])
  }

  // The heap below the root of `t` is exactly `t`.
  ghost predicate Holds(t: Tree)
    reads Nodes(t)
    decreases t, 1
  {
    && t.ref.kind == t.kind && t.ref.data == t.data && t.ref.ns == t.ns && t.ref.attr == t.attr
    && t.ref.children == Roots(t.kids)
    && HoldsF(t.kids, t.ref)
  }

  ghost predicate HoldsF(ts: Forest, parent: Node)
    reads NodesF(ts)
    decreases ts, 0
  {
    ts != [] ==> Holds(ts[0]) && ts[0].ref.parent == parent && HoldsF(ts[1..], parent)
  }

  lemma {:induction false} NodesConcat(a: Forest, b: Forest)
    ensures NodesF(a + b) == NodesF(a) + NodesF(b)
  {
    if a == [] {
      assert a + b == b;
    } else {
      NodesConcat(a[1..], b);
      assert (a + b)[1..] == a[1..] + b;
    }
  }

  lemma {:induction false} ProperConcat(a: Forest, b: Forest)
    ensures ProperF(a + b) <==> ProperF(a) && ProperF(b) && NodesF(a) !! NodesF(b)
  {
    if a == [] {
      assert a + b == b;
    } else {
      ProperConcat(a[1..], b);
      NodesConcat(a[1..], b);
      assert (a + b)[1..] == a[1..] + b;
    }
  }

  lemma {:induction false} HoldsConcat(a: Forest, b: Forest, parent: Node)
    ensures HoldsF(a + b, parent) <==> HoldsF(a, parent) && HoldsF(b, parent)
  {
    if a == [] {
      assert a + b == b;
    } else {
      HoldsConcat(a[1..], b, parent);
      assert (a + b)[1..] == a[1..] + b;
    }
  }

  lemma {:induction false} RootsInNodes(ts: Forest)
    ensures forall n :: n in Roots(ts) ==> n in NodesF(ts)
  {
    if ts != [] {
      RootsInNodes(ts[1..]);
      assert Roots(ts) == [ts[0].ref] + Roots(ts[1..]);
    }
  }

  // The nodes of a tree in document order.
  ghost function Preorder(t: Tree): seq<Node>
    decreases t, 1
  {
    [t.ref] + PreorderF(t.kids)
  }

  ghost function PreorderF(ts: Forest): seq<Node>
    decreases ts, 0
  {
    if ts == [] then [] else Preorder(ts[0]) + PreorderF(ts[1..])
  }

  lemma {:induction false} PreorderConcat(a: Forest, b: Forest)
    ensures PreorderF(a + b) == PreorderF(a) + PreorderF(b)
  {
    if a == [] {
      assert a + b == b;
    } else {
      PreorderConcat(a[1..], b);
      assert (a + b)[1..] == a[1..] + b;
      assert PreorderF(a + b) == Preorder(a[0]) + PreorderF(a[1..] + b);
      Associate(Preorder(a[0]), PreorderF(a[1..]), PreorderF(b));
    }
  }
}
