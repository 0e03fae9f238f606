// The stackless walk that bounds a parsed tree by node count and depth.
module TreeWalk {
  import opened Contexts
  import opened Html
  import opened Sequences

  const MAXIMUM_DRAFT_NODES := 65536
  const MAXIMUM_LEVELS := 512

  datatype Verdict = Accepted | Canceled | TooLarge

  // ----- the recursive measures

  ghost function Levels(t: Tree): nat
    decreases t, 1
  {
    LevelsBelow(t.kids)
  }

  ghost function LevelsBelow(ts: Forest): nat
    decreases ts, 0
  {
    if ts == [] then 0
    else if 1 + Levels(ts[0]) > LevelsBelow(ts[1..]) then 1 + Levels(ts[0])
    else LevelsBelow(ts[1..])
  }

  ghost function Size(t: Tree): nat {
    |Preorder(t)|
  }

  ghost function Elements<T>(s: seq<T>): set<T> {
    set x | x in s
  }

  lemma ElementsConcat<T>(a: seq<T>, b: seq<T>)
    ensures Elements(a + b) == Elements(a) + Elements(b)
    ensures Distinct(a) && Distinct(b) && Elements(a) !! Elements(b) ==> Distinct(a + b)
  {
    var s := a + b;
    forall i, j | 0 <= i < j < |s| && Distinct(a) && Distinct(b) && Elements(a) !! Elements(b)
      ensures s[i] != s[j]
    {
      if i < |a| <= j {
        assert s[i] in Elements(a) && s[j] in Elements(b);
      } else if |a| <= i {
        assert s[i] == b[i - |a|] && s[j] == b[j - |a|];
      }
    }
  }

  // Document order lists every node of a proper tree once.
  lemma {:induction false} PreorderIsExact(t: Tree)
    ensures Elements(Preorder(t)) == Nodes(t)
    ensures Proper(t) ==> Distinct(Preorder(t))
    decreases t, 1
  {
    PreorderAllExact(t.kids);
    ElementsConcat([t.ref], PreorderF(t.kids));
  }

  lemma {:induction false} PreorderAllExact(ts: Forest)
    ensures Elements(PreorderF(ts)) == NodesF(ts)
    ensures ProperF(ts) ==> Distinct(PreorderF(ts))
    decreases ts, 0
  {
    if ts != [] {
      PreorderIsExact(ts[0]);
      PreorderAllExact(ts[1..]);
      ElementsConcat(Preorder(ts[0]), PreorderF(ts[1..]));
    }
  }

  // ----- the place of the cursor

  // The way from the root to the cursor: at each step the parent tree and the
  // index of the child taken.
  datatype Path = Top | Step(above: Tree, index: nat, up: Path)

  ghost function Depth(path: Path): nat {
    if path.Top? then 0 else 1 + Depth(path.up)
  }

  ghost predicate At(root: Tree, path: Path, cur: Tree) {
    match path
    case Top => cur == root
    case Step(above, index, up) =>
      && index < |above.kids| && cur == above.kids[index]
      && Nodes(cur) <= NodesF(root.kids)
      && At(root, up, above)
  }

  // The nodes still to come after the subtree of the cursor.
  ghost function Rest(path: Path): seq<Node> {
    match path
    case Top => []
    case Step(above, index, up) =>
      (if index < |above.kids| then PreorderF(above.kids[index + 1..]) else []) + Rest(up)
  }

  ghost predicate RestFits(path: Path, bound: nat) {
    match path
    case Top => true
    case Step(above, index, up) =>
      && (index < |above.kids| ==> Depth(up) + LevelsBelow(above.kids[index + 1..]) <= bound)
      && RestFits(up, bound)
  }

  // Nothing at or after the cursor lies deeper than the bound.
  ghost predicate Fits(path: Path, cur: Tree, bound: nat) {
    Depth(path) + Levels(cur) <= bound && RestFits(path, bound)
  }

  lemma {:induction false} ChildHolds(ts: Forest, parent: Node, i: nat)
    requires HoldsF(ts, parent) && ProperF(ts) && i < |ts|
    ensures Holds(ts[i]) && ts[i].ref.parent == parent && Proper(ts[i]) && Nodes(ts[i]) <= NodesF(ts)
    ensures ts[i].ref !in Roots(ts[..i])
  {
    if i > 0 {
      ChildHolds(ts[1..], parent, i - 1);
      assert ts[1..][i - 1] == ts[i];
      assert ts[i].ref in Nodes(ts[i]) && ts[0].ref in Nodes(ts[0]);
      assert Roots(ts[..i]) == [ts[0].ref] + Roots(ts[1..][..i - 1]);
    }
  }

  lemma RootsAround(kids: Forest, i: nat)
    requires i < |kids|
    ensures Roots(kids) == Roots(kids[..i]) + [kids[i].ref] + Roots(kids[i + 1..])
    ensures i + 1 < |kids| ==> Roots(kids[i + 1..])[0] == kids[i + 1].ref
    ensures Roots(kids[i + 1..]) == [] <==> i + 1 == |kids|
  {
  }

  // A child's links lead to its parent and to the next child.
  lemma ChildLinks(above: Tree, i: nat)
    requires Holds(above) && Proper(above) && i < |above.kids|
    ensures var child := above.kids[i];
      && Holds(child) && Proper(child) && Nodes(child) <= NodesF(above.kids)
      && child.ref.parent == above.ref
      && child.ref.NextSibling() == if i + 1 < |above.kids| then above.kids[i + 1].ref else null
  {
    var kids, child := above.kids, above.kids[i];
    ChildHolds(kids, above.ref, i);
    RootsAround(kids, i);
    AfterAt(Roots(kids[..i]), child.ref, Roots(kids[i + 1..]));
  }

  lemma {:induction false} CursorHolds(root: Tree, path: Path, cur: Tree)
    requires Holds(root) && Proper(root) && At(root, path, cur)
    ensures Holds(cur) && Proper(cur)
    ensures path.Step? ==> Holds(path.above) && Proper(path.above)
    ensures path.Step? <==> cur.ref != root.ref
    decreases path
  {
    if path.Step? {
      CursorHolds(root, path.up, path.above);
      ChildLinks(path.above, path.index);
      assert cur.ref in Nodes(cur);
    }
  }

  // ----- the walk

  // From a node whose subtree is done to the nearest node on the way up that
  // has a later sibling, or else to the root.
  method ClimbUp(root: Node, start: Node, level: nat, ghost t: Tree, ghost from: Tree, ghost way: Path)
    returns (node: Node, depth: nat, ghost cur: Tree, ghost path: Path)
    requires root == t.ref && Holds(t) && Proper(t) && start == from.ref && At(t, way, from)
    requires level == Depth(way) <= MAXIMUM_LEVELS
    ensures node == cur.ref && At(t, path, cur) && depth == Depth(path) <= MAXIMUM_LEVELS
    ensures node == root || node.NextSibling() != null
    ensures Rest(path) == Rest(way)
    ensures RestFits(path, MAXIMUM_LEVELS) <==> RestFits(way, MAXIMUM_LEVELS)
  {
    hide Levels, LevelsBelow, RestFits, Rest, PreorderF;
    node, depth, cur, path := start, level, from, way;
    while node != root && node.NextSibling() == null
      invariant Holds(t) && node == cur.ref && At(t, path, cur)
      invariant depth == Depth(path) <= MAXIMUM_LEVELS
      invariant Rest(path) == Rest(way)
      invariant RestFits(path, MAXIMUM_LEVELS) <==> RestFits(way, MAXIMUM_LEVELS)
      decreases path
    {
      CursorHolds(t, path, cur);
      ChildLinks(path.above, path.index);
      Climb(t, path, cur);
      node := node.parent;
      depth := depth - 1;
      cur, path := path.above, path.up;
    }
  }

  method Walk(ctx: Context, root: Node, maximum: nat, ghost t: Tree)
    returns (verdict: Verdict, ghost visited: seq<Node>)
    requires root == t.ref && Holds(t) && Proper(t)
    ensures verdict == Accepted ==> visited == Preorder(t) && Size(t) <= maximum && Levels(t) <= MAXIMUM_LEVELS
    ensures verdict == TooLarge ==> Size(t) > maximum || Levels(t) > MAXIMUM_LEVELS
    ensures verdict == Canceled ==> ctx.cancellable
    ensures visited <= Preorder(t)
  {
    hide Levels, LevelsBelow, RestFits, Rest, PreorderF, Fits, Size;
    hide Holds, HoldsF, Proper, ProperF, Nodes, NodesF;
    assert allocated(Nodes(t));
    AtRoot(t);
    var count, depth := 0, 0;
    var node: Node? := root;
    ghost var cur, path := t, Top;
    visited := [];
    while node != null
      invariant Holds(t) && node == cur.ref && At(t, path, cur)
      invariant count == |visited| && depth == Depth(path)
      invariant count <= maximum
      invariant visited + (Preorder(cur) + Rest(path)) == Preorder(t)
      invariant Levels(t) <= MAXIMUM_LEVELS <==>
                Fits(path, cur, MAXIMUM_LEVELS)
      decreases Size(t) - count
    {
      var cancelled: bool := *;
      if cancelled && ctx.cancellable {
        return Canceled, visited;
      }
      CursorHolds(t, path, cur);
      CursorNode(cur);
      Unfinished(t, path, cur, visited);
      count := count + 1;
      if count > maximum || depth > MAXIMUM_LEVELS {
        return TooLarge, visited;
      }
      Visit(visited, cur, path);
      visited := visited + [node];
      if node.FirstChild() != null {
        node := node.FirstChild();
        depth := depth + 1;
        Descend(t, path, cur);
        path, cur := Step(cur, 0, path), cur.kids[0];
        continue;
      }
      ghost var later := Rest(path);
      node, depth, cur, path := ClimbUp(root, node, depth, t, cur, path);
      assert Rest(path) == later;
      CursorHolds(t, path, cur);
      if node == root {
        AtEnd(visited);
        break;
      }
      ChildLinks(path.above, path.index);
      NextChild(t, path, cur);
      node := node.NextSibling();
      path := path.(index := path.index + 1);
      cur := path.above.kids[path.index];
    }
    verdict := Accepted;
  }

  lemma CursorNode(cur: Tree)
    requires Holds(cur)
    ensures cur.ref.FirstChild() == if cur.kids == [] then null else cur.kids[0].ref
  {
  }

  // The cursor is still to be visited, and lies as deep as its path.
  lemma Unfinished(t: Tree, path: Path, cur: Tree, visited: seq<Node>)
    requires visited + (Preorder(cur) + Rest(path)) == Preorder(t)
    ensures |visited| < Size(t)
    ensures Depth(path) > MAXIMUM_LEVELS ==> !Fits(path, cur, MAXIMUM_LEVELS)
  {
  }

  lemma AtRoot(t: Tree)
    ensures [] + (Preorder(t) + Rest(Top)) == Preorder(t) && Size(t) == |Preorder(t)|
    ensures Levels(t) <= MAXIMUM_LEVELS <==> Fits(Top, t, MAXIMUM_LEVELS)
  {
  }

  lemma Visit(visited: seq<Node>, cur: Tree, path: Path)
    ensures visited + (Preorder(cur) + Rest(path)) == (visited + [cur.ref]) + (PreorderF(cur.kids) + Rest(path))
    ensures cur.kids == [] ==> PreorderF(cur.kids) + Rest(path) == Rest(path)
    ensures cur.kids == [] && Depth(path) <= MAXIMUM_LEVELS ==>
              (Fits(path, cur, MAXIMUM_LEVELS) <==> RestFits(path, MAXIMUM_LEVELS))
    ensures Depth(path) > MAXIMUM_LEVELS ==> !Fits(path, cur, MAXIMUM_LEVELS)
  {
    var below, rest := PreorderF(cur.kids), Rest(path);
    assert Preorder(cur) + rest == [cur.ref] + (below + rest);
    Associate(visited, [cur.ref], below + rest);
    if cur.kids == [] {
      assert below + rest == rest && LevelsBelow(cur.kids) == 0;
    }
  }

  lemma AtEnd(visited: seq<Node>)
    ensures visited + Rest(Top) == visited && RestFits(Top, MAXIMUM_LEVELS)
  {
  }

  lemma Descend(root: Tree, path: Path, cur: Tree)
    requires At(root, path, cur) && cur.kids != []
    ensures At(root, Step(cur, 0, path), cur.kids[0])
    ensures PreorderF(cur.kids) + Rest(path) == Preorder(cur.kids[0]) + Rest(Step(cur, 0, path))
    ensures Fits(path, cur, MAXIMUM_LEVELS) <==> Fits(Step(cur, 0, path), cur.kids[0], MAXIMUM_LEVELS)
  {
    assert Nodes(cur.kids[0]) <= NodesF(cur.kids) <= Nodes(cur);
    Associate(Preorder(cur.kids[0]), PreorderF(cur.kids[1..]), Rest(path));
    assert Levels(cur) == LevelsBelow(cur.kids);
    assert Depth(Step(cur, 0, path)) == Depth(path) + 1;
  }

  lemma Climb(root: Tree, path: Path, cur: Tree)
    requires At(root, path, cur) && path.Step? && path.index + 1 == |path.above.kids|
    requires Depth(path) <= MAXIMUM_LEVELS
    ensures Rest(path) == Rest(path.up)
    ensures RestFits(path, MAXIMUM_LEVELS) <==> RestFits(path.up, MAXIMUM_LEVELS)
  {
    var later, rest := path.above.kids[path.index + 1..], Rest(path.up);
    assert later == [];
    assert PreorderF(later) + rest == rest && LevelsBelow(later) == 0;
  }

  lemma NextChild(root: Tree, path: Path, cur: Tree)
    requires At(root, path, cur) && path.Step? && path.index + 1 < |path.above.kids|
    ensures var next := path.(index := path.index + 1);
      && At(root, next, path.above.kids[next.index])
      && Rest(path) == Preorder(path.above.kids[next.index]) + Rest(next)
      && (RestFits(path, MAXIMUM_LEVELS) <==> Fits(next, path.above.kids[next.index], MAXIMUM_LEVELS))
  {
    var i, kids := path.index + 1, path.above.kids;
    assert kids[i..][0] == kids[i] && kids[i..][1..] == kids[i + 1..];
    NodesInForest(kids, i);
    Associate(Preorder(kids[i]), PreorderF(kids[i + 1..]), Rest(path.up));
  }

  lemma {:induction false} NodesInForest(ts: Forest, i: nat)
    requires i < |ts|
    ensures Nodes(ts[i]) <= NodesF(ts)
  {
    if i > 0 {
      NodesInForest(ts[1..], i - 1);
    }
  }

  method ValidateDraftContentTree(ctx: Context, root: Node, ghost t: Tree) returns (verdict: Verdict)
    requires root == t.ref && Holds(t) && Proper(t)
    ensures verdict == Canceled ==> ctx.cancellable
    ensures verdict != Canceled ==>
              (verdict == Accepted <==> Size(t) <= MAXIMUM_DRAFT_NODES && Levels(t) <= MAXIMUM_LEVELS)
  {
    ghost var visited;
    verdict, visited := Walk(ctx, root, MAXIMUM_DRAFT_NODES, t);
  }

  method CheckIncomingHTMLTree(ctx: Context, root: Node, maximum: nat, ghost t: Tree) returns (verdict: Verdict)
    requires root == t.ref && Holds(t) && Proper(t)
    ensures verdict == Canceled ==> ctx.cancellable
    ensures verdict != Canceled ==> (verdict == Accepted <==> Size(t) <= maximum && Levels(t) <= MAXIMUM_LEVELS)
  {
    ghost var visited;
    verdict, visited := Walk(ctx, root, maximum, t);
  }
}
