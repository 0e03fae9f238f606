// What the recursive meaning of sanitization guarantees about its result.
module SanitizeTheorems {
  import opened Html
  import opened SanitizeSpec
  import opened Sequences

  // The parser gives text nodes neither children nor attributes.
  ghost predicate Parsed(t: Tree)
    decreases t, 1
  {
    (t.kind == Text ==> t.kids == [] && t.attr == []) && ParsedF(t.kids)
  }

  ghost predicate ParsedF(ts: Forest)
    decreases ts, 0
  {
    ts != [] ==> Parsed(ts[0]) && ParsedF(ts[1..])
  }

  // ----- safety

  function Occurrences(key: string, attrs: seq<Attribute>): nat {
    if attrs == [] then 0 else (if attrs[0].key == key then 1 else 0) + Occurrences(key, attrs[1..])
  }

  // Attributes only on links: at most one safe href, at most one title, and
  // exactly the protective rel.
  ghost predicate SafeAttributes(p: Policy, name: string, attrs: seq<Attribute>) {
    if name != "a" then attrs == []
    else
      && Occurrences("href", attrs) <= 1 && Occurrences("title", attrs) <= 1 && Occurrences("rel", attrs) == 1
      && forall a :: a in attrs ==>
           && a.ns == ""
           && ((a.key == "href" && SafeLink(p, a.val)) || a.key == "title" || a == REL)
  }

  ghost predicate NoAdjacentText(ts: Forest) {
    forall i :: 0 <= i < |ts| - 1 ==> !BothText(ts[i], ts[i + 1])
  }

  ghost predicate Safe(p: Policy, t: Tree)
    decreases t, 1
  {
    match t.kind
    case Text => t.kids == [] && t.attr == []
    case Other => false
    case Element =>
      && AllowsElement(t.data) && t.ns == "" && SafeAttributes(p, t.data, t.attr)
      && NoAdjacentText(t.kids) && SafeF(p, t.kids)
  }

  ghost predicate SafeF(p: Policy, ts: Forest)
    decreases ts, 0
  {
    ts != [] ==> Safe(p, ts[0]) && SafeF(p, ts[1..])
  }

  lemma {:induction false} SafeConcat(p: Policy, a: Forest, b: Forest)
    ensures SafeF(p, a + b) <==> SafeF(p, a) && SafeF(p, b)
  {
    if a == [] {
      assert a + b == b;
    } else {
      SafeConcat(p, a[1..], b);
      assert (a + b)[1..] == a[1..] + b;
    }
  }

  lemma {:induction false} CleanLinkSafe(p: Policy, attrs: seq<Attribute>, href: bool, title: bool)
    requires Lawful(p)
    ensures var out := CleanLink(p, attrs, href, title);
      && Occurrences("href", out) <= (if href then 0 else 1)
      && Occurrences("title", out) <= (if title then 0 else 1)
      && Occurrences("rel", out) == 0
      && forall a :: a in out ==> a.ns == "" && ((a.key == "href" && SafeLink(p, a.val)) || a.key == "title")
  {
    if attrs != [] {
      var a := attrs[0];
      var kept, rest := KeptAttribute(p, a, href, title),
                        CleanLink(p, attrs[1..], HrefSeen(p, a, href), TitleSeen(p, a, title));
      CleanLinkSafe(p, attrs[1..], HrefSeen(p, a, href), TitleSeen(p, a, title));
      if kept == [] {
        assert kept + rest == rest;
      } else {
        assert (kept + rest)[0] == kept[0] && (kept + rest)[1..] == rest;
      }
    }
  }

  lemma {:induction false} OccurrencesSnoc(key: string, attrs: seq<Attribute>, a: Attribute)
    ensures Occurrences(key, attrs + [a]) == Occurrences(key, attrs) + (if a.key == key then 1 else 0)
  {
    if attrs == [] {
      assert attrs + [a] == [a];
    } else {
      OccurrencesSnoc(key, attrs[1..], a);
      assert (attrs + [a])[1..] == attrs[1..] + [a];
    }
  }

  lemma CleanAttributesSafe(p: Policy, name: string, attrs: seq<Attribute>)
    requires Lawful(p)
    ensures SafeAttributes(p, name, CleanAttributes(p, name, attrs))
  {
    if name == "a" {
      CleanLinkSafe(p, attrs, false, false);
      var link := CleanLink(p, attrs, false, false);
      OccurrencesSnoc("href", link, REL);
      OccurrencesSnoc("title", link, REL);
      OccurrencesSnoc("rel", link, REL);
    }
  }

  lemma {:induction false} MergeSafe(p: Policy, ts: Forest)
    requires SafeF(p, ts)
    ensures SafeF(p, Merge(ts)) && NoAdjacentText(Merge(ts))
    ensures ts != [] ==> Merge(ts) != [] && Merge(ts)[0].kind == ts[0].kind
    decreases |ts|
  {
    if |ts| >= 2 {
      assert ts[1..][1..] == ts[2..];
      if BothText(ts[0], ts[1]) {
        var next := [Joined(ts[0], ts[1])] + ts[2..];
        assert next[1..] == ts[2..];
        assert Safe(p, ts[0]) && SafeF(p, ts[1..]) && Safe(p, next[0]);
        MergeSafe(p, next);
      } else {
        MergeSafe(p, ts[1..]);
        var out := Merge(ts[1..]);
        assert Merge(ts)[1..] == out;
        forall i | 0 <= i < |out|
          ensures !BothText(Merge(ts)[i], Merge(ts)[i + 1])
        {
          assert i > 0 ==> Merge(ts)[i] == out[i - 1];
        }
      }
    } else if |ts| == 1 {
      assert ts[1..] == [];
    }
  }

  // Whatever parsed tree comes in, only safe nodes come out.
  lemma {:induction false} CleanIsSafe(p: Policy, t: Tree)
    requires Lawful(p) && Parsed(t)
    ensures SafeF(p, Clean(p, t))
    decreases t, 1
  {
    CleanAllSafe(p, t.kids);
    MergeSafe(p, CleanF(p, t.kids));
    var name := p.lower(t.data);
    CleanAttributesSafe(p, name, t.attr);
    var out := Clean(p, t);
    if t.kind == Element && !DropsSubtree(name) && AllowsElement(name) {
      assert Safe(p, out[0]);
    }
    assert out == [] || out == CleanF(p, t.kids) || out[1..] == [];
  }

  lemma {:induction false} CleanAllSafe(p: Policy, ts: Forest)
    requires Lawful(p) && ParsedF(ts)
    ensures SafeF(p, CleanF(p, ts))
    decreases ts, 0
  {
    if ts != [] {
      CleanIsSafe(p, ts[0]);
      CleanAllSafe(p, ts[1..]);
      SafeConcat(p, Clean(p, ts[0]), CleanF(p, ts[1..]));
    }
  }

  // The children of a sanitized body.
  lemma SanitizedBodyIsSafe(p: Policy, kids: Forest)
    requires Lawful(p) && ParsedF(kids)
    ensures SafeF(p, Merge(CleanF(p, kids))) && NoAdjacentText(Merge(CleanF(p, kids)))
  {
    CleanAllSafe(p, kids);
    MergeSafe(p, CleanF(p, kids));
  }

  // ----- sanitizing again changes nothing

  // Each tree of the forest is its own sanitization.
  ghost predicate Fixed(p: Policy, ts: Forest) {
    forall t :: t in ts ==> Clean(p, t) == [t]
  }

  lemma {:induction false} FixedStays(p: Policy, ts: Forest)
    requires Fixed(p, ts)
    ensures CleanF(p, ts) == ts
  {
    if ts != [] {
      FixedStays(p, ts[1..]);
      assert CleanF(p, ts) == [ts[0]] + ts[1..];
    }
  }

  lemma {:induction false} MergeFixed(p: Policy, ts: Forest)
    requires Fixed(p, ts)
    ensures Fixed(p, Merge(ts))
    decreases |ts|
  {
    if |ts| >= 2 {
      if BothText(ts[0], ts[1]) {
        MergeFixed(p, [Joined(ts[0], ts[1])] + ts[2..]);
      } else {
        MergeFixed(p, ts[1..]);
      }
    }
  }

  lemma {:induction false} MergeTwice(ts: Forest)
    ensures Merge(Merge(ts)) == Merge(ts)
    ensures ts != [] ==> Merge(ts) != [] && Merge(ts)[0].kind == ts[0].kind
    decreases |ts|
  {
    if |ts| >= 2 {
      if BothText(ts[0], ts[1]) {
        MergeTwice([Joined(ts[0], ts[1])] + ts[2..]);
      } else {
        MergeTwice(ts[1..]);
        assert Merge(ts)[1..] == Merge(ts[1..]);
      }
    }
  }

  // Cleaning attributes again finds the same safe href, the same title and the
  // rel it appended, which it replaces by itself.
  lemma {:induction false} CleanLinkTwice(p: Policy, attrs: seq<Attribute>, href: bool, title: bool)
    requires Lawful(p)
    ensures var out := CleanLink(p, attrs, href, title);
      CleanLink(p, out + [REL], href, title) == out
  {
    if attrs == [] {
      assert CleanLink(p, [] + [REL], href, title) == KeptAttribute(p, REL, href, title)
        + CleanLink(p, ([] + [REL])[1..], HrefSeen(p, REL, href), TitleSeen(p, REL, title));
      assert Key(p, REL) == "rel";
    } else {
      var a := attrs[0];
      var href', title' := HrefSeen(p, a, href), TitleSeen(p, a, title);
      var kept, rest := KeptAttribute(p, a, href, title), CleanLink(p, attrs[1..], href', title');
      CleanLinkTwice(p, attrs[1..], href', title');
      if kept == [] {
        assert kept + rest == rest;
        assert href' == href && title' == title;
      } else {
        assert (kept + rest + [REL])[0] == kept[0] && (kept + rest + [REL])[1..] == rest + [REL];
      }
    }
  }

  lemma CleanAttributesTwice(p: Policy, name: string, attrs: seq<Attribute>)
    requires Lawful(p)
    ensures CleanAttributes(p, name, CleanAttributes(p, name, attrs)) == CleanAttributes(p, name, attrs)
  {
    CleanLinkTwice(p, attrs, false, false);
  }

  lemma {:induction false} CleanIsFixed(p: Policy, t: Tree)
    requires Lawful(p)
    ensures Fixed(p, Clean(p, t))
    decreases t, 1
  {
    CleanAllFixed(p, t.kids);
    var name, kids := p.lower(t.data), Merge(CleanF(p, t.kids));
    if t.kind == Element && !DropsSubtree(name) && AllowsElement(name) {
      MergeFixed(p, CleanF(p, t.kids));
      FixedStays(p, kids);
      MergeTwice(CleanF(p, t.kids));
      CleanAttributesTwice(p, name, t.attr);
    }
  }

  lemma {:induction false} CleanAllFixed(p: Policy, ts: Forest)
    requires Lawful(p)
    ensures Fixed(p, CleanF(p, ts))
    decreases ts, 0
  {
    if ts != [] {
      CleanIsFixed(p, ts[0]);
      CleanAllFixed(p, ts[1..]);
    }
  }

  lemma SanitizingTwiceChangesNothing(p: Policy, kids: Forest)
    requires Lawful(p)
    ensures var once := Merge(CleanF(p, kids));
      Merge(CleanF(p, once)) == once
  {
    CleanAllFixed(p, kids);
    MergeFixed(p, CleanF(p, kids));
    FixedStays(p, Merge(CleanF(p, kids)));
    MergeTwice(CleanF(p, kids));
  }

  // ----- source order

  lemma {:induction false} MergeOrder(ts: Forest)
    ensures Subsequence(PreorderF(Merge(ts)), PreorderF(ts))
    decreases |ts|
  {
    if |ts| < 2 {
      SubsequenceSelf(PreorderF(ts));
    } else if BothText(ts[0], ts[1]) {
      var head, tail := Preorder(ts[0]), PreorderF(ts[2..]);
      var next := [Joined(ts[0], ts[1])] + ts[2..];
      assert ts[1..][1..] == ts[2..] && next[0] == Joined(ts[0], ts[1]) && next[1..] == ts[2..];
      assert PreorderF(next) == head + tail;
      assert PreorderF(ts[1..]) == Preorder(ts[1]) + tail;
      assert PreorderF(ts) == head + (Preorder(ts[1]) + tail);
      MergeOrder(next);
      SubsequenceSelf(head);
      SubsequenceSelf(tail);
      SubsequenceSkip(tail, Preorder(ts[1]), tail);
      SubsequenceConcat(head, head, tail, Preorder(ts[1]) + tail);
      SubsequenceTransitive(PreorderF(Merge(ts)), PreorderF(next), PreorderF(ts));
    } else {
      MergeOrder(ts[1..]);
      assert Merge(ts)[0] == ts[0] && Merge(ts)[1..] == Merge(ts[1..]);
      SubsequenceSelf(Preorder(ts[0]));
      SubsequenceConcat(Preorder(ts[0]), Preorder(ts[0]), PreorderF(Merge(ts[1..])), PreorderF(ts[1..]));
    }
  }

  // The surviving nodes keep their document order.
  lemma {:induction false} CleanKeepsOrder(p: Policy, t: Tree)
    ensures Subsequence(PreorderF(Clean(p, t)), Preorder(t))
    decreases t, 1
  {
    var name, kids := p.lower(t.data), CleanF(p, t.kids);
    var inner := PreorderF(t.kids);
    CleanAllKeepsOrder(p, t.kids);
    if t.kind == Element && !DropsSubtree(name) && !AllowsElement(name) {
      SubsequenceSkip(PreorderF(kids), [t.ref], inner);
    } else if Clean(p, t) != [] {
      var out := Clean(p, t)[0];
      assert Clean(p, t)[1..] == [];
      assert PreorderF(Clean(p, t)) == Preorder(out) + [] == Preorder(out);
      MergeOrder(kids);
      SubsequenceTransitive(PreorderF(Merge(kids)), PreorderF(kids), inner);
      SubsequenceSelf([t.ref]);
      SubsequenceSelf(inner);
      SubsequenceConcat([t.ref], [t.ref], PreorderF(out.kids), inner);
    }
  }

  lemma {:induction false} CleanAllKeepsOrder(p: Policy, ts: Forest)
    ensures Subsequence(PreorderF(CleanF(p, ts)), PreorderF(ts))
    decreases ts, 0
  {
    if ts != [] {
      CleanKeepsOrder(p, ts[0]);
      CleanAllKeepsOrder(p, ts[1..]);
      PreorderConcat(Clean(p, ts[0]), CleanF(p, ts[1..]));
      SubsequenceConcat(PreorderF(Clean(p, ts[0])), Preorder(ts[0]),
                        PreorderF(CleanF(p, ts[1..])), PreorderF(ts[1..]));
    }
  }

  // ----- no text is lost, invented or reordered

  ghost function TextOf(t: Tree): string
    decreases t, 1
  {
    if t.kind == Text then t.data else TextOfAll(t.kids)
  }

  ghost function TextOfAll(ts: Forest): string
    decreases ts, 0
  {
    if ts == [] then "" else TextOf(ts[0]) + TextOfAll(ts[1..])
  }

  // The text a reader of the source should see.
  ghost function VisibleText(p: Policy, t: Tree): string
    decreases t, 1
  {
    match t.kind
    case Text => t.data
    case Other => ""
    case Element => if DropsSubtree(p.lower(t.data)) then Alt(p, t) else VisibleTextOfAll(p, t.kids)
  }

  ghost function VisibleTextOfAll(p: Policy, ts: Forest): string
    decreases ts, 0
  {
    if ts == [] then "" else VisibleText(p, ts[0]) + VisibleTextOfAll(p, ts[1..])
  }

  lemma {:induction false} TextConcat(a: Forest, b: Forest)
    ensures TextOfAll(a + b) == TextOfAll(a) + TextOfAll(b)
  {
    if a == [] {
      assert a + b == b;
    } else {
      TextConcat(a[1..], b);
      assert (a + b)[1..] == a[1..] + b;
      assert TextOfAll(a + b) == TextOf(a[0]) + TextOfAll(a[1..] + b);
      Associate(TextOf(a[0]), TextOfAll(a[1..]), TextOfAll(b));
    }
  }

  lemma {:induction false} MergeKeepsText(ts: Forest)
    ensures TextOfAll(Merge(ts)) == TextOfAll(ts)
    decreases |ts|
  {
    if |ts| >= 2 {
      if BothText(ts[0], ts[1]) {
        var next := [Joined(ts[0], ts[1])] + ts[2..];
        assert ts[1..][1..] == ts[2..] && next[1..] == ts[2..];
        MergeKeepsText(next);
        assert TextOf(ts[0]) == ts[0].data && TextOf(ts[1]) == ts[1].data;
        assert TextOfAll(ts[1..]) == ts[1].data + TextOfAll(ts[2..]);
        Associate(ts[0].data, ts[1].data, TextOfAll(ts[2..]));
      } else {
        MergeKeepsText(ts[1..]);
        assert Merge(ts)[1..] == Merge(ts[1..]);
      }
    }
  }

  lemma {:induction false} CleanKeepsText(p: Policy, t: Tree)
    ensures TextOfAll(Clean(p, t)) == VisibleText(p, t)
    decreases t, 1
  {
    CleanAllKeepsText(p, t.kids);
    MergeKeepsText(CleanF(p, t.kids));
    var out := Clean(p, t);
    if |out| == 1 {
      assert out[1..] == [] && TextOfAll(out) == TextOf(out[0]) + "";
    }
  }

  lemma {:induction false} CleanAllKeepsText(p: Policy, ts: Forest)
    ensures TextOfAll(CleanF(p, ts)) == VisibleTextOfAll(p, ts)
    decreases ts, 0
  {
    if ts != [] {
      CleanKeepsText(p, ts[0]);
      CleanAllKeepsText(p, ts[1..]);
      TextConcat(Clean(p, ts[0]), CleanF(p, ts[1..]));
    }
  }
}
