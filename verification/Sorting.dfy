// Sorting by a text key.
module Sorting {
  // The order of texts by their characters' code points.
  predicate TextLe(a: string, b: string) {
    a == "" || (b != "" && (a[0] < b[0] || (a[0] == b[0] && TextLe(a[1..], b[1..]))))
  }

  lemma {:induction false} TextLeTotal(a: string, b: string)
    ensures TextLe(a, b) || TextLe(b, a)
  {
    if a != "" && b != "" {
      TextLeTotal(a[1..], b[1..]);
    }
  }

  predicate IsSorted<T(!new)>(key: T -> string, s: seq<T>) {
    |s| < 2 || (TextLe(key(s[0]), key(s[1])) && IsSorted(key, s[1..]))
  }

  function Insert<T(!new)>(key: T -> string, x: T, s: seq<T>): seq<T> {
    if s == [] || TextLe(key(x), key(s[0])) then [x] + s else [s[0]] + Insert(key, x, s[1..])
  }

  function Sort<T(!new)>(key: T -> string, s: seq<T>): seq<T> {
    if s == [] then [] else Insert(key, s[0], Sort(key, s[1..]))
  }

  lemma {:induction false} InsertSorts<T(!new)>(key: T -> string, x: T, s: seq<T>)
    requires IsSorted(key, s)
    ensures IsSorted(key, Insert(key, x, s))
    ensures Insert(key, x, s) != []
    ensures Insert(key, x, s)[0] == if s == [] || TextLe(key(x), key(s[0])) then x else s[0]
  {
    hide TextLe;
    if s == [] || TextLe(key(x), key(s[0])) {
      assert ([x] + s)[1..] == s;
    } else {
      TextLeTotal(key(x), key(s[0]));
      InsertSorts(key, x, s[1..]);
      assert Insert(key, x, s)[1..] == Insert(key, x, s[1..]);
    }
  }

  lemma {:induction false} InsertAdds<T(!new)>(key: T -> string, x: T, s: seq<T>)
    ensures multiset(Insert(key, x, s)) == multiset(s) + multiset{x}
  {
    hide TextLe;
    if !(s == [] || TextLe(key(x), key(s[0]))) {
      InsertAdds(key, x, s[1..]);
      assert s == [s[0]] + s[1..];
    }
  }

  lemma {:induction false} SortSorts<T(!new)>(key: T -> string, s: seq<T>)
    ensures IsSorted(key, Sort(key, s)) && multiset(Sort(key, s)) == multiset(s)
  {
    if s != [] {
      SortSorts(key, s[1..]);
      InsertSorts(key, s[0], Sort(key, s[1..]));
      InsertAdds(key, s[0], Sort(key, s[1..]));
      assert s == [s[0]] + s[1..];
    }
  }

  lemma SortKeepsElements<T(!new)>(key: T -> string, s: seq<T>)
    ensures |Sort(key, s)| == |s|
    ensures forall x :: x in Sort(key, s) <==> x in s
  {
    SortSorts(key, s);
    var r := Sort(key, s);
    assert |multiset(r)| == |r| && |multiset(s)| == |s|;
    assert forall x :: x in s <==> x in multiset(s);
    assert forall x :: x in r <==> x in multiset(r);
  }

  lemma {:induction false} SortedStays<T(!new)>(key: T -> string, s: seq<T>)
    requires IsSorted(key, s)
    ensures Sort(key, s) == s
  {
    if s != [] {
      SortedStays(key, s[1..]);
      assert s == [s[0]] + s[1..];
    }
  }

  // No two entries have the same key.
  ghost predicate DistinctKeys<T(!new)>(key: T -> string, s: seq<T>) {
    forall i, j :: 0 <= i < j < |s| ==> key(s[i]) != key(s[j])
  }

  lemma FirstKeyIsAlone<T(!new)>(key: T -> string, s: seq<T>)
    requires DistinctKeys(key, s) && s != []
    ensures DistinctKeys(key, s[1..]) && forall y :: y in s[1..] ==> key(y) != key(s[0])
  {
    forall y | y in s[1..] ensures key(y) != key(s[0]) {
      var i :| 0 <= i < |s[1..]| && s[1..][i] == y;
      assert s[i + 1] == y;
    }
  }

  lemma ConsIsDistinct<T(!new)>(key: T -> string, x: T, s: seq<T>)
    requires DistinctKeys(key, s) && forall y :: y in s ==> key(y) != key(x)
    ensures DistinctKeys(key, [x] + s)
  {
    var r := [x] + s;
    forall i, j | 0 <= i < j < |r| ensures key(r[i]) != key(r[j]) {
      assert r[j] == s[j - 1] && r[j] in s;
      if i > 0 {
        assert r[i] == s[i - 1];
      }
    }
  }

  lemma {:induction false} InsertKeepsElements<T(!new)>(key: T -> string, x: T, s: seq<T>)
    ensures forall y :: y in Insert(key, x, s) <==> y == x || y in s
  {
    if s == [] || TextLe(key(x), key(s[0])) {
    } else {
      InsertKeepsElements(key, x, s[1..]);
      assert s == [s[0]] + s[1..];
    }
  }

  lemma {:induction false} InsertKeepsDistinct<T(!new)>(key: T -> string, x: T, s: seq<T>)
    requires DistinctKeys(key, s) && forall y :: y in s ==> key(y) != key(x)
    ensures DistinctKeys(key, Insert(key, x, s))
  {
    hide DistinctKeys;
    if s == [] || TextLe(key(x), key(s[0])) {
      ConsIsDistinct(key, x, s);
    } else {
      assert s[0] in s;
      FirstKeyIsAlone(key, s);
      InsertKeepsDistinct(key, x, s[1..]);
      InsertKeepsElements(key, x, s[1..]);
      ConsIsDistinct(key, s[0], Insert(key, x, s[1..]));
    }
  }

  lemma {:induction false} SortKeepsDistinct<T(!new)>(key: T -> string, s: seq<T>)
    requires DistinctKeys(key, s)
    ensures DistinctKeys(key, Sort(key, s))
  {
    if s != [] {
      var rest := s[1..];
      FirstKeyIsAlone(key, s);
      SortKeepsDistinct(key, rest);
      SortKeepsElements(key, rest);
      forall y | y in Sort(key, rest) ensures key(y) != key(s[0]) {
        assert y in rest;
      }
      InsertKeepsDistinct(key, s[0], Sort(key, rest));
    }
  }
}
