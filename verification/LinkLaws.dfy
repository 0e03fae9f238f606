// Which links are found, and what the reduced bodies keep of the text around
// them.
module LinkLaws {
  import opened Links
  import opened Sequences
  import opened Texts

  // ----- the links that are found

  function Fold(c: char): char {
    if 'A' <= c <= 'Z' then (c as int + 32) as char else if c == '\U{017F}' then 's' else c
  }

  function Folded(s: string): string {
    seq(|s|, i requires 0 <= i < |s| => Fold(s[i]))
  }

  predicate IsScheme(s: string) {
    Folded(s) == "http://" || Folded(s) == "https://"
  }

  // From `start` to `end` there is a scheme of `n` characters and behind it as
  // many link characters as there are, at least one.
  predicate IsLink(text: string, start: nat, n: nat, end: nat) {
    && start + n < end <= |text| && IsScheme(text[start..start + n])
    && (forall i :: start + n <= i < end ==> IsLinkRune(text[i]))
    && (end < |text| ==> !IsLinkRune(text[end]))
  }

  ghost predicate LinkAt(text: string, start: nat, end: nat) {
    exists n: nat :: IsLink(text, start, n, end)
  }

  lemma FoldedPrefix(s: string, n: nat)
    requires n <= |s|
    ensures Folded(s[..n]) == Folded(s)[..n]
  {
  }

  // The scheme is where the pattern says.
  lemma SchemeIsFound(s: string, n: nat)
    requires n <= |s|
    ensures n > 0 && SchemeLength(s) == n <==> IsScheme(s[..n])
  {
    FoldedPrefix(s, n);
    var f := Folded(s);
    assert forall i :: 0 <= i < |s| ==> f[i] == Fold(s[i]);
    Letters(s);
    if IsScheme(s[..n]) {
      assert f[..n][0] == 'h' && f[..n][1] == 't' && f[..n][2] == 't' && f[..n][3] == 'p';
      if f[..n] == "http://" {
        assert f[..n][4] == ':' && f[..n][5] == '/' && f[..n][6] == '/';
        assert s[4..7] == "://";
      } else {
        assert f[..n][4] == 's' && f[..n][5] == ':' && f[..n][6] == '/' && f[..n][7] == '/';
        assert s[5..8] == "://";
      }
    }
    if n > 0 && SchemeLength(s) == n {
      var m := n - 3;
      assert s[m..m + 3][0] == ':' && s[m..m + 3][1] == '/' && s[m..m + 3][2] == '/';
      assert f[..n] == if n == 7 then "http://" else "https://";
    }
  }

  lemma Letters(s: string)
    ensures forall i :: 0 <= i < |s| ==>
              && (Fold(s[i]) == 'h' <==> s[i] in "hH") && (Fold(s[i]) == 't' <==> s[i] in "tT")
              && (Fold(s[i]) == 'p' <==> s[i] in "pP") && (Fold(s[i]) == 's' <==> s[i] in "sS\U{017F}")
              && (Fold(s[i]) == ':' <==> s[i] == ':') && (Fold(s[i]) == '/' <==> s[i] == '/')
  {
  }

  lemma {:induction false} RunIsMaximal(s: string)
    ensures forall i :: 0 <= i < RunLength(s) ==> IsLinkRune(s[i])
    ensures RunLength(s) < |s| ==> !IsLinkRune(s[RunLength(s)])
  {
    if s != "" && IsLinkRune(s[0]) {
      RunIsMaximal(s[1..]);
      assert forall i :: 0 < i < |s| ==> s[i] == s[1..][i - 1];
    }
  }

  lemma MatchIsLink(text: string, start: nat)
    requires start <= |text|
    ensures MatchLength(text[start..]) > 0 ==> LinkAt(text, start, start + MatchLength(text[start..]))
    ensures forall end: nat :: LinkAt(text, start, end) ==> end == start + MatchLength(text[start..])
  {
    hide IsScheme, IsLinkRune, SchemeLength;
    var s := text[start..];
    var n := SchemeLength(s);
    SchemeIsFound(s, n);
    RunIsMaximal(s[n..]);
    if MatchLength(s) > 0 {
      assert s[..n] == text[start..start + n];
      var end := start + MatchLength(s);
      forall i | start + n <= i < end ensures IsLinkRune(text[i]) {
        assert s[n..][i - start - n] == text[i];
      }
      assert end < |text| ==> text[end] == s[n..][RunLength(s[n..])];
      assert IsLink(text, start, n, end);
    }
    forall end: nat | LinkAt(text, start, end) ensures end == start + MatchLength(s) {
      var m: nat :| IsLink(text, start, m, end);
      assert s[..m] == text[start..start + m];
      SchemeIsFound(s, m);
      var k := RunLength(s[n..]);
      assert start + n + k < |text| ==> s[n..][k] == text[start + n + k];
    }
  }

  ghost predicate Covered(matches: seq<Match>, place: nat) {
    exists m :: m in matches && m.start <= place < m.end
  }

  // Every match is a link, and every place from which on a link could be read
  // lies in a match; matches do not overlap.
  lemma {:induction false} LinksAreFound(text: string, from: nat)
    requires from <= |text|
    ensures forall m :: m in FindLinks(text, from) ==> LinkAt(text, m.start, m.end)
    ensures forall place: nat, end: nat :: from <= place && LinkAt(text, place, end) ==>
              Covered(FindLinks(text, from), place)
    decreases |text| - from
  {
    hide LinkAt, MatchLength, InOrder;
    if from < |text| {
      var n := MatchLength(text[from..]);
      MatchIsLink(text, from);
      var found := FindLinks(text, from);
      if n > 0 {
        LinksAreFound(text, from + n);
        var later := FindLinks(text, from + n);
        assert found == [Match(from, from + n)] + later;
        forall place: nat, end: nat | from <= place && LinkAt(text, place, end) ensures Covered(found, place) {
          if place < from + n {
            assert found[0] in found;
          } else {
            assert Covered(later, place);
            var m :| m in later && m.start <= place < m.end;
            assert m in found;
          }
        }
      } else {
        LinksAreFound(text, from + 1);
        LinkIsNotEmpty(text);
      }
    } else {
      LinkIsNotEmpty(text);
    }
  }

  lemma LinkIsNotEmpty(text: string)
    ensures forall start: nat, end: nat :: LinkAt(text, start, end) ==> start < end <= |text|
  {
  }

  // ----- showing hosts

  predicate InAngles(text: string, m: Match) {
    0 < m.start && m.start <= |text| && text[m.start - 1] == '<' && m.end < |text| && text[m.end] == '>'
  }

  // What stands for one link: the host in place of a long address, in angle
  // brackets unless it is in them already.
  function LinkShown(host: Hosts, text: string, m: Match): string
    requires m.start <= m.end <= |text|
  {
    var matched := text[m.start..m.end];
    var address, tail := matched[..AddressEnd(matched)], matched[AddressEnd(matched)..];
    if !Shortens(host, Host, address) then matched
    else (if InAngles(text, m) then host(address).value else "<" + host(address).value + ">") + tail
  }

  // The body with every link shown where it stands, in one scan.
  function HostsShown(host: Hosts, text: string, from: nat): string
    requires from <= |text|
    decreases |text| - from
  {
    if from == |text| then ""
    else
      var n := MatchLength(text[from..]);
      if n == 0 then [text[from]] + HostsShown(host, text, from + 1)
      else LinkShown(host, text, Match(from, from + n)) + HostsShown(host, text, from + n)
  }

  // Nothing has been written that a link at `from` could directly follow.
  ghost predicate Apart(text: string, last: nat, from: nat, out: string) {
    last <= from <= |text| && (last == from ==> (from == 0 && out == "") || MatchLength(text[from..]) == 0)
  }

  lemma LastWritten(text: string, last: nat, from: nat, out: string)
    requires last < from <= |text| || (last == from == 0 && out == "")
    ensures EndsInAngle(out + text[last..from]) <==> from > 0 && text[from - 1] == '<'
  {
    if last < from {
      assert (out + text[last..from])[|out| + from - last - 1] == text[from - 1];
    }
  }

  lemma NoLinkFollows(text: string, from: nat)
    requires from < |text| && MatchLength(text[from..]) > 0
    ensures var end := from + MatchLength(text[from..]); end <= |text| && MatchLength(text[end..]) == 0
  {
    hide IsScheme, IsLinkRune, SchemeLength, RunLength;
    var end := from + MatchLength(text[from..]);
    MatchIsLink(text, from);
    if MatchLength(text[end..]) > 0 {
      assert text[end..][0] == text[end];
      var n: nat :| IsLink(text, from, n, end);
      LinkStarts(text[end]);
    }
  }

  lemma LinkStarts(c: char)
    ensures c in "hH" ==> IsLinkRune(c)
  {
  }

  lemma ShownHost(host: Hosts, text: string, m: Match, before: string)
    requires m.start < m.end <= |text| && (EndsInAngle(before) <==> m.start > 0 && text[m.start - 1] == '<')
    ensures
      var matched := text[m.start..m.end];
      var address, tail := matched[..AddressEnd(matched)], matched[AddressEnd(matched)..];
      if Shortens(host, Host, address) then
        var r := Replace(host, Host, before, address, tail, text[m.end..]);
        r.dropped == 0 && r.skipped == 0 && r.shown == LinkShown(host, text, m)
      else LinkShown(host, text, m) == matched
  {
    hide AddressEnd, Bytes;
    assert m.end < |text| ==> text[m.end..][0] == text[m.end];
  }

  lemma {:induction false} HostsAreShown(host: Hosts, text: string, last: nat, from: nat, out: string)
    requires Apart(text, last, from, out)
    requires InOrder(text, last, FindLinks(text, from))
    ensures Reduce(host, Host, text, FindLinks(text, from), last, out)
         == (out + text[last..from]) + HostsShown(host, text, from)
    decreases |text| - from
  {
    hide AddressEnd, Shortens, Replace, Reduce, MatchLength, InOrder, LinkShown;
    var links := FindLinks(text, from);
    if from == |text| {
      NothingToReduce(host, Host, text, last, out);
      assert text[last..] == text[last..from];
      assert (out + text[last..from]) + "" == out + text[last..];
    } else if MatchLength(text[from..]) == 0 {
      HostsAreShown(host, text, last, from + 1, out);
      assert text[last..from + 1] == text[last..from] + [text[from]];
      Associate(out, text[last..from], [text[from]]);
      Associate(out + text[last..from], [text[from]], HostsShown(host, text, from + 1));
    } else {
      var m := Match(from, from + MatchLength(text[from..]));
      assert links == [m] + FindLinks(text, m.end);
      LinkIsReplaced(host, text, last, from, out, m);
    }
  }

  lemma FindNext(text: string, from: nat)
    requires from < |text| && MatchLength(text[from..]) > 0
    ensures
      var m := Match(from, from + MatchLength(text[from..]));
      FindLinks(text, from) == [m] + FindLinks(text, m.end)
  {
    hide MatchLength, InOrder;
  }

  lemma HostsShownNext(host: Hosts, text: string, from: nat)
    requires from < |text| && MatchLength(text[from..]) > 0
    ensures
      var m := Match(from, from + MatchLength(text[from..]));
      HostsShown(host, text, from) == LinkShown(host, text, m) + HostsShown(host, text, m.end)
  {
    hide MatchLength, LinkShown;
  }

  ghost predicate IsLong(host: Hosts, text: string, m: Match)
    requires m.start <= m.end <= |text|
  {
    var matched := text[m.start..m.end];
    Shortens(host, Host, matched[..AddressEnd(matched)])
  }

  // The next link is shown or stays.
  lemma NextIsReduced(host: Hosts, text: string, last: nat, from: nat, out: string, m: Match)
    requires Apart(text, last, from, out) && from < |text| && MatchLength(text[from..]) > 0
    requires m == Match(from, from + MatchLength(text[from..]))
    requires InOrder(text, last, FindLinks(text, from))
    ensures !IsLong(host, text, m) ==> LinkShown(host, text, m) == text[from..m.end]
    ensures InOrder(text, last, FindLinks(text, m.end))
    ensures
      var rest, written := FindLinks(text, m.end), (out + text[last..from]) + LinkShown(host, text, m);
      Reduce(host, Host, text, FindLinks(text, from), last, out)
      == if IsLong(host, text, m) then Reduce(host, Host, text, rest, m.end, written)
         else Reduce(host, Host, text, rest, last, out)
  {
    hide AddressEnd, Shortens, Replace, Reduce, MatchLength, InOrder, FindLinks, LinkShown, InAngles, EndsInAngle;
    var before := out + text[last..from];
    FindNext(text, from);
    assert ([m] + FindLinks(text, m.end))[1..] == FindLinks(text, m.end);
    LastWritten(text, last, from, out);
    ReduceNext(host, Host, text, FindLinks(text, from), last, out);
    ShownHost(host, text, m, before);
    assert before[..|before| - 0] == before;
  }

  lemma {:induction false} LinkIsReplaced(host: Hosts, text: string, last: nat, from: nat, out: string, m: Match)
    requires Apart(text, last, from, out) && from < |text| && MatchLength(text[from..]) > 0
    requires m == Match(from, from + MatchLength(text[from..]))
    requires InOrder(text, last, FindLinks(text, from))
    ensures Reduce(host, Host, text, FindLinks(text, from), last, out)
         == (out + text[last..from]) + HostsShown(host, text, from)
    decreases |text| - from, 0
  {
    hide IsLong, Reduce, MatchLength, InOrder, FindLinks, LinkShown, HostsShown;
    HostsShownNext(host, text, from);
    var before, shown, rest := out + text[last..from], LinkShown(host, text, m), HostsShown(host, text, m.end);
    NoLinkFollows(text, from);
    NextIsReduced(host, text, last, from, out, m);
    if IsLong(host, text, m) {
      HostsAreShown(host, text, m.end, m.end, before + shown);
      assert (before + shown) + text[m.end..m.end] == before + shown;
    } else {
      HostsAreShown(host, text, last, m.end, out);
      assert text[last..m.end] == text[last..from] + shown;
      Associate(out, text[last..from], shown);
    }
    Associate(before, shown, rest);
  }

  // Showing hosts replaces each long link where it stands and leaves all other
  // text as it is, but for blank lines.
  lemma HostModeIsLocal(host: Hosts, text: string)
    ensures Reduced(host, Host, text) == CollapseBlankLines(HostsShown(host, text, 0))
  {
    HostsAreShown(host, text, 0, 0, "");
    assert ("" + text[0..0]) + HostsShown(host, text, 0) == HostsShown(host, text, 0);
  }

  // ----- leaving links out

  // The characters of `text[..n]` at the places in `kept`.
  ghost function Picked(text: string, n: nat, kept: set<nat>): string
    requires n <= |text|
  {
    if n == 0 then "" else Picked(text, n - 1, kept) + if n - 1 in kept then [text[n - 1]] else ""
  }

  // Where the address of a match ends and its tail begins.
  function TailStart(text: string, m: Match): nat
    requires m.start <= m.end <= |text|
  {
    m.start + AddressEnd(text[m.start..m.end])
  }

  // The match is a link that goes.
  predicate Goes(host: Hosts, text: string, m: Match) {
    m.start < m.end <= |text| && Shortens(host, NoLinks, text[m.start..TailStart(text, m)])
  }

  // Character `i` goes because of the link `m`: it is in the address, it is
  // the bracket right behind it, or it is a bracket in front of it with nothing
  // kept in between.
  ghost predicate GoesWith(host: Hosts, text: string, kept: set<nat>, m: Match, i: nat) {
    && Goes(host, text, m) && i < |text|
    && (|| m.start <= i < TailStart(text, m)
        || (i == TailStart(text, m) && text[i] == ')')
        || (i == m.end && text[i] == '>')
        || (i < m.start && text[i] in "< (" && forall j :: i < j < m.start ==> j !in kept))
  }

  ghost predicate GoesWithOne(host: Hosts, text: string, links: seq<Match>, n: nat, kept: set<nat>, i: nat) {
    exists m :: m in links && m.end <= n && GoesWith(host, text, kept, m, i)
  }

  ghost predicate InAddress(host: Hosts, text: string, links: seq<Match>, i: nat) {
    exists m :: m in links && Goes(host, text, m) && m.start <= i < TailStart(text, m)
  }

  // Of the first `n` characters, those that are not kept go with one of the
  // links, and no character of an address is kept.
  ghost predicate KeptBut(host: Hosts, text: string, links: seq<Match>, n: nat, kept: set<nat>) {
    && (forall i: nat :: i in kept ==> i < n)
    && (forall i: nat :: i < n && i !in kept ==> GoesWithOne(host, text, links, n, kept, i))
    && (forall i: nat :: i in kept ==> !InAddress(host, text, links, i))
  }

  function Between(a: nat, b: nat): (r: set<nat>)
    ensures forall i: nat :: i in r <==> a <= i < b
    decreases b
  {
    if b <= a then {} else Between(a, b - 1) + {b - 1}
  }

  // What is kept once the link `m` has gone, with the places `dropped` in front
  // of it; of its tail only what stands from `tail` on is kept.
  ghost predicate LinkGone(host: Hosts, text: string, m: Match, last: nat, next: nat, tail: nat,
                           kept: set<nat>, dropped: set<nat>, now: set<nat>) {
    && Goes(host, text, m) && last <= m.start
    && TailStart(text, m) <= tail <= m.end <= next <= m.end + 1 && next <= |text|
    && (tail > TailStart(text, m) ==> tail == TailStart(text, m) + 1 && text[tail - 1] == ')')
    && (next > m.end ==> text[m.end] == '>')
    && now == (kept + Between(last, m.start) - dropped) + Between(tail, m.end)
    && forall d: nat :: d in dropped ==> d < m.start && text[d] in "< (" && forall j :: d < j < m.start ==> j !in now
  }

  lemma GoneWithLink(host: Hosts, text: string, m: Match, last: nat, next: nat, tail: nat,
                     kept: set<nat>, dropped: set<nat>, now: set<nat>, i: nat)
    requires LinkGone(host, text, m, last, next, tail, kept, dropped, now)
    requires i < next && i !in now && (i < last ==> i in kept)
    ensures GoesWith(host, text, now, m, i)
  {
  }

  lemma StillGone(host: Hosts, text: string, m: Match, last: nat, next: nat, tail: nat,
                  kept: set<nat>, dropped: set<nat>, now: set<nat>, l: Match, i: nat)
    requires LinkGone(host, text, m, last, next, tail, kept, dropped, now)
    requires GoesWith(host, text, kept, l, i) && l.end <= last
    ensures GoesWith(host, text, now, l, i)
  {
  }

  lemma KeptNext(host: Hosts, text: string, links: seq<Match>, m: Match, last: nat, next: nat, tail: nat,
                 kept: set<nat>, dropped: set<nat>, now: set<nat>)
    requires KeptBut(host, text, links, last, kept) && m in links
    requires LinkGone(host, text, m, last, next, tail, kept, dropped, now)
    requires forall l :: l in links && Goes(host, text, l) && l != m ==> l.end <= last || l.start >= next
    ensures KeptBut(host, text, links, next, now)
  {
    hide GoesWith;
    forall i: nat | i < next && i !in now ensures GoesWithOne(host, text, links, next, now, i) {
      if i < last && i !in kept {
        var l :| l in links && l.end <= last && GoesWith(host, text, kept, l, i);
        StillGone(host, text, m, last, next, tail, kept, dropped, now, l, i);
      } else {
        GoneWithLink(host, text, m, last, next, tail, kept, dropped, now, i);
      }
    }
    forall i: nat | i in now ensures !InAddress(host, text, links, i) {
      if l :| l in links && Goes(host, text, l) && l.start <= i < TailStart(text, l) {
        assert l != m ==> InAddress(host, text, links, i) && i in kept;
      }
    }
  }

  lemma {:induction false} PickedCopies(text: string, last: nat, n: nat, kept: set<nat>, more: set<nat>)
    requires last <= n <= |text|
    requires (forall i: nat :: i in kept ==> i < last) && more == kept + Between(last, n)
    ensures Picked(text, n, more) == Picked(text, last, kept) + text[last..n]
    decreases n
  {
    if n == last {
      PickedSame(text, n, kept, more);
      assert text[last..n] == "";
    } else {
      var fewer := kept + Between(last, n - 1);
      PickedCopies(text, last, n - 1, kept, fewer);
      PickedSame(text, n - 1, fewer, more);
      assert text[last..n] == text[last..n - 1] + [text[n - 1]];
    }
  }

  lemma {:induction false} PickedSame(text: string, n: nat, a: set<nat>, b: set<nat>)
    requires n <= |text| && forall i: nat :: i < n ==> (i in a <==> i in b)
    ensures Picked(text, n, a) == Picked(text, n, b)
  {
    if n > 0 {
      PickedSame(text, n - 1, a, b);
    }
  }

  // Going on without keeping anything.
  lemma {:induction false} PickedSkips(text: string, last: nat, n: nat, kept: set<nat>)
    requires last <= n <= |text| && forall i: nat :: i in kept ==> i < last
    ensures Picked(text, n, kept) == Picked(text, last, kept)
    decreases n
  {
    if n > last {
      PickedSkips(text, last, n - 1, kept);
    }
  }

  // Dropping the last character drops the last place kept.
  lemma {:induction false} PickedDrops(text: string, n: nat, kept: set<nat>) returns (i: nat)
    requires n <= |text| && Picked(text, n, kept) != ""
    ensures i in kept && i < n && text[i] == Picked(text, n, kept)[|Picked(text, n, kept)| - 1]
    ensures forall j: nat :: i < j < n ==> j !in kept
    ensures Picked(text, n, kept - {i}) == Picked(text, n, kept)[..|Picked(text, n, kept)| - 1]
  {
    var all := Picked(text, n, kept);
    if n - 1 in kept {
      i := n - 1;
      PickedSame(text, n - 1, kept, kept - {i});
      assert all[..|all| - 1] == Picked(text, n - 1, kept);
      assert Picked(text, n - 1, kept) + "" == Picked(text, n - 1, kept);
    } else {
      assert all == Picked(text, n - 1, kept);
      i := PickedDrops(text, n - 1, kept);
      assert Picked(text, n - 1, kept - {i}) + "" == Picked(text, n - 1, kept - {i});
    }
  }

  // The links from `k` on are still ahead of `last`, those before it are not.
  ghost predicate Ahead(host: Hosts, text: string, links: seq<Match>, k: nat, last: nat) {
    && k <= |links| && last <= |text| && InOrder(text, 0, links) && InOrder(text, last, links[k..])
    && forall i :: 0 <= i < k && Goes(host, text, links[i]) ==> links[i].end <= last
  }

  lemma AheadOfLink(host: Hosts, text: string, links: seq<Match>, k: nat, last: nat, next: nat)
    requires Ahead(host, text, links, k, last) && k < |links| && last <= next <= |text|
    requires links[k].end <= next && (next == links[k].end || (next == links[k].end + 1 && text[links[k].end] == '>'))
    ensures Ahead(host, text, links, k + 1, next)
    ensures forall l :: l in links && Goes(host, text, l) && l != links[k] ==> l.end <= last || l.start >= next
  {
    hide Goes;
    var rest := links[k..];
    assert rest[0] == links[k] && rest[1..] == links[k + 1..];
    assert forall i :: k < i < |links| ==> links[i] == rest[i - k];
    if next > links[k].end {
      assert StartsWith(text[links[k].end..], '>');
      NextMatches(text, last, rest, 1);
    } else {
      NextMatches(text, last, rest, 0);
    }
    forall l | l in links && Goes(host, text, l) && l != links[k] ensures l.end <= last || l.start >= next {
      var i :| 0 <= i < |links| && links[i] == l;
      assert i > k ==> l == links[k + 1..][i - k - 1];
    }
  }

  lemma AheadOfOther(host: Hosts, text: string, links: seq<Match>, k: nat, last: nat)
    requires Ahead(host, text, links, k, last) && k < |links| && !Goes(host, text, links[k])
    ensures Ahead(host, text, links, k + 1, last)
  {
    hide Goes;
    var rest := links[k..];
    assert rest[1..] == links[k + 1..];
    NextMatches(text, last, rest, 0);
  }

  // Nothing is kept from `start` to `tail`, everything from there to `end`.
  lemma TailIsKept(text: string, start: nat, tail: nat, end: nat, next: nat, kept: set<nat>)
    requires start <= tail <= end <= next <= |text| && forall i: nat :: i in kept ==> i < start
    ensures Picked(text, next, kept + Between(tail, end)) == Picked(text, start, kept) + text[tail..end]
  {
    PickedSkips(text, start, tail, kept);
    PickedCopies(text, tail, end, kept, kept + Between(tail, end));
    PickedSkips(text, end, next, kept + Between(tail, end));
  }

  // What the replacement of a link drops, shows and skips.
  lemma ReplacedBy(host: Hosts, text: string, m: Match, before: string) returns (next: nat, tail: nat, brackets: nat)
    requires Goes(host, text, m)
    ensures
      var start := TailStart(text, m);
      && m.start <= start <= tail <= m.end <= next <= m.end + 1 && next <= |text|
      && (tail > start ==> tail == start + 1 && text[tail - 1] == ')') && (next > m.end ==> text[m.end] == '>')
      && brackets <= |before| && (forall i :: |before| - brackets <= i < |before| ==> before[i] in "< (")
      && Replace(host, NoLinks, before, text[m.start..start], text[start..m.end], text[m.end..])
         == Replacement(brackets, text[tail..m.end], next - m.end)
  {
    hide AddressEnd, Bytes;
    var start := TailStart(text, m);
    assert m.end < |text| ==> text[m.end..][0] == text[m.end];
    assert start < m.end ==> text[start..m.end][0] == text[start] && text[start..m.end][1..] == text[start + 1..m.end];
    next, tail, brackets := m.end, start, 0;
    if EndsInAngle(before) && m.end < |text| && text[m.end] == '>' {
      next, brackets := m.end + 1, 1;
    } else if EndsInParenthesis(before) && start < m.end && text[start] == ')' {
      tail, brackets := start + 1, 2;
    }
  }

  // The last brackets written go.
  lemma {:induction false} DropBrackets(text: string, n: nat, kept: set<nat>, out: string, brackets: nat)
    returns (dropped: set<nat>)
    requires n <= |text| && out == Picked(text, n, kept) && brackets <= |out|
    requires forall i :: |out| - brackets <= i < |out| ==> out[i] in "< ("
    ensures out[..|out| - brackets] == Picked(text, n, kept - dropped)
    ensures forall d: nat :: d in dropped ==>
              d < n && text[d] in "< (" && forall j :: d < j < n ==> j !in kept - dropped
    decreases brackets
  {
    hide Picked;
    dropped := {};
    if brackets == 0 {
      assert kept - dropped == kept && out[..|out| - 0] == out;
    } else {
      var i := PickedDrops(text, n, kept);
      var shorter := out[..|out| - 1];
      var more := DropBrackets(text, n, kept - {i}, shorter, brackets - 1);
      dropped := more + {i};
      assert kept - {i} - more == kept - dropped;
      assert shorter[..|shorter| - (brackets - 1)] == out[..|out| - brackets];
    }
  }

  lemma LinkIsGone(host: Hosts, text: string, m: Match, last: nat, next: nat, tail: nat,
                   kept: set<nat>, dropped: set<nat>)
    requires Goes(host, text, m) && last <= m.start
    requires m.start <= TailStart(text, m) <= tail <= m.end <= next <= m.end + 1 && next <= |text|
    requires tail > TailStart(text, m) ==> tail == TailStart(text, m) + 1 && text[tail - 1] == ')'
    requires next > m.end ==> text[m.end] == '>'
    requires forall d: nat :: d in dropped ==>
               && d < m.start && text[d] in "< ("
               && forall j :: d < j < m.start ==> j !in kept + Between(last, m.start) - dropped
    ensures LinkGone(host, text, m, last, next, tail, kept, dropped,
                     (kept + Between(last, m.start) - dropped) + Between(tail, m.end))
  {
    hide Goes, TailStart;
    var before := kept + Between(last, m.start) - dropped;
    forall d: nat, j | d in dropped && d < j < m.start ensures j !in before + Between(tail, m.end) {
    }
  }

  lemma OneLinkGoes(host: Hosts, text: string, links: seq<Match>, k: nat, last: nat, out: string, kept: set<nat>)
    returns (next: nat, now: set<nat>)
    requires Ahead(host, text, links, k, last) && k < |links| && Goes(host, text, links[k])
    requires last <= links[k].start && out == Picked(text, last, kept) && KeptBut(host, text, links, last, kept)
    ensures
      var m := links[k];
      var start, before := TailStart(text, m), out + text[last..m.start];
      var r := Replace(host, NoLinks, before, text[m.start..start], text[start..m.end], text[m.end..]);
      && next == m.end + r.skipped && next <= |text|
      && before[..|before| - r.dropped] + r.shown == Picked(text, next, now)
    ensures KeptBut(host, text, links, next, now) && Ahead(host, text, links, k + 1, next)
  {
    hide Goes, Replace, KeptBut, Ahead, Picked, TailStart, LinkGone, Between, EndsInAngle, EndsInParenthesis;
    var m := links[k];
    GoesIsLink(host, text, m);
    var start, before := TailStart(text, m), out + text[last..m.start];
    var copied := kept + Between(last, m.start);
    KeptIsBehind(host, text, links, last, kept);
    PickedCopies(text, last, m.start, kept, copied);
    var tail, brackets;
    next, tail, brackets := ReplacedBy(host, text, m, before);
    var dropped := DropBrackets(text, m.start, copied, before, brackets);
    now := (copied - dropped) + Between(tail, m.end);
    TailIsKept(text, m.start, tail, m.end, next, copied - dropped);
    assert before[..|before| - brackets] + text[tail..m.end] == Picked(text, next, now);
    LinkIsGone(host, text, m, last, next, tail, kept, dropped);
    AheadOfLink(host, text, links, k, last, next);
    KeptNext(host, text, links, m, last, next, tail, kept, dropped, now);
  }

  lemma GoesIsLink(host: Hosts, text: string, m: Match)
    requires Goes(host, text, m)
    ensures m.start <= TailStart(text, m) <= m.end <= |text|
  {
  }

  lemma KeptIsBehind(host: Hosts, text: string, links: seq<Match>, n: nat, kept: set<nat>)
    requires KeptBut(host, text, links, n, kept)
    ensures forall i: nat :: i in kept ==> i < n
  {
  }

  lemma NoneIsAhead(host: Hosts, text: string, links: seq<Match>, last: nat, kept: set<nat>)
    requires Ahead(host, text, links, |links|, last) && KeptBut(host, text, links, last, kept)
    ensures KeptBut(host, text, links, |text|, kept + Between(last, |text|))
  {
    hide InOrder, AddressEnd, Shortens;
    var all := kept + Between(last, |text|);
    forall i: nat | i < |text| && i !in all ensures GoesWithOne(host, text, links, |text|, all, i) {
      var l :| l in links && l.end <= last && GoesWith(host, text, kept, l, i);
      GoesIsLink(host, text, l);
      assert GoesWith(host, text, all, l, i);
    }
    forall i: nat | i in all ensures !InAddress(host, text, links, i) {
      if l :| l in links && Goes(host, text, l) && l.start <= i < TailStart(text, l) {
        GoesIsLink(host, text, l);
        assert i >= last ==> l.end <= last;
      }
    }
  }

  lemma {:induction false} LinksGo(host: Hosts, text: string, links: seq<Match>, k: nat, last: nat, out: string,
                                   kept: set<nat>) returns (all: set<nat>)
    requires Ahead(host, text, links, k, last)
    requires out == Picked(text, last, kept) && KeptBut(host, text, links, last, kept)
    ensures Reduce(host, NoLinks, text, links[k..], last, out) == Picked(text, |text|, all)
    ensures KeptBut(host, text, links, |text|, all)
    decreases |links| - k
  {
    hide Goes, Replace, KeptBut, Picked, Reduce, AddressEnd, Shortens;
    if k == |links| {
      NothingToReduce(host, NoLinks, text, last, out);
      all := kept + Between(last, |text|);
      KeptIsBehind(host, text, links, last, kept);
      PickedCopies(text, last, |text|, kept, all);
      NoneIsAhead(host, text, links, last, kept);
      assert text[last..] == text[last..|text|];
    } else {
      var m := links[k];
      assert links[k..][0] == m && links[k..][1..] == links[k + 1..];
      MatchInRange(text, last, links[k..]);
      MatchGoes(host, text, m);
      ReduceNext(host, NoLinks, text, links[k..], last, out);
      if Goes(host, text, m) {
        var next, now := OneLinkGoes(host, text, links, k, last, out, kept);
        all := LinksGo(host, text, links, k + 1, next, Picked(text, next, now), now);
      } else {
        AheadOfOther(host, text, links, k, last);
        all := LinksGo(host, text, links, k + 1, last, out, kept);
      }
    }
  }

  lemma MatchGoes(host: Hosts, text: string, m: Match)
    requires m.start <= m.end <= |text|
    ensures
      var matched := text[m.start..m.end];
      && matched[..AddressEnd(matched)] == text[m.start..TailStart(text, m)]
      && matched[AddressEnd(matched)..] == text[TailStart(text, m)..m.end]
      && (m.start < m.end ==> (Goes(host, text, m) <==> Shortens(host, NoLinks, matched[..AddressEnd(matched)])))
  {
    hide AddressEnd, Shortens;
  }

  // Leaving links out keeps all but their addresses, which go to the last
  // character, and the brackets around them.
  lemma OnlyLinksGo(host: Hosts, text: string) returns (kept: set<nat>)
    ensures KeptBut(host, text, FindLinks(text, 0), |text|, kept)
    ensures Reduced(host, NoLinks, text) == CollapseBlankLines(Picked(text, |text|, kept))
  {
    hide GoesWith;
    kept := LinksGo(host, text, FindLinks(text, 0), 0, 0, "", {});
    assert FindLinks(text, 0)[0..] == FindLinks(text, 0);
  }

  // ----- blank lines

  function LineBreaks(n: nat): string {
    seq(n, _ => '\n')
  }

  lemma {:induction false} BreaksCollapse(n: nat, rest: string)
    requires rest == "" || rest[0] != '\n'
    ensures CollapseBlankLines(LineBreaks(n) + rest) == LineBreaks(if n < 2 then n else 2) + CollapseBlankLines(rest)
    decreases n
  {
    var s := LineBreaks(n) + rest;
    if n == 0 {
      assert s == rest;
    } else {
      assert s[0] == '\n' && s[1..] == LineBreaks(n - 1) + rest;
      BreaksCollapse(n - 1, rest);
      if n > 2 {
        assert "\n\n\n" <= s;
      } else {
        assert |s| >= 3 ==> s[n] == rest[0];
        assert ['\n'] + LineBreaks(n - 1) == LineBreaks(n);
        Associate(['\n'], LineBreaks(n - 1), CollapseBlankLines(rest));
      }
    }
  }

  // A run of line breaks becomes at most two; everything else stays.
  lemma OnlyBlankLinesCollapse(before: string, n: nat, after: string)
    requires before == "" || before[|before| - 1] != '\n'
    requires after == "" || after[0] != '\n'
    ensures CollapseBlankLines(before + (LineBreaks(n) + after))
         == CollapseBlankLines(before) + (LineBreaks(if n < 2 then n else 2) + CollapseBlankLines(after))
  {
    BreaksCollapse(n, after);
    CollapsesApart(before, LineBreaks(n) + after);
  }

  lemma {:induction false} CollapsesApart(before: string, after: string)
    requires before == "" || before[|before| - 1] != '\n'
    ensures CollapseBlankLines(before + after) == CollapseBlankLines(before) + CollapseBlankLines(after)
    decreases |before|
  {
    hide CollapseBlankLines;
    if before == "" {
      assert before + after == after;
      NothingCollapses();
    } else {
      var s, rest := before + after, before[1..];
      CollapsesApart(rest, after);
      assert s[1..] == rest + after && s[0] == before[0];
      StartsBlank(before, after);
      CollapsesOne(s);
      CollapsesOne(before);
    }
  }

  lemma CollapsesOne(s: string)
    requires s != ""
    ensures CollapseBlankLines(s) == (if "\n\n\n" <= s then "" else [s[0]]) + CollapseBlankLines(s[1..])
  {
  }

  lemma NothingCollapses()
    ensures CollapseBlankLines("") == ""
  {
  }

  lemma StartsBlank(before: string, after: string)
    requires before != "" && before[|before| - 1] != '\n'
    ensures "\n\n\n" <= before + after <==> "\n\n\n" <= before
  {
    var s := before + after;
    assert s[|before| - 1] != '\n';
    if |before| >= 3 {
      assert s[0] == before[0] && s[1] == before[1] && s[2] == before[2];
    }
  }
}
