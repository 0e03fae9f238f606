// The URLs of a plain message body: what a match leaves to its tail, and the
// reduced forms of the body.
module Links {
  import opened Sequences
  import opened Texts
  import opened Wrappers

  // ----- the tail of a match

  const OPENING := "([{"
  const CLOSING := ")]}"

  predicate IsPunctuation(c: char) {
    c in ".,;:!?'"
  }

  function ClosingIndex(c: char): (k: nat)
    ensures k <= 3 && (k < 3 <==> c in CLOSING) && (k < 3 ==> c == CLOSING[k])
  {
    if c == ')' then 0 else if c == ']' then 1 else if c == '}' then 2 else 3
  }

  function Count(s: string, c: char): nat {
    if s == "" then 0 else Count(s[..|s| - 1], c) + if s[|s| - 1] == c then 1 else 0
  }

  // How many more brackets of kind `k` a text opens than it closes.
  function Balance(s: string, k: nat): int
    requires k < 3
  {
    Count(s, OPENING[k]) - Count(s, CLOSING[k])
  }

  // The last character of `s` does not belong to an address: it is punctuation
  // or a bracket that closes more than was opened.
  predicate EndsInTail(s: string) {
    && s != ""
    && var c := s[|s| - 1];
       IsPunctuation(c) || (c in CLOSING && Balance(s, ClosingIndex(c)) < 0)
  }

  // Counting afresh for every closing bracket.
  function AddressEnd(s: string): (end: nat)
    ensures end <= |s|
  {
    if EndsInTail(s) then AddressEnd(s[..|s| - 1]) else |s|
  }

  // The address is the longest beginning that does not end in a tail.
  lemma {:induction false} AddressIsLongest(s: string)
    ensures !EndsInTail(s[..AddressEnd(s)])
    ensures forall end :: AddressEnd(s) < end <= |s| ==> EndsInTail(s[..end])
  {
    assert s[..|s|] == s;
    if EndsInTail(s) {
      var t := s[..|s| - 1];
      AddressIsLongest(t);
      assert forall end :: 0 <= end <= |t| ==> t[..end] == s[..end];
    }
  }

  lemma BalanceOfLast(s: string, k: nat)
    requires s != "" && k < 3
    ensures
      var c := s[|s| - 1];
      Balance(s[..|s| - 1], k) - Balance(s, k) == if ClosingIndex(c) == k then 1 else if c == OPENING[k] then -1 else 0
  {
  }

  lemma AddressEndOfLast(s: string)
    requires s != ""
    ensures
      var c := s[|s| - 1];
      AddressEnd(s)
      == if IsPunctuation(c) || (ClosingIndex(c) < 3 && Balance(s, ClosingIndex(c)) < 0) then AddressEnd(s[..|s| - 1])
         else |s|
  {
    hide Balance, IsPunctuation;
  }

  lemma PunctuationIsNoBracket(c: char)
    requires IsPunctuation(c)
    ensures ClosingIndex(c) == 3 && forall k: nat :: k < 3 ==> c != OPENING[k]
  {
  }

  // The balances are counted once for each kind of bracket and then kept up to
  // date; they always equal a fresh count.
  method SplitLinkTail(matched: string) returns (address: string, tail: string)
    ensures address + tail == matched
    ensures |address| == AddressEnd(matched)
  {
    hide Balance, Count, AddressEnd, EndsInTail, IsPunctuation;
    var end := |matched|;
    var balances := new int[3](_ => 0);
    var counted := new bool[3](_ => false);
    assert matched[..|matched|] == matched;
    while end > 0
      invariant 0 <= end <= |matched| && AddressEnd(matched[..end]) == AddressEnd(matched)
      invariant forall k: nat :: k < 3 && counted[k] ==> balances[k] == Balance(matched[..end], k)
      decreases end
    {
      var character := matched[end - 1];
      ghost var seen := matched[..end];
      assert seen[..end - 1] == matched[..end - 1];
      AddressEndOfLast(seen);
      BalanceOfLast(seen, 0);
      BalanceOfLast(seen, 1);
      BalanceOfLast(seen, 2);
      if IsPunctuation(character) {
        PunctuationIsNoBracket(character);
        end := end - 1;
      } else if character in CLOSING {
        var index := ClosingIndex(character);
        if !counted[index] {
          balances[index] := Balance(matched[..end], index);
          counted[index] := true;
        }
        if balances[index] >= 0 {
          return matched[..end], matched[end..];
        }
        balances[index] := balances[index] + 1;
        end := end - 1;
      } else {
        break;
      }
    }
    return matched[..end], matched[end..];
  }

  // ----- the matches

  predicate IsLinkRune(c: char) {
    c !in "\t\n\U{000C}\r <>\""
  }

  // How long "http://" or "https://" is at the start of `s`, in any case; the
  // long s folds to s. Zero when there is none.
  function SchemeLength(s: string): (n: nat)
    ensures n <= |s| && (n > 0 ==> n >= 7 && s[0] in "hH")
  {
    if |s| < 5 || s[0] !in "hH" || s[1] !in "tT" || s[2] !in "tT" || s[3] !in "pP" then 0
    else
      var n := if s[4] in "sS\U{017F}" then 5 else 4;
      if |s| >= n + 3 && s[n..n + 3] == "://" then n + 3 else 0
  }

  function RunLength(s: string): (n: nat)
    ensures n <= |s|
  {
    if s == "" || !IsLinkRune(s[0]) then 0 else 1 + RunLength(s[1..])
  }

  function MatchLength(s: string): (n: nat)
    ensures n <= |s| && (n > 0 ==> n > 7 && s[0] in "hH")
  {
    var scheme := SchemeLength(s);
    if scheme > 0 && RunLength(s[scheme..]) > 0 then scheme + RunLength(s[scheme..]) else 0
  }

  datatype Match = Match(start: nat, end: nat)

  // Matches from left to right, from place `from` on.
  ghost predicate InOrder(text: string, from: nat, matches: seq<Match>) {
    && (forall i :: 0 <= i < |matches| ==>
          from <= matches[i].start && matches[i].start + 7 < matches[i].end <= |text| && text[matches[i].start] in "hH")
    && (forall i, j :: 0 <= i < j < |matches| ==> matches[i].end <= matches[j].start)
  }

  function FindLinks(text: string, from: nat): (r: seq<Match>)
    requires from <= |text|
    ensures InOrder(text, from, r)
    decreases |text| - from
  {
    if from == |text| then []
    else
      var n := MatchLength(text[from..]);
      if n > 0 then [Match(from, from + n)] + FindLinks(text, from + n) else FindLinks(text, from + 1)
  }

  // ----- the reduced body

  datatype Mode = Full | Host | NoLinks

  const SHORTENED_LINK_LENGTH := 40

  // Whether an address has a host is for the URL parser to say.
  type Hosts = string -> Option<string>

  function CollapseBlankLines(s: string): string {
    if "\n\n\n" <= s then CollapseBlankLines(s[1..])
    else if s == "" then ""
    else [s[0]] + CollapseBlankLines(s[1..])
  }

  predicate EndsInAngle(s: string) {
    s != "" && s[|s| - 1] == '<'
  }

  predicate EndsInParenthesis(s: string) {
    |s| >= 2 && s[|s| - 2] == ' ' && s[|s| - 1] == '('
  }

  predicate StartsWith(s: string, c: char) {
    s != "" && s[0] == c
  }

  predicate Shortens(host: Hosts, mode: Mode, address: string) {
    host(address).Some? && host(address).value != "" && (mode == NoLinks || Bytes(address) >= SHORTENED_LINK_LENGTH)
  }

  // What follows `out` in place of a link, and how much of `out` and of the
  // text behind the link goes with it: a pair of brackets around the link
  // disappears with the link, and is not doubled around a host.
  datatype Replacement = Replacement(dropped: nat, shown: string, skipped: nat)

  function Replace(host: Hosts, mode: Mode, out: string, address: string, tail: string, after: string): (r: Replacement)
    requires Shortens(host, mode, address)
    ensures r.dropped <= |out| && r.skipped <= 1 && (r.skipped == 1 ==> StartsWith(after, '>'))
    ensures mode == NoLinks ==> |r.shown| <= |tail| && r.shown == tail[|tail| - |r.shown|..]
  {
    var bracketed := EndsInAngle(out) && StartsWith(after, '>');
    var name := host(address).value;
    if mode == Host then Replacement(0, (if bracketed then name else "<" + name + ">") + tail, 0)
    else if bracketed then Replacement(1, tail, 1)
    else if EndsInParenthesis(out) && StartsWith(tail, ')') then Replacement(2, tail[1..], 0)
    else Replacement(0, tail, 0)
  }

  lemma NextMatches(text: string, from: nat, matches: seq<Match>, skipped: nat)
    requires InOrder(text, from, matches) && matches != [] && skipped <= 1
    requires skipped == 1 ==> StartsWith(text[matches[0].end..], '>')
    ensures matches[0].end + skipped <= |text| && InOrder(text, matches[0].end + skipped, matches[1..])
    ensures InOrder(text, from, matches[1..])
  {
    if skipped == 1 {
      assert text[matches[0].end..][0] == text[matches[0].end];
    }
  }

  function Reduce(host: Hosts, mode: Mode, text: string, matches: seq<Match>, last: nat, out: string): string
    requires InOrder(text, last, matches) && last <= |text|
    decreases matches
  {
    if matches == [] then out + text[last..]
    else
      var m := matches[0];
      var matched := text[m.start..m.end];
      var address, tail := matched[..AddressEnd(matched)], matched[AddressEnd(matched)..];
      NextMatches(text, last, matches, 0);
      if !Shortens(host, mode, address) then Reduce(host, mode, text, matches[1..], last, out)
      else
        var before := out + text[last..m.start];
        var r := Replace(host, mode, before, address, tail, text[m.end..]);
        NextMatches(text, last, matches, r.skipped);
        Reduce(host, mode, text, matches[1..], m.end + r.skipped, before[..|before| - r.dropped] + r.shown)
  }

  lemma ReduceNext(host: Hosts, mode: Mode, text: string, matches: seq<Match>, last: nat, out: string)
    requires InOrder(text, last, matches) && last <= |text| && matches != []
    ensures
      var m := matches[0];
      var matched := text[m.start..m.end];
      var address, tail := matched[..AddressEnd(matched)], matched[AddressEnd(matched)..];
      && InOrder(text, last, matches[1..])
      && if !Shortens(host, mode, address) then
           Reduce(host, mode, text, matches, last, out) == Reduce(host, mode, text, matches[1..], last, out)
         else
           var before := out + text[last..m.start];
           var r := Replace(host, mode, before, address, tail, text[m.end..]);
           && m.end + r.skipped <= |text| && InOrder(text, m.end + r.skipped, matches[1..])
           && Reduce(host, mode, text, matches, last, out)
              == Reduce(host, mode, text, matches[1..], m.end + r.skipped, before[..|before| - r.dropped] + r.shown)
  {
    hide AddressEnd, Replace, Shortens;
    var m := matches[0];
    var matched := text[m.start..m.end];
    var address, tail := matched[..AddressEnd(matched)], matched[AddressEnd(matched)..];
    NextMatches(text, last, matches, 0);
    if Shortens(host, mode, address) {
      var r := Replace(host, mode, out + text[last..m.start], address, tail, text[m.end..]);
      NextMatches(text, last, matches, r.skipped);
    }
  }

  method WriteReplacement(host: Hosts, mode: Mode, out: string, address: string, rest: string, after: string)
    returns (output: string, skipped: nat)
    requires Shortens(host, mode, address)
    ensures
      var r := Replace(host, mode, out, address, rest, after);
      output == out[..|out| - r.dropped] + r.shown && skipped == r.skipped
  {
    hide Bytes;
    var name := host(address).value;
    var tail := rest;
    var wrappedInBrackets := EndsInAngle(out) && StartsWith(after, '>');
    var wrappedInParentheses := EndsInParenthesis(out) && StartsWith(tail, ')');
    if mode == Host {
      var shown := if wrappedInBrackets then name else "<" + name + ">";
      Associate(out, shown, tail);
      assert out[..|out| - 0] == out;
      return out + shown + tail, 0;
    }
    if wrappedInBrackets {
      return out[..|out| - 1] + tail, 1;
    }
    if wrappedInParentheses {
      return out[..|out| - 2] + tail[1..], 0;
    }
    assert out[..|out| - 0] == out;
    return out + tail, 0;
  }

  // The loop over the matches, whose slices are all in range.
  method ShortenLinks(host: Hosts, text: string, mode: Mode) returns (r: string)
    ensures mode == Full ==> r == text
    ensures mode != Full ==> r == Reduced(host, mode, text)
  {
    hide *;
    if mode != Host && mode != NoLinks {
      return text;
    }
    ReducedIs(host, mode, text);
    var matches := FindLinks(text, 0);
    var output := "";
    var last: nat := 0;
    assert matches[0..] == matches;
    for i := 0 to |matches|
      invariant last <= |text| && InOrder(text, last, matches[i..])
      invariant Reduce(host, mode, text, matches[i..], last, output) == Reduce(host, mode, text, matches, 0, "")
    {
      var m := matches[i];
      MatchInRange(text, last, matches[i..]);
      ReduceNext(host, mode, text, matches[i..], last, output);
      assert matches[i..][1..] == matches[i + 1..];
      var address, tail := SplitLinkTail(text[m.start..m.end]);
      assert address == text[m.start..m.end][..|address|] && tail == text[m.start..m.end][|address|..];
      ShortensIs(host, mode, address);
      var parsed := host(address);
      if parsed.None? || parsed.value == "" {
        continue;
      }
      if mode == Host && Bytes(address) < SHORTENED_LINK_LENGTH {
        continue;
      }
      output := output + text[last..m.start];
      last := m.end;
      var skipped;
      output, skipped := WriteReplacement(host, mode, output, address, tail, text[m.end..]);
      last := last + skipped;
    }
    assert matches[|matches|..] == [];
    NothingToReduce(host, mode, text, last, output);
    output := output + text[last..];
    return CollapseBlankLines(output);
  }

  lemma ShortensIs(host: Hosts, mode: Mode, address: string)
    ensures Shortens(host, mode, address)
            <==> host(address).Some? && host(address).value != ""
                 && (mode == NoLinks || Bytes(address) >= SHORTENED_LINK_LENGTH)
  {
  }

  lemma ReducedIs(host: Hosts, mode: Mode, text: string)
    ensures InOrder(text, 0, FindLinks(text, 0))
    ensures Reduced(host, mode, text) == CollapseBlankLines(Reduce(host, mode, text, FindLinks(text, 0), 0, ""))
  {
  }

  lemma MatchInRange(text: string, last: nat, matches: seq<Match>)
    requires InOrder(text, last, matches) && matches != []
    ensures last <= matches[0].start <= matches[0].end <= |text|
  {
  }

  lemma NothingToReduce(host: Hosts, mode: Mode, text: string, last: nat, out: string)
    requires last <= |text|
    ensures InOrder(text, last, []) && Reduce(host, mode, text, [], last, out) == out + text[last..]
  {
  }

  // ----- what a reduced body keeps

  // A replacement that shows an end of the match takes the output on.
  lemma ReplacedIsSubsequence(text: string, m: Match, last: nat, out: string, gone: nat, shown: string, end: nat)
    requires last <= m.start <= m.end <= end <= |text| && Subsequence(out, text[..last])
    requires gone <= |out| + m.start - last && |shown| <= m.end - m.start && shown == text[m.end - |shown|..m.end]
    ensures Subsequence((out + text[last..m.start])[..gone] + shown, text[..end])
  {
    hide *;
    var before := out + text[last..m.start];
    var from := m.end - m.start - |shown|;
    assert text[m.start..m.end][from..] == shown;
    CopiedIsSubsequence(out, text, last, m.start);
    CutIsSubsequence(before, text, m.start, m.end, gone, from);
    SubsequenceLonger(before[..gone] + shown, text, m.end, end);
  }

  lemma CopiedIsSubsequence(out: string, text: string, last: nat, start: nat)
    requires last <= start <= |text| && Subsequence(out, text[..last])
    ensures Subsequence(out + text[last..start], text[..start])
  {
    hide Subsequence;
    SubsequenceSelf(text[last..start]);
    SubsequenceConcat(out, text[..last], text[last..start], text[last..start]);
    assert text[..last] + text[last..start] == text[..start];
  }

  lemma CutIsSubsequence(before: string, text: string, start: nat, end: nat, gone: nat, from: nat)
    requires start <= end <= |text| && Subsequence(before, text[..start])
    requires gone <= |before| && from <= end - start
    ensures Subsequence(before[..gone] + text[start..end][from..], text[..end])
  {
    hide Subsequence;
    PrefixOfSubsequence(before, text[..start], gone);
    SuffixIsSubsequence(text[start..end], from);
    SubsequenceConcat(before[..gone], text[..start], text[start..end][from..], text[start..end]);
    assert text[..start] + text[start..end] == text[..end];
  }

  lemma EndOfMatch(text: string, m: Match, k: nat, n: nat)
    requires m.start <= m.end <= |text| && k + n <= m.end - m.start
    ensures
      var tail := text[m.start..m.end][k..];
      tail[|tail| - n..] == text[m.end - n..m.end]
  {
  }

  lemma {:induction false} ReducedIsSubsequence(host: Hosts, text: string, matches: seq<Match>, last: nat, out: string)
    requires InOrder(text, last, matches) && last <= |text| && Subsequence(out, text[..last])
    ensures Subsequence(Reduce(host, NoLinks, text, matches, last, out), text)
    decreases matches
  {
    hide *;
    if matches == [] {
      NothingToReduce(host, NoLinks, text, last, out);
      SubsequenceSelf(text[last..]);
      SubsequenceConcat(out, text[..last], text[last..], text[last..]);
      assert text[..last] + text[last..] == text;
    } else {
      MatchInRange(text, last, matches);
      var m := matches[0];
      var matched := text[m.start..m.end];
      var address, tail := matched[..AddressEnd(matched)], matched[AddressEnd(matched)..];
      ReduceNext(host, NoLinks, text, matches, last, out);
      if Shortens(host, NoLinks, address) {
        var before := out + text[last..m.start];
        var r := Replace(host, NoLinks, before, address, tail, text[m.end..]);
        EndOfMatch(text, m, AddressEnd(matched), |r.shown|);
        ReplacedIsSubsequence(text, m, last, out, |before| - r.dropped, r.shown, m.end + r.skipped);
        ReducedIsSubsequence(host, text, matches[1..], m.end + r.skipped, before[..|before| - r.dropped] + r.shown);
      } else {
        ReducedIsSubsequence(host, text, matches[1..], last, out);
      }
    }
  }

  function Reduced(host: Hosts, mode: Mode, text: string): string {
    CollapseBlankLines(Reduce(host, mode, text, FindLinks(text, 0), 0, ""))
  }

  // Removing the links only removes: nothing is added and nothing moves.
  lemma RemovingLinksOnlyRemoves(host: Hosts, text: string)
    ensures Subsequence(Reduced(host, NoLinks, text), text)
  {
    ReducedIsSubsequence(host, text, FindLinks(text, 0), 0, "");
    var reduced := Reduce(host, NoLinks, text, FindLinks(text, 0), 0, "");
    CollapsedIsSubsequence(reduced);
    SubsequenceTransitive(CollapseBlankLines(reduced), reduced, text);
  }

  // The host name of an address leaves out at least its scheme.
  ghost predicate HostIsPart(host: Hosts) {
    forall address :: host(address).Some? ==> Bytes(host(address).value) + 7 <= Bytes(address)
  }

  lemma ReplacedIsNoLonger(host: Hosts, text: string, m: Match, last: nat, out: string)
    requires HostIsPart(host) && last <= m.start <= m.end <= |text| && Bytes(out) <= Bytes(text[..last])
    ensures
      var matched := text[m.start..m.end];
      var address, tail := matched[..AddressEnd(matched)], matched[AddressEnd(matched)..];
      var before := out + text[last..m.start];
      Shortens(host, Host, address) ==>
        Bytes(before + Replace(host, Host, before, address, tail, text[m.end..]).shown) <= Bytes(text[..m.end])
  {
    hide AddressEnd, Bytes, Shortens, Replace;
    var matched := text[m.start..m.end];
    var address, tail := matched[..AddressEnd(matched)], matched[AddressEnd(matched)..];
    var before := out + text[last..m.start];
    BytesConcat(out, text[last..m.start]);
    BytesConcat(text[..last], text[last..m.start]);
    BytesConcat(text[..m.start], matched);
    assert text[..last] + text[last..m.start] == text[..m.start] && text[..m.start] + matched == text[..m.end];
    assert address + tail == matched;
    if Shortens(host, Host, address) {
      ShownIsNoLonger(host, before, address, tail, text[m.end..]);
      BytesConcat(before, Replace(host, Host, before, address, tail, text[m.end..]).shown);
    }
  }

  lemma ShownIsNoLonger(host: Hosts, out: string, address: string, tail: string, after: string)
    requires HostIsPart(host) && Shortens(host, Host, address)
    ensures Bytes(Replace(host, Host, out, address, tail, after).shown) <= Bytes(address + tail)
  {
    hide Bytes;
    var name := host(address).value;
    BytesConcat(address, tail);
    BytesConcat(name, tail);
    BytesConcat("<" + name + ">", tail);
    InBrackets(name);
    var shown := Replace(host, Host, out, address, tail, after).shown;
    assert shown == name + tail || shown == ("<" + name + ">") + tail;
  }

  lemma InBrackets(name: string)
    ensures Bytes("<" + name + ">") == Bytes(name) + 2
  {
    BytesConcat("<" + name, ">");
    BytesConcat("<", name);
    assert ">"[1..] == "" && "<"[1..] == "";
  }

  lemma {:induction false} ReducedIsNoLonger(host: Hosts, text: string, matches: seq<Match>, last: nat, out: string)
    requires HostIsPart(host) && InOrder(text, last, matches) && last <= |text| && Bytes(out) <= Bytes(text[..last])
    ensures Bytes(Reduce(host, Host, text, matches, last, out)) <= Bytes(text)
    decreases matches
  {
    hide HostIsPart, AddressEnd, Shortens, Reduce, Bytes;
    if matches == [] {
      NothingToReduce(host, Host, text, last, out);
      BytesConcat(out, text[last..]);
      BytesConcat(text[..last], text[last..]);
      assert text[..last] + text[last..] == text;
    } else {
      var m := matches[0];
      var matched := text[m.start..m.end];
      var address, tail := matched[..AddressEnd(matched)], matched[AddressEnd(matched)..];
      ReduceNext(host, Host, text, matches, last, out);
      if Shortens(host, Host, address) {
        ReplacedIsNoLonger(host, text, m, last, out);
        var before := out + text[last..m.start];
        var r := Replace(host, Host, before, address, tail, text[m.end..]);
        assert before[..|before| - r.dropped] == before;
        ReducedIsNoLonger(host, text, matches[1..], m.end, before + r.shown);
      } else {
        ReducedIsNoLonger(host, text, matches[1..], last, out);
      }
    }
  }

  // Showing hosts for long links never makes a body longer.
  lemma ShowingHostsIsNoLonger(host: Hosts, text: string)
    requires HostIsPart(host)
    ensures Bytes(Reduced(host, Host, text)) <= Bytes(text)
  {
    ReducedIsNoLonger(host, text, FindLinks(text, 0), 0, "");
    CollapsedIsSubsequence(Reduce(host, Host, text, FindLinks(text, 0), 0, ""));
  }

  lemma {:induction false} CollapsedIsSubsequence(s: string)
    ensures Subsequence(CollapseBlankLines(s), s)
    ensures Bytes(CollapseBlankLines(s)) <= Bytes(s)
  {
    if "\n\n\n" <= s {
      CollapsedIsSubsequence(s[1..]);
    } else if s != "" {
      CollapsedIsSubsequence(s[1..]);
      var r := CollapseBlankLines(s[1..]);
      assert ([s[0]] + r)[1..] == r;
    }
  }

  predicate BlankRunAt(s: string, i: nat) {
    i + 3 <= |s| && s[i] == s[i + 1] == s[i + 2] == '\n'
  }

  lemma BlankRunAtStart(c: char, t: string)
    ensures BlankRunAt([c] + t, 0) ==> "\n\n" <= t
  {
    var r := [c] + t;
    assert |t| >= 2 ==> r[1] == t[0] && r[2] == t[1];
  }

  // No run of three line breaks is left.
  lemma {:induction false} NoBlankRunIsLeft(s: string)
    ensures forall i :: 0 <= i < |s| ==> !BlankRunAt(CollapseBlankLines(s), i)
    ensures CollapseBlankLines(s) == "" <==> s == ""
    ensures s != "" ==> CollapseBlankLines(s)[0] == s[0]
    ensures "\n\n" <= CollapseBlankLines(s) ==> "\n\n" <= s
    ensures |CollapseBlankLines(s)| <= |s|
  {
    if s != "" {
      NoBlankRunIsLeft(s[1..]);
      var t := CollapseBlankLines(s[1..]);
      if !("\n\n\n" <= s) {
        var r := [s[0]] + t;
        assert CollapseBlankLines(s) == r;
        BlankRunAtStart(s[0], t);
        forall i: nat | 0 < i < |s| ensures !BlankRunAt(r, i) {
          assert i + 3 <= |r| ==> r[i] == t[i - 1] && r[i + 1] == t[i] && r[i + 2] == t[i + 1];
          assert i - 1 < |s[1..]| && !BlankRunAt(t, i - 1);
        }
      }
    }
  }
}
