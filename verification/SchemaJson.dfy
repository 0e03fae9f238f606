// Schema JSON without the escapes that only HTML needs.
module SchemaJson {
  import opened JsonStrings
  import opened JsonText
  import opened Sequences
  import opened Utf8
  import opened Wrappers

  // ----- the rewriting of a text that has been read

  function Lower(b: Byte): Byte {
    if 0x41 <= b < 0x5b then b + 0x20 else b
  }

  predicate EqualFold(a: seq<Byte>, b: seq<Byte>) {
    |a| == |b| && forall i :: 0 <= i < |a| ==> Lower(a[i]) == Lower(b[i])
  }

  const AMPERSAND: seq<Byte> := [0x30, 0x30, 0x32, 0x36]
  const LESS_THAN: seq<Byte> := [0x30, 0x30, 0x33, 0x63]
  const GREATER_THAN: seq<Byte> := [0x30, 0x30, 0x33, 0x65]

  function HtmlByte(digits: seq<Byte>): Option<Byte> {
    if EqualFold(digits, AMPERSAND) then Some(0x26)
    else if EqualFold(digits, LESS_THAN) then Some(0x3c)
    else if EqualFold(digits, GREATER_THAN) then Some(0x3e)
    else None
  }

  predicate IsHtmlEscape(u: Unit) {
    IsUnit(u) && u.Code? && CodeValue(u) in [0x26, 0x3c, 0x3e]
  }

  lemma HexLetter(b: Byte, k: nat)
    requires HexValue(b).Some? && k < 16
    ensures Lower(b) == HexDigit(k) <==> HexValue(b) == Some(k)
  {
  }

  lemma FoldedDigits(d: seq<Byte>, k: nat, l: nat)
    requires |d| == 4 && HexMeaning(d).Some? && k < 16 && l < 16
    ensures EqualFold(d, [0x30, 0x30, HexDigit(k), HexDigit(l)]) <==> HexMeaning(d) == Some(k * 16 + l)
  {
    HexLetter(d[0], 0);
    HexLetter(d[1], 0);
    HexLetter(d[2], k);
    HexLetter(d[3], l);
    var (v0, v1, v2, v3) := (HexValue(d[0]).value, HexValue(d[1]).value, HexValue(d[2]).value, HexValue(d[3]).value);
    var e := [0x30, 0x30, HexDigit(k), HexDigit(l)];
    assert EqualFold(d, e) <==> v0 == 0 && v1 == 0 && v2 == k && v3 == l by {
      assert EqualFold(d, e) ==> Lower(d[0]) == Lower(e[0]) && Lower(d[1]) == Lower(e[1])
                                 && Lower(d[2]) == Lower(e[2]) && Lower(d[3]) == Lower(e[3]);
    }
  }

  // The digits are compared as texts; what they mean is one of three bytes.
  lemma HtmlDigits(u: Unit)
    requires IsUnit(u) && u.Code?
    ensures HtmlByte(u.digits).Some? <==> IsHtmlEscape(u)
    ensures HtmlByte(u.digits).Some? ==> HtmlByte(u.digits).value == CodeValue(u)
  {
    hide EqualFold, HexMeaning;
    FoldedDigits(u.digits, 2, 6);
    FoldedDigits(u.digits, 3, 12);
    FoldedDigits(u.digits, 3, 14);
  }

  function RewriteUnit(u: Unit): Unit {
    if u.Code? && HtmlByte(u.digits).Some? then Raw(HtmlByte(u.digits).value) else u
  }

  function RewriteUnits(units: seq<Unit>): (r: seq<Unit>)
    ensures |r| == |units| && forall i :: 0 <= i < |r| ==> r[i] == RewriteUnit(units[i])
  {
    if units == [] then [] else [RewriteUnit(units[0])] + RewriteUnits(units[1..])
  }

  function RewriteItem(item: Item): Item {
    match item
    case Outside(_) => item
    case Quoted(units) => Quoted(RewriteUnits(units))
  }

  function Rewrite(items: seq<Item>): (r: seq<Item>)
    ensures |r| == |items| && forall i :: 0 <= i < |r| ==> r[i] == RewriteItem(items[i])
  {
    if items == [] then [] else [RewriteItem(items[0])] + Rewrite(items[1..])
  }

  lemma RewriteIsText(items: seq<Item>)
    requires IsText(items)
    ensures IsText(Rewrite(items))
  {
    forall i | 0 <= i < |items| ensures IsItem(Rewrite(items)[i]) {
      assert IsItem(items[i]);
    }
  }

  // ----- the rewriter

  predicate Contains(s: seq<Byte>, part: seq<Byte>) {
    part <= s || (s != [] && Contains(s[1..], part))
  }

  predicate ContainsHTMLEscapedString(s: seq<Byte>) {
    || Contains(s, [BACKSLASH, 0x75, 0x30, 0x30, 0x32, 0x36])
    || Contains(s, [BACKSLASH, 0x75, 0x30, 0x30, 0x33, 0x63])
    || Contains(s, [BACKSLASH, 0x75, 0x30, 0x30, 0x33, 0x43])
    || Contains(s, [BACKSLASH, 0x75, 0x30, 0x30, 0x33, 0x65])
    || Contains(s, [BACKSLASH, 0x75, 0x30, 0x30, 0x33, 0x45])
  }

  // json.Compact: a JSON text without white space, or an error. All that is
  // asked of it is the lexical shape of JSON.
  type Compactor = seq<Byte> -> Option<seq<Byte>>

  ghost predicate Compacts(compact: Compactor) {
    forall s :: compact(s).Some? ==> exists items :: IsText(items) && TextBytes(items) == compact(s).value
  }

  // Where the scan is: between strings or inside one.
  datatype Place = Between(items: seq<Item>) | Inside(units: seq<Unit>, items: seq<Item>)

  predicate IsPlace(p: Place) {
    IsText(p.items) && (p.Inside? ==> AreUnits(p.units))
  }

  function PlaceBytes(p: Place): seq<Byte> {
    match p
    case Between(items) => TextBytes(items)
    case Inside(units, items) => RestBytes(units, items)
  }

  function RewritePlace(p: Place): Place {
    match p
    case Between(items) => Between(Rewrite(items))
    case Inside(units, items) => Inside(RewriteUnits(units), Rewrite(items))
  }

  // What the scan reads next at a place, what it writes for it, and where it
  // is then. The digits of an escape that stays are read as plain bytes.
  datatype Move = Move(read: seq<Byte>, written: seq<Byte>, next: Place)

  function Plain(digits: seq<Byte>): seq<Unit> {
    seq(|digits|, i requires 0 <= i < |digits| => Raw(digits[i]))
  }

  function UnitMove(units: seq<Unit>, items: seq<Item>): Move
    requires units != []
  {
    var u, rest := units[0], units[1..];
    if u.Code? && HtmlByte(u.digits).None? then
      Move([BACKSLASH, 0x75], [BACKSLASH, 0x75], Inside(Plain(u.digits) + rest, items))
    else Move(UnitBytes(u), UnitBytes(RewriteUnit(u)), Inside(rest, items))
  }

  function NextMove(p: Place): Move
    requires p != Between([])
  {
    match p
    case Between(items) =>
      if items[0].Quoted? then Move([QUOTE], [QUOTE], Inside(items[0].units, items[1..]))
      else Move([items[0].b], [items[0].b], Between(items[1..]))
    case Inside(units, items) =>
      if units == [] then Move([QUOTE], [QUOTE], Between(items)) else UnitMove(units, items)
  }

  lemma {:induction false} PlainBytes(d: seq<Byte>, rest: seq<Unit>)
    ensures UnitsBytes(Plain(d) + rest) == d + UnitsBytes(rest)
  {
    if d == [] {
      assert Plain(d) + rest == rest;
    } else {
      PlainBytes(d[1..], rest);
      PlainFirst(d, rest);
      Associate([d[0]], d[1..], UnitsBytes(rest));
      assert d == [d[0]] + d[1..];
    }
  }

  lemma PlainFirst(d: seq<Byte>, rest: seq<Unit>)
    requires d != []
    ensures UnitsBytes(Plain(d) + rest) == [d[0]] + UnitsBytes(Plain(d[1..]) + rest)
  {
    var units := Plain(d) + rest;
    assert units[0] == Raw(d[0]);
    assert units[1..] == Plain(d[1..]) + rest;
  }

  lemma PlainStays(d: seq<Byte>, rest: seq<Unit>)
    ensures RewriteUnits(Plain(d) + rest) == Plain(d) + RewriteUnits(rest)
  {
    var l, r := RewriteUnits(Plain(d) + rest), Plain(d) + RewriteUnits(rest);
    assert forall i :: 0 <= i < |l| ==> l[i] == r[i];
  }

  ghost predicate Follows(p: Place, m: Move) {
    && IsPlace(m.next) && m.read != [] && PlaceBytes(p) == m.read + PlaceBytes(m.next)
    && PlaceBytes(RewritePlace(p)) == m.written + PlaceBytes(RewritePlace(m.next))
  }

  lemma UnitMoveFollows(units: seq<Unit>, items: seq<Item>)
    requires IsPlace(Inside(units, items)) && units != []
    ensures Follows(Inside(units, items), UnitMove(units, items))
  {
    hide RestBytes, HtmlByte;
    var u, rest := units[0], units[1..];
    var rewritten := RewriteUnits(units);
    assert rewritten[1..] == RewriteUnits(rest) && IsUnit(u);
    NextUnit(units, items);
    NextUnit(rewritten, Rewrite(items));
    if u.Code? && HtmlByte(u.digits).None? {
      DigitsStay(u.digits, rest);
      MoveOverDigits(u.digits, rest, items);
      MoveOverDigits(u.digits, RewriteUnits(rest), Rewrite(items));
    }
  }

  lemma DigitsAreUnits(d: seq<Byte>)
    requires IsUnit(Code(d))
    ensures AreUnits(Plain(d))
  {
    assert forall i :: 0 <= i < 4 ==> HexValue(d[i]).Some?;
  }

  lemma DigitsStay(d: seq<Byte>, rest: seq<Unit>)
    requires IsUnit(Code(d)) && AreUnits(rest)
    ensures AreUnits(Plain(d) + rest) && RewriteUnits(Plain(d) + rest) == Plain(d) + RewriteUnits(rest)
  {
    PlainStays(d, rest);
    DigitsAreUnits(d);
  }

  lemma MoveOverDigits(d: seq<Byte>, rest: seq<Unit>, items: seq<Item>)
    requires |d| == 4
    ensures ([BACKSLASH, 0x75] + d) + RestBytes(rest, items) == [BACKSLASH, 0x75] + RestBytes(Plain(d) + rest, items)
  {
    PlainBytes(d, rest);
    Associate(d, UnitsBytes(rest), [QUOTE] + TextBytes(items));
    Associate([BACKSLASH, 0x75], d, RestBytes(rest, items));
  }

  lemma MoveFollows(p: Place)
    requires IsPlace(p) && p != Between([])
    ensures Follows(p, NextMove(p))
  {
    var q := RewritePlace(p);
    match p {
    case Between(items) =>
      assert IsItem(items[0]) && q.items[1..] == Rewrite(items[1..]);
      if items[0].Quoted? {
        OpenString(items);
        OpenString(q.items);
      }
    case Inside(units, items) =>
      if units == [] {
        CloseString(items);
        CloseString(q.items);
      } else {
        UnitMoveFollows(units, items);
      }
    }
  }

  // The move that the branches of the loop make.
  lemma MoveMade(p: Place, s: seq<Byte>)
    requires IsPlace(p) && s == PlaceBytes(p) && s != []
    ensures p != Between([]) && IsPlace(NextMove(p).next) && NextMove(p).read != []
    ensures s == NextMove(p).read + PlaceBytes(NextMove(p).next)
    ensures PlaceBytes(RewritePlace(p)) == NextMove(p).written + PlaceBytes(RewritePlace(NextMove(p).next))
    ensures
      var m := NextMove(p);
      if s[0] == QUOTE then m.read == m.written == [QUOTE] && m.next.Inside? == p.Between?
      else
        && m.next.Inside? == p.Inside?
        && if p.Inside? && s[0] == BACKSLASH then
             && |s| >= 2
             && (s[1] == 0x75 ==> |s| >= 6)
             && var escaped := if s[1] == 0x75 then HtmlByte(s[2..6]) else None;
                if escaped.Some? then |m.read| == 6 && m.written == [escaped.value] else m.read == m.written == s[..2]
           else m.read == m.written == [s[0]]
  {
    MoveFollows(p);
    match p {
    case Between(items) => assert IsItem(items[0]);
    case Inside(units, items) =>
      if units != [] {
        NextUnit(units, items);
        assert IsUnit(units[0]);
        var b := UnitBytes(units[0]);
        assert s[..|b|] == b;
        if units[0].Code? {
          assert s[2..6] == units[0].digits;
        }
      }
    }
  }

  // The loop over the bytes: its indexes stay inside the text, and it writes
  // the rewriting of what the text reads as.
  method UnescapeHTML(source: seq<Byte>, ghost items: seq<Item>) returns (normalized: seq<Byte>)
    requires IsText(items) && source == TextBytes(items)
    ensures normalized == TextBytes(Rewrite(items))
  {
    hide *;
    normalized := [];
    var inString := false;
    var index := 0;
    ghost var p := Between(items);
    Start(items);
    assert source[0..] == source;
    while index < |source|
      invariant index <= |source| && IsPlace(p) && inString == p.Inside?
      invariant PlaceBytes(p) == source[index..]
      invariant normalized + PlaceBytes(RewritePlace(p)) == TextBytes(Rewrite(items))
      decreases |source| - index
    {
      ghost var s := source[index..];
      MoveMade(p, s);
      ghost var m := NextMove(p);
      assert s[|m.read|..] == PlaceBytes(m.next) && s[|m.read|..] == source[index + |m.read|..];
      Associate(normalized, m.written, PlaceBytes(RewritePlace(m.next)));
      p := m.next;
      assert PlaceBytes(p) == source[index + |m.read|..];
      var current := source[index];
      if current == QUOTE {
        inString := !inString;
        normalized := normalized + [current];
        index := index + 1;
        continue;
      }
      if inString && current == BACKSLASH {
        if source[index + 1] == 0x75 {
          assert source[index + 2..index + 6] == s[2..6];
          var escaped := HtmlByte(source[index + 2..index + 6]);
          if escaped.Some? {
            normalized := normalized + [escaped.value];
            index := index + 6;
            continue;
          }
        }
        assert source[index..index + 2] == s[..2];
        normalized := normalized + source[index..index + 2];
        index := index + 2;
        continue;
      }
      normalized := normalized + [current];
      index := index + 1;
    }
    Done(p);
  }

  lemma Start(items: seq<Item>)
    requires IsText(items)
    ensures IsPlace(Between(items)) && PlaceBytes(Between(items)) == TextBytes(items)
    ensures PlaceBytes(RewritePlace(Between(items))) == TextBytes(Rewrite(items))
  {
  }

  lemma Done(p: Place)
    requires PlaceBytes(p) == []
    ensures PlaceBytes(RewritePlace(p)) == []
  {
  }

  // The text is compacted; one without escapes to remove is returned as it is.
  method NormalizeSchemaJSON(compact: Compactor, source: seq<Byte>) returns (r: Option<seq<Byte>>)
    requires Compacts(compact)
    ensures r.None? <==> compact(source).None?
    ensures forall items :: IsText(items) && compact(source) == Some(TextBytes(items)) ==>
              r == Some(TextBytes(Rewrite(items)))
  {
    var compacted := compact(source);
    if compacted.None? {
      return None;
    }
    ghost var items :| IsText(items) && TextBytes(items) == compacted.value;
    forall other | IsText(other) && TextBytes(other) == compacted.value ensures other == items {
      TextIsUnambiguous(items, other);
    }
    if !ContainsHTMLEscapedString(compacted.value) {
      FastPathAgrees(items);
      return compacted;
    }
    var normalized := UnescapeHTML(compacted.value, items);
    return Some(normalized);
  }

  // ----- the fast path

  lemma {:induction false} ContainsAfter(a: seq<Byte>, s: seq<Byte>, part: seq<Byte>)
    requires Contains(s, part)
    ensures Contains(a + s, part)
    decreases |a|
  {
    if a == [] {
      assert a + s == s;
    } else {
      ContainsAfter(a[1..], s, part);
      assert (a + s)[1..] == a[1..] + s;
    }
  }

  lemma {:induction false} EscapeIsSeen(units: seq<Unit>, items: seq<Item>, i: nat)
    requires AreUnits(units) && i < |units| && units[i].Code? && HtmlByte(units[i].digits).Some?
    ensures ContainsHTMLEscapedString(RestBytes(units, items))
    decreases units
  {
    hide Contains, RestBytes;
    NextUnit(units, items);
    var rest := RestBytes(units[1..], items);
    var b := UnitBytes(units[0]);
    if i > 0 {
      EscapeIsSeen(units[1..], items, i - 1);
      SeenAfter(b, rest);
    } else {
      EscapeBytes(units[0]);
      StartsWith(b, rest);
    }
  }

  lemma EscapeBytes(u: Unit)
    requires IsUnit(u) && u.Code? && HtmlByte(u.digits).Some?
    ensures UnitBytes(u) in [[BACKSLASH, 0x75, 0x30, 0x30, 0x32, 0x36], [BACKSLASH, 0x75, 0x30, 0x30, 0x33, 0x63],
                             [BACKSLASH, 0x75, 0x30, 0x30, 0x33, 0x43], [BACKSLASH, 0x75, 0x30, 0x30, 0x33, 0x65],
                             [BACKSLASH, 0x75, 0x30, 0x30, 0x33, 0x45]]
  {
    var d := u.digits;
    assert UnitBytes(u) == [BACKSLASH, 0x75, d[0], d[1], d[2], d[3]];
    assert Lower(d[0]) == 0x30 && Lower(d[1]) == 0x30;
    assert Lower(d[2]) in [0x32, 0x33] && Lower(d[3]) in [0x36, 0x63, 0x65];
  }

  lemma StartsWith(part: seq<Byte>, rest: seq<Byte>)
    ensures Contains(part + rest, part)
  {
  }

  lemma SeenAfter(a: seq<Byte>, s: seq<Byte>)
    requires ContainsHTMLEscapedString(s)
    ensures ContainsHTMLEscapedString(a + s)
  {
    hide Contains;
    if part :| part in [[BACKSLASH, 0x75, 0x30, 0x30, 0x32, 0x36], [BACKSLASH, 0x75, 0x30, 0x30, 0x33, 0x63],
                        [BACKSLASH, 0x75, 0x30, 0x30, 0x33, 0x43], [BACKSLASH, 0x75, 0x30, 0x30, 0x33, 0x65],
                        [BACKSLASH, 0x75, 0x30, 0x30, 0x33, 0x45]] && Contains(s, part) {
      ContainsAfter(a, s, part);
    }
  }

  // When none of the escapes is seen, there is nothing to rewrite.
  lemma {:induction false} FastPathAgrees(items: seq<Item>)
    requires IsText(items) && !ContainsHTMLEscapedString(TextBytes(items))
    ensures Rewrite(items) == items
  {
    hide ContainsHTMLEscapedString;
    if items != [] {
      var rest := TextBytes(items[1..]);
      assert IsItem(items[0]);
      if ContainsHTMLEscapedString(rest) {
        SeenAfter(ItemBytes(items[0]), rest);
      }
      FastPathAgrees(items[1..]);
      if items[0].Quoted? {
        OpenString(items);
        var units := items[0].units;
        forall i: nat | i < |units| ensures RewriteUnit(units[i]) == units[i] {
          if units[i].Code? && HtmlByte(units[i].digits).Some? {
            EscapeIsSeen(units, items[1..], i);
            SeenAfter([QUOTE], RestBytes(units, items[1..]));
          }
        }
        assert RewriteUnits(units) == units;
      }
      assert items == [items[0]] + items[1..];
    }
  }

  // ----- what the rewriting keeps and what it removes

  lemma {:induction false} ValueIsKept(units: seq<Unit>)
    requires AreUnits(units)
    ensures AreUnits(RewriteUnits(units)) && Value(RewriteUnits(units)) == Value(units)
    decreases |units|
  {
    if units != [] {
      var r := RewriteUnits(units);
      assert IsUnit(units[0]) && r[1..] == RewriteUnits(units[1..]);
      ValueIsKept(units[1..]);
      UnitMeaning(units[0]);
      if IsHigh(units[0]) && |units| > 1 {
        UnitMeaning(units[1]);
        assert r[2..] == RewriteUnits(units[2..]);
        ValueIsKept(units[2..]);
      }
      assert AreUnits(r);
    }
  }

  lemma UnitMeaning(u: Unit)
    requires IsUnit(u)
    ensures IsUnit(RewriteUnit(u)) && SingleBytes(RewriteUnit(u)) == SingleBytes(u)
    ensures IsHigh(RewriteUnit(u)) == IsHigh(u) && IsLow(RewriteUnit(u)) == IsLow(u)
    ensures IsHigh(u) || IsLow(u) ==> RewriteUnit(u) == u
    ensures !IsHtmlEscape(RewriteUnit(u)) && RewriteUnit(RewriteUnit(u)) == RewriteUnit(u)
  {
    if u.Code? {
      HtmlDigits(u);
    }
  }

  // Only the listed escapes change, each into the character it stands for.
  lemma OnlyListedEscapesChange(items: seq<Item>, i: nat, k: nat)
    requires IsText(items) && i < |items| && items[i].Quoted? && k < |items[i].units|
    ensures
      var u := items[i].units[k];
      && Rewrite(items)[i].Quoted? && |Rewrite(items)[i].units| == |items[i].units|
      && Rewrite(items)[i].units[k] == if IsHtmlEscape(u) then Raw(CodeValue(u)) else u
  {
    assert IsItem(items[i]) && IsUnit(items[i].units[k]);
    if items[i].units[k].Code? {
      HtmlDigits(items[i].units[k]);
    }
  }

  // Every string starts and ends where it did and means what it meant, and no
  // `&`, `<` or `>` is left escaped.
  lemma RewritingKeepsMeaning(items: seq<Item>)
    requires IsText(items)
    ensures IsText(Rewrite(items)) && |Rewrite(items)| == |items|
    ensures forall i :: 0 <= i < |items| && items[i].Outside? ==> Rewrite(items)[i] == items[i]
    ensures forall i :: 0 <= i < |items| && items[i].Quoted? ==>
              && Rewrite(items)[i].Quoted? && AreUnits(items[i].units) && AreUnits(Rewrite(items)[i].units)
              && Value(Rewrite(items)[i].units) == Value(items[i].units)
              && forall u :: u in Rewrite(items)[i].units ==> !IsHtmlEscape(u)
  {
    RewriteIsText(items);
    forall i | 0 <= i < |items| && items[i].Quoted?
      ensures AreUnits(items[i].units) && AreUnits(Rewrite(items)[i].units)
      ensures Value(Rewrite(items)[i].units) == Value(items[i].units)
      ensures forall u :: u in Rewrite(items)[i].units ==> !IsHtmlEscape(u)
    {
      var units := items[i].units;
      assert IsItem(items[i]);
      ValueIsKept(units);
      forall k | 0 <= k < |units| ensures !IsHtmlEscape(RewriteUnits(units)[k]) {
        UnitMeaning(units[k]);
      }
    }
  }

  // However the rewritten text is read again, rewriting it changes nothing.
  lemma RewritingTwiceChangesNothing(items: seq<Item>, again: seq<Item>)
    requires IsText(items) && IsText(again) && TextBytes(again) == TextBytes(Rewrite(items))
    ensures again == Rewrite(items) && TextBytes(Rewrite(again)) == TextBytes(again)
  {
    hide TextBytes, RewriteUnit, IsHtmlEscape;
    RewriteIsText(items);
    TextIsUnambiguous(again, Rewrite(items));
    forall i | 0 <= i < |items| ensures RewriteItem(again[i]) == again[i] {
      assert IsItem(items[i]);
      if items[i].Quoted? {
        var units := items[i].units;
        forall k | 0 <= k < |units| ensures RewriteUnit(RewriteUnits(units)[k]) == RewriteUnits(units)[k] {
          UnitMeaning(units[k]);
        }
        assert RewriteUnits(again[i].units) == again[i].units;
      }
    }
    assert Rewrite(again) == again;
  }
}
