// The scan that refuses JSON input whose strings the decoder would repair.
module InputJson {
  import opened JsonStrings
  import opened JsonText
  import opened Utf8
  import opened Wrappers

  // Every high surrogate is followed at once by a low one, and no low one
  // stands elsewhere.
  predicate Paired(units: seq<Unit>) {
    && (forall i :: 0 <= i < |units| && IsHigh(units[i]) ==> i + 1 < |units| && IsLow(units[i + 1]))
    && (forall i :: 0 <= i < |units| && IsLow(units[i]) ==> i > 0 && IsHigh(units[i - 1]))
  }

  predicate AllPaired(items: seq<Item>) {
    forall item :: item in items && item.Quoted? ==> Paired(item.units)
  }

  // How many surrogates of a string the decoder replaces by U+FFFD.
  function Repairs(units: seq<Unit>): nat {
    if units == [] then 0
    else if IsHigh(units[0]) && |units| > 1 && IsLow(units[1]) then Repairs(units[2..])
    else (if IsHigh(units[0]) || IsLow(units[0]) then 1 else 0) + Repairs(units[1..])
  }

  lemma PairedAfterPair(units: seq<Unit>)
    requires |units| > 1 && IsHigh(units[0]) && IsLow(units[1])
    ensures Paired(units) <==> Paired(units[2..])
  {
    var rest := units[2..];
    assert forall i :: 0 <= i < |rest| ==> rest[i] == units[i + 2];
    assert forall i :: 2 <= i < |units| ==> units[i] == rest[i - 2];
    if Paired(units) {
      forall i | 0 <= i < |rest| && IsHigh(rest[i]) ensures i + 1 < |rest| && IsLow(rest[i + 1]) {
        assert IsHigh(units[i + 2]);
        assert IsLow(units[i + 3]);
      }
      forall i | 0 <= i < |rest| && IsLow(rest[i]) ensures i > 0 && IsHigh(rest[i - 1]) {
        assert IsLow(units[i + 2]);
        assert IsHigh(units[i + 1]);
      }
    }
  }

  lemma PairedAfterPlain(units: seq<Unit>)
    requires units != [] && !IsHigh(units[0]) && !IsLow(units[0])
    ensures Paired(units) <==> Paired(units[1..])
  {
    var rest := units[1..];
    assert forall i :: 0 <= i < |rest| ==> rest[i] == units[i + 1];
    assert forall i :: 1 <= i < |units| ==> units[i] == rest[i - 1];
    if Paired(units) {
      forall i | 0 <= i < |rest| && IsHigh(rest[i]) ensures i + 1 < |rest| && IsLow(rest[i + 1]) {
        assert IsHigh(units[i + 1]);
        assert IsLow(units[i + 2]);
      }
      forall i | 0 <= i < |rest| && IsLow(rest[i]) ensures i > 0 && IsHigh(rest[i - 1]) {
        assert IsLow(units[i + 1]);
        assert IsHigh(units[i]);
      }
    }
  }

  // Strings are paired exactly when decoding them replaces nothing.
  lemma {:induction false} PairedNeedsNoRepair(units: seq<Unit>)
    ensures Paired(units) <==> Repairs(units) == 0
  {
    hide Paired, IsHigh, IsLow;
    if units == [] {
      NothingIsPaired();
    } else if IsHigh(units[0]) && |units| > 1 && IsLow(units[1]) {
      PairedAfterPair(units);
      PairedNeedsNoRepair(units[2..]);
    } else if IsHigh(units[0]) || IsLow(units[0]) {
      FirstIsAlone(units);
    } else {
      PairedAfterPlain(units);
      PairedNeedsNoRepair(units[1..]);
    }
  }

  lemma NothingIsPaired()
    ensures Paired([])
  {
  }

  lemma FirstIsAlone(units: seq<Unit>)
    requires units != [] && (IsHigh(units[0]) || IsLow(units[0]))
    requires !(IsHigh(units[0]) && |units| > 1 && IsLow(units[1]))
    ensures !Paired(units)
  {
  }

  // ----- the scan

  function InputJSONCodeUnit(payload: seq<Byte>, offset: nat): Option<nat> {
    if |payload| - offset < 6 || payload[offset] != BACKSLASH || payload[offset + 1] != 0x75 then None
    else HexMeaning(payload[offset + 2..offset + 6])
  }

  predicate IsSurrogate(unit: nat) {
    0xd800 <= unit < 0xe000
  }

  function From(s: seq<Byte>, i: nat): seq<Byte> {
    if i <= |s| then s[i..] else []
  }

  predicate Accepts(s: seq<Byte>, inside: bool)
    decreases |s|
  {
    if s == [] then true
    else if s[0] == QUOTE then Accepts(s[1..], !inside)
    else if !inside || s[0] != BACKSLASH then Accepts(s[1..], inside)
    else
      match InputJSONCodeUnit(s, 0)
      case None => Accepts(From(s, 2), inside)
      case Some(unit) =>
        if !IsSurrogate(unit) then Accepts(s[6..], inside)
        else
          var low := InputJSONCodeUnit(s, 6);
          && unit < 0xdc00 && low.Some? && 0xdc00 <= low.value < 0xe000
          && Accepts(s[12..], inside)
  }

  lemma AcceptsFirst(s: seq<Byte>, inside: bool)
    requires s != []
    ensures
      Accepts(s, inside)
      == if s[0] == QUOTE then Accepts(s[1..], !inside)
         else if !inside || s[0] != BACKSLASH then Accepts(s[1..], inside)
         else if InputJSONCodeUnit(s, 0).None? then Accepts(From(s, 2), inside)
         else Accepts(s, true)
  {
    hide InputJSONCodeUnit;
  }

  lemma AcceptsEscape(s: seq<Byte>)
    requires s != [] && s[0] == BACKSLASH && InputJSONCodeUnit(s, 0).Some?
    ensures
      var unit := InputJSONCodeUnit(s, 0).value;
      |s| >= 6
      && (!IsSurrogate(unit) ==> Accepts(s, true) == Accepts(s[6..], true))
      && (IsSurrogate(unit) ==>
            var low := InputJSONCodeUnit(s, 6);
            && (low.Some? ==> |s| >= 12)
            && (Accepts(s, true) <==>
                  unit < 0xdc00 && low.Some? && 0xdc00 <= low.value < 0xe000 && Accepts(s[12..], true)))
  {
    hide HexMeaning;
  }

  datatype Problem = InvalidUtf8 | UnpairedSurrogate(index: nat)

  // The scan looks at no byte outside the payload, whatever the payload is.
  method ScanSurrogates(payload: seq<Byte>) returns (r: Option<Problem>)
    ensures r.None? <==> Accepts(payload, false)
    ensures r.Some? ==> r.value.UnpairedSurrogate? && r.value.index < |payload| && payload[r.value.index] == BACKSLASH
  {
    hide HexMeaning, InputJSONCodeUnit, Accepts;
    var insideString := false;
    var index := 0;
    assert payload[0..] == payload;
    while index < |payload|
      invariant Accepts(From(payload, index), insideString) == Accepts(payload, false)
    {
      ghost var s := payload[index..];
      assert forall k: nat :: k <= |s| ==> s[k..] == payload[index + k..];
      AcceptsFirst(s, insideString);
      if payload[index] == QUOTE {
        insideString := !insideString;
        index := index + 1;
        continue;
      }
      if !insideString || payload[index] != BACKSLASH {
        index := index + 1;
        continue;
      }
      SameCodeUnit(payload, index, 0);
      SameCodeUnit(payload, index, 6);
      var unit := InputJSONCodeUnit(payload, index);
      if unit.None? {
        assert From(s, 2) == From(payload, index + 2);
        index := index + 2;
        continue;
      }
      AcceptsEscape(s);
      if 0xd800 <= unit.value <= 0xdfff {
        var low := InputJSONCodeUnit(payload, index + 6);
        if unit.value >= 0xdc00 || low.None? || low.value < 0xdc00 || low.value > 0xdfff {
          return Some(UnpairedSurrogate(index));
        }
        index := index + 6;
      }
      index := index + 6;
    }
    assert From(payload, index) == [];
    NothingIsAccepted(insideString);
    return None;
  }

  lemma NothingIsAccepted(inside: bool)
    ensures Accepts([], inside)
  {
  }

  lemma SameCodeUnit(s: seq<Byte>, i: nat, k: nat)
    requires i <= |s|
    ensures InputJSONCodeUnit(s, i + k) == InputJSONCodeUnit(s[i..], k)
  {
    if |s| - i - k >= 6 {
      assert s[i..][k + 2..k + 6] == s[i + k + 2..i + k + 6];
    }
  }

  // For a text with the lexical shape of JSON, success means exactly that it
  // is UTF-8 and that the surrogates of every string are paired.
  method ValidateInputJSONUnicode(payload: seq<Byte>) returns (r: Option<Problem>)
    ensures r == Some(InvalidUtf8) <==> !WellFormed(payload)
    ensures forall items :: IsText(items) && TextBytes(items) == payload ==>
              (r.None? <==> WellFormed(payload) && AllPaired(items))
  {
    if !WellFormed(payload) {
      return Some(InvalidUtf8);
    }
    r := ScanSurrogates(payload);
    forall items | IsText(items) && TextBytes(items) == payload ensures r.None? <==> AllPaired(items) {
      AcceptsExactlyPaired(items);
    }
  }

  // ----- the scan against the meaning

  lemma ScanPlain(units: seq<Unit>, items: seq<Item>)
    requires AreUnits(units) && units != [] && !IsHigh(units[0]) && !IsLow(units[0])
    ensures Accepts(RestBytes(units, items), true) == Accepts(RestBytes(units[1..], items), true)
  {
    hide RestBytes;
    var u := units[0];
    var s, rest := RestBytes(units, items), RestBytes(units[1..], items);
    NextUnit(units, items);
    assert IsUnit(u);
    assert s[|UnitBytes(u)|..] == rest;
    match u {
    case Raw(_) =>
    case Escape(b) =>
      assert s[1] == b && b != 0x75;
      assert From(s, 2) == rest;
    case Code(digits) =>
      assert s[2..6] == digits;
      assert InputJSONCodeUnit(s, 0) == Some(CodeValue(u));
    }
  }

  lemma FirstCode(units: seq<Unit>, items: seq<Item>)
    requires AreUnits(units)
    ensures
      InputJSONCodeUnit(RestBytes(units, items), 0)
      == if units != [] && units[0].Code? then Some(CodeValue(units[0])) else None
  {
    hide RestBytes;
    var s := RestBytes(units, items);
    if units == [] {
      CloseString(items);
    } else {
      NextUnit(units, items);
      assert IsUnit(units[0]);
      match units[0] {
      case Raw(b) => assert s[0] == b;
      case Escape(b) => assert s[1] == b && b != 0x75;
      case Code(digits) => assert s[2..6] == digits;
      }
    }
  }

  lemma ScanSurrogate(units: seq<Unit>, items: seq<Item>)
    requires AreUnits(units) && units != [] && (IsHigh(units[0]) || IsLow(units[0]))
    ensures
      Accepts(RestBytes(units, items), true)
      <==> IsHigh(units[0]) && |units| > 1 && IsLow(units[1]) && Accepts(RestBytes(units[2..], items), true)
  {
    hide RestBytes, Accepts, HexMeaning, InputJSONCodeUnit;
    var s, rest := RestBytes(units, items), RestBytes(units[1..], items);
    NextUnit(units, items);
    assert s[6..] == rest && s[0] == BACKSLASH;
    SameCodeUnit(s, 6, 0);
    FirstCode(units, items);
    FirstCode(units[1..], items);
    AcceptsEscape(s);
    if |units| > 1 && IsLow(units[1]) {
      NextUnit(units[1..], items);
      assert rest[6..] == RestBytes(units[2..], items);
      assert s[12..] == rest[6..];
    }
  }

  lemma {:induction false} ScanString(units: seq<Unit>, items: seq<Item>)
    requires AreUnits(units)
    ensures Accepts(RestBytes(units, items), true) <==> Repairs(units) == 0 && Accepts(TextBytes(items), false)
    decreases |units|
  {
    hide Accepts, IsHigh, IsLow;
    if units == [] {
      ScanQuote(TextBytes(items), true);
      CloseString(items);
    } else if IsHigh(units[0]) || IsLow(units[0]) {
      ScanSurrogate(units, items);
      if IsHigh(units[0]) && |units| > 1 && IsLow(units[1]) {
        ScanString(units[2..], items);
      }
    } else {
      ScanPlain(units, items);
      ScanString(units[1..], items);
    }
  }

  lemma ScanQuote(s: seq<Byte>, inside: bool)
    ensures Accepts([QUOTE] + s, inside) == Accepts(s, !inside)
  {
    assert ([QUOTE] + s)[1..] == s;
  }

  lemma {:induction false} AcceptsExactlyPaired(items: seq<Item>)
    requires IsText(items)
    ensures Accepts(TextBytes(items), false) <==> AllPaired(items)
  {
    hide Paired;
    if items != [] {
      var rest := items[1..];
      AcceptsExactlyPaired(rest);
      assert IsItem(items[0]) && forall item :: item in items <==> item == items[0] || item in rest;
      match items[0] {
      case Outside(b) =>
        assert TextBytes(items)[1..] == TextBytes(rest);
      case Quoted(units) =>
        OpenString(items);
        ScanQuote(RestBytes(units, rest), false);
        ScanString(units, rest);
        PairedNeedsNoRepair(units);
      }
    }
  }
}
