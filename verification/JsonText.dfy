// JSON texts as the lexer sees them: single bytes outside strings, and strings
// of plain bytes and escapes (RFC 8259 section 7). Every JSON text has this
// shape, and so does many a text that is not JSON.
module JsonText {
  import opened JsonStrings
  import opened Sequences
  import opened Utf8
  import opened Wrappers

  datatype Unit = Raw(b: Byte) | Escape(b: Byte) | Code(digits: seq<Byte>)

  datatype Item = Outside(b: Byte) | Quoted(units: seq<Unit>)

  predicate IsUnit(u: Unit) {
    match u
    case Raw(b) => b != QUOTE && b != BACKSLASH
    case Escape(b) => ShortMeaning(b).Some?
    case Code(digits) => |digits| == 4 && HexMeaning(digits).Some?
  }

  predicate AreUnits(units: seq<Unit>) {
    forall u :: u in units ==> IsUnit(u)
  }

  predicate IsItem(item: Item) {
    match item
    case Outside(b) => b != QUOTE
    case Quoted(units) => AreUnits(units)
  }

  predicate IsText(items: seq<Item>) {
    forall item :: item in items ==> IsItem(item)
  }

  function UnitBytes(u: Unit): (r: seq<Byte>)
    ensures r != []
  {
    match u
    case Raw(b) => [b]
    case Escape(b) => [BACKSLASH, b]
    case Code(digits) => [BACKSLASH, 0x75] + digits
  }

  function UnitsBytes(units: seq<Unit>): seq<Byte> {
    if units == [] then [] else UnitBytes(units[0]) + UnitsBytes(units[1..])
  }

  function ItemBytes(item: Item): seq<Byte> {
    match item
    case Outside(b) => [b]
    case Quoted(units) => [QUOTE] + UnitsBytes(units) + [QUOTE]
  }

  function TextBytes(items: seq<Item>): seq<Byte> {
    if items == [] then [] else ItemBytes(items[0]) + TextBytes(items[1..])
  }

  // A place inside a string: what is left of the string, then of the text.
  function RestBytes(units: seq<Unit>, items: seq<Item>): seq<Byte> {
    UnitsBytes(units) + ([QUOTE] + TextBytes(items))
  }

  lemma OpenString(items: seq<Item>)
    requires items != [] && items[0].Quoted?
    ensures TextBytes(items) == [QUOTE] + RestBytes(items[0].units, items[1..])
  {
    var body, rest := UnitsBytes(items[0].units), TextBytes(items[1..]);
    assert TextBytes(items) == ([QUOTE] + body + [QUOTE]) + rest;
    hide *;
    Associate([QUOTE] + body, [QUOTE], rest);
    Associate([QUOTE], body, [QUOTE] + rest);
  }

  lemma NextUnit(units: seq<Unit>, items: seq<Item>)
    requires units != []
    ensures RestBytes(units, items) == UnitBytes(units[0]) + RestBytes(units[1..], items)
    ensures IsUnit(units[0]) ==> RestBytes(units, items)[0] != QUOTE
  {
    Associate(UnitBytes(units[0]), UnitsBytes(units[1..]), [QUOTE] + TextBytes(items));
  }

  lemma CloseString(items: seq<Item>)
    ensures RestBytes([], items) == [QUOTE] + TextBytes(items)
  {
  }

  // ----- a text has one reading only

  lemma UnitsAgree(u: Unit, v: Unit, a: seq<Byte>, b: seq<Byte>)
    requires IsUnit(u) && IsUnit(v)
    requires UnitBytes(u) + a == UnitBytes(v) + b
    ensures u == v && a == b
  {
    var (s, x, y) := (UnitBytes(u) + a, UnitBytes(u), UnitBytes(v));
    assert s[0] == x[0] && s[0] == y[0];
    assert u.Raw? <==> v.Raw?;
    if !u.Raw? {
      assert s[1] == x[1] && s[1] == y[1];
      assert u.Escape? <==> v.Escape?;
      if u.Code? {
        assert s[2..6] == u.digits && s[2..6] == v.digits;
      }
    }
    assert s[|x|..] == a && s[|y|..] == b;
  }

  lemma {:induction false} RestIsUnambiguous(us: seq<Unit>, a: seq<Item>, vs: seq<Unit>, b: seq<Item>)
    requires AreUnits(us) && AreUnits(vs) && RestBytes(us, a) == RestBytes(vs, b)
    ensures us == vs && TextBytes(a) == TextBytes(b)
    decreases us
  {
    var s := RestBytes(us, a);
    if us != [] && vs != [] {
      NextUnit(us, a);
      NextUnit(vs, b);
      UnitsAgree(us[0], vs[0], RestBytes(us[1..], a), RestBytes(vs[1..], b));
      RestIsUnambiguous(us[1..], a, vs[1..], b);
      assert us == [us[0]] + us[1..] && vs == [vs[0]] + vs[1..];
    } else if us == [] && vs == [] {
      CloseString(a);
      CloseString(b);
      assert s[1..] == TextBytes(a) && s[1..] == TextBytes(b);
    } else {
      NextUnit(if us == [] then vs else us, if us == [] then b else a);
    }
  }

  lemma {:induction false} TextIsUnambiguous(a: seq<Item>, b: seq<Item>)
    requires IsText(a) && IsText(b) && TextBytes(a) == TextBytes(b)
    ensures a == b
    decreases a
  {
    hide *;
    if a == [] || b == [] {
      BothEmpty(a, b);
    } else {
      FirstItems(a, b);
      TextIsUnambiguous(a[1..], b[1..]);
      assert a == [a[0]] + a[1..] && b == [b[0]] + b[1..];
    }
  }

  lemma BothEmpty(a: seq<Item>, b: seq<Item>)
    requires TextBytes(a) == TextBytes(b) && (a == [] || b == [])
    ensures a == b
  {
  }

  lemma FirstItems(a: seq<Item>, b: seq<Item>)
    requires IsText(a) && IsText(b) && TextBytes(a) == TextBytes(b) && a != [] && b != []
    ensures a[0] == b[0] && IsText(a[1..]) && IsText(b[1..]) && TextBytes(a[1..]) == TextBytes(b[1..])
  {
    var s := TextBytes(a);
    assert IsItem(a[0]) && IsItem(b[0]);
    assert s[0] == ItemBytes(a[0])[0] && s[0] == ItemBytes(b[0])[0];
    if a[0].Quoted? {
      OpenString(a);
      OpenString(b);
      assert s[1..] == RestBytes(a[0].units, a[1..]) && s[1..] == RestBytes(b[0].units, b[1..]);
      RestIsUnambiguous(a[0].units, a[1..], b[0].units, b[1..]);
    } else {
      assert s[1..] == TextBytes(a[1..]) && s[1..] == TextBytes(b[1..]);
    }
  }

  // ----- what a string means

  function CodeValue(u: Unit): nat
    requires IsUnit(u) && u.Code?
  {
    HexMeaning(u.digits).value
  }

  predicate IsHigh(u: Unit) {
    IsUnit(u) && u.Code? && 0xd800 <= CodeValue(u) < 0xdc00
  }

  predicate IsLow(u: Unit) {
    IsUnit(u) && u.Code? && 0xdc00 <= CodeValue(u) < 0xe000
  }

  // The UTF-8 bytes of a string. A pair of surrogate escapes is one code point;
  // any other surrogate is replaced, as the JSON decoder does.
  function Value(units: seq<Unit>): seq<Byte>
    requires AreUnits(units)
  {
    if units == [] then []
    else if IsHigh(units[0]) && |units| > 1 && IsLow(units[1]) then
      PairBytes(units[0], units[1]) + Value(units[2..])
    else
      SingleBytes(units[0]) + Value(units[1..])
  }

  function PairBytes(high: Unit, low: Unit): seq<Byte>
    requires IsHigh(high) && IsLow(low)
  {
    Encode(0x1_0000 + (CodeValue(high) - 0xd800) * 0x400 + (CodeValue(low) - 0xdc00))
  }

  function SingleBytes(u: Unit): seq<Byte>
    requires IsUnit(u)
  {
    match u
    case Raw(b) => [b]
    case Escape(b) => [ShortMeaning(b).value]
    case Code(_) => if IsHigh(u) || IsLow(u) then REPLACEMENT else Encode(CodeValue(u))
  }
}
