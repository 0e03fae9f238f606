// How many terminal columns a text takes, and how it is cut to fit.
module DisplayWidth {
  const JOINER := 0x200d

  // The Unicode classes without a column of their own, and the replacement of
  // line breaks inside a cell, are the library's.
  datatype Glyphs = Glyphs(zeroWidth: char -> bool, oneLine: string -> string)

  predicate IsWide(c: char) {
    var v := c as int;
    v >= 0x1100
    && (|| v <= 0x115f || v == 0x2329 || v == 0x232a
        || 0x2e80 <= v <= 0x303e || (0x3040 <= v <= 0xa4cf && v != 0x303f)
        || 0xac00 <= v <= 0xd7a3 || 0xf900 <= v <= 0xfaff || 0xfe10 <= v <= 0xfe19 || 0xfe30 <= v <= 0xfe6f
        || 0xff00 <= v <= 0xff60 || 0xffe0 <= v <= 0xffe6 || 0x1_f000 <= v <= 0x1_faff || 0x2_0000 <= v <= 0x3_fffd)
  }

  function RuneDisplayWidth(g: Glyphs, c: char): nat {
    if g.zeroWidth(c) then 0 else if IsWide(c) then 2 else 1
  }

  // What earlier characters leave for the next: a pending joiner, and the first
  // half of a flag.
  datatype Carry = Carry(joinNext: bool, regionalIndicator: bool)

  const FRESH := Carry(false, false)

  predicate IsModifier(c: char) {
    0x1_f3fb <= c as int <= 0x1_f3ff
  }

  predicate IsRegional(c: char) {
    0x1_f1e6 <= c as int <= 0x1_f1ff
  }

  function WidthNext(g: Glyphs, s: Carry, c: char): nat {
    if c as int == JOINER || IsModifier(c) then 0
    else if IsRegional(c) then if s.regionalIndicator then 0 else 2
    else if s.joinNext then 0
    else RuneDisplayWidth(g, c)
  }

  function CarryNext(g: Glyphs, s: Carry, c: char): Carry {
    if c as int == JOINER then s.(joinNext := true)
    else if IsModifier(c) then s
    else if IsRegional(c) then s.(regionalIndicator := !s.regionalIndicator)
    else Carry(s.joinNext && RuneDisplayWidth(g, c) == 0, false)
  }

  function WidthFrom(g: Glyphs, s: Carry, text: string): nat
    decreases text
  {
    if text == "" then 0 else WidthNext(g, s, text[0]) + WidthFrom(g, CarryNext(g, s, text[0]), text[1..])
  }

  function CarryAfter(g: Glyphs, s: Carry, text: string): Carry
    decreases text
  {
    if text == "" then s else CarryAfter(g, CarryNext(g, s, text[0]), text[1..])
  }

  function TextWidth(g: Glyphs, text: string): nat {
    WidthFrom(g, FRESH, text)
  }

  class DisplayWidthState {
    var joinNext: bool
    var regionalIndicator: bool

    function Value(): Carry
      reads this
    {
      Carry(joinNext, regionalIndicator)
    }

    constructor ()
      ensures Value() == FRESH
    {
      joinNext, regionalIndicator := false, false;
    }

    method Next(g: Glyphs, c: char) returns (width: nat)
      modifies this
      ensures width == WidthNext(g, old(Value()), c) && width <= 2
      ensures Value() == CarryNext(g, old(Value()), c)
    {
      if c as int == JOINER {
        joinNext := true;
        return 0;
      }
      if IsModifier(c) {
        return 0;
      }
      if IsRegional(c) {
        if regionalIndicator {
          regionalIndicator := false;
          return 0;
        }
        regionalIndicator := true;
        return 2;
      }
      regionalIndicator := false;
      width := RuneDisplayWidth(g, c);
      if joinNext && width > 0 {
        joinNext := false;
        return 0;
      }
      if width > 0 {
        joinNext := false;
      }
    }
  }

  lemma {:induction false} WidthOfParts(g: Glyphs, s: Carry, a: string, b: string)
    ensures WidthFrom(g, s, a + b) == WidthFrom(g, s, a) + WidthFrom(g, CarryAfter(g, s, a), b)
    ensures CarryAfter(g, s, a + b) == CarryAfter(g, CarryAfter(g, s, a), b)
    decreases a
  {
    if a == "" {
      assert a + b == b;
    } else {
      WidthOfParts(g, CarryNext(g, s, a[0]), a[1..], b);
      assert (a + b)[1..] == a[1..] + b;
    }
  }

  // What a text before it leaves behind makes a text no wider, but for a flag
  // whose first half now stands in the other place.
  lemma {:induction false} WidthAfterContext(g: Glyphs, s: Carry, t: Carry, text: string)
    requires t.joinNext ==> s.joinNext
    ensures WidthFrom(g, s, text)
         <= WidthFrom(g, t, text) + if t.regionalIndicator && !s.regionalIndicator then 2 else 0
    decreases text
  {
    if text != "" {
      WidthAfterContext(g, CarryNext(g, s, text[0]), CarryNext(g, t, text[0]), text[1..]);
    }
  }

  // Texts written after one another are never wider than they are apart.
  lemma WidthIsSubadditive(g: Glyphs, a: string, b: string)
    ensures TextWidth(g, a) <= TextWidth(g, a + b) <= TextWidth(g, a) + TextWidth(g, b)
  {
    WidthOfParts(g, FRESH, a, b);
    WidthAfterContext(g, CarryAfter(g, FRESH, a), FRESH, b);
  }

  // ----- what a text is made of

  // Neither a joiner nor a skin tone nor half a flag.
  predicate IsOrdinary(c: char) {
    c as int != JOINER && !IsModifier(c) && !IsRegional(c)
  }

  function SumOfWidths(g: Glyphs, text: string): nat {
    if text == "" then 0 else RuneDisplayWidth(g, text[0]) + SumOfWidths(g, text[1..])
  }

  // Ordinary characters take their own columns.
  lemma {:induction false} OrdinaryWidth(g: Glyphs, s: Carry, text: string)
    requires !s.joinNext && forall c :: c in text ==> IsOrdinary(c)
    ensures WidthFrom(g, s, text) == SumOfWidths(g, text)
    decreases text
  {
    if text != "" {
      assert text[0] in text && forall c :: c in text[1..] ==> c in text;
      OrdinaryWidth(g, CarryNext(g, s, text[0]), text[1..]);
    }
  }

  lemma WidthOfFirst(g: Glyphs, s: Carry, c: char, rest: string)
    ensures WidthFrom(g, s, [c] + rest) == WidthNext(g, s, c) + WidthFrom(g, CarryNext(g, s, c), rest)
  {
    assert ([c] + rest)[0] == c && ([c] + rest)[1..] == rest;
  }

  // A character that is joined to another, and a skin tone, take no column of
  // their own.
  lemma ClusterWidth(g: Glyphs, a: char, b: char, rest: string)
    requires IsOrdinary(a) && RuneDisplayWidth(g, a) > 0
    ensures IsOrdinary(b) && RuneDisplayWidth(g, b) > 0 ==>
              TextWidth(g, [a] + ([JOINER as char] + ([b] + rest))) == RuneDisplayWidth(g, a) + TextWidth(g, rest)
    ensures IsModifier(b) ==> TextWidth(g, [a] + ([b] + rest)) == RuneDisplayWidth(g, a) + TextWidth(g, rest)
  {
    WidthOfFirst(g, FRESH, a, [JOINER as char] + ([b] + rest));
    WidthOfFirst(g, FRESH, JOINER as char, [b] + rest);
    WidthOfFirst(g, Carry(true, false), b, rest);
    WidthOfFirst(g, FRESH, a, [b] + rest);
    WidthOfFirst(g, FRESH, b, rest);
  }

  // The two halves of a flag take two columns together.
  lemma FlagWidth(g: Glyphs, a: char, b: char, rest: string)
    requires IsRegional(a) && IsRegional(b)
    ensures TextWidth(g, [a] + ([b] + rest)) == 2 + TextWidth(g, rest)
  {
    WidthOfFirst(g, FRESH, a, [b] + rest);
    WidthOfFirst(g, Carry(false, true), b, rest);
  }

  method MeasureText(g: Glyphs, value: string) returns (total: nat)
    ensures total == TextWidth(g, value)
  {
    total := 0;
    var state := new DisplayWidthState();
    assert value[0..] == value;
    for i := 0 to |value|
      invariant fresh(state)
      invariant total + WidthFrom(g, state.Value(), value[i..]) == TextWidth(g, value)
    {
      assert value[i..][1..] == value[i + 1..];
      var width := state.Next(g, value[i]);
      total := total + width;
    }
  }

  // The longest beginning of a text that leaves a column for the ellipsis.
  ghost predicate IsCut(g: Glyphs, value: string, width: int, k: nat) {
    k < |value| && TextWidth(g, value[..k]) < width <= TextWidth(g, value[..k + 1])
  }

  // A text that fits is shown as it is; any other is cut as late as it can be,
  // if there is a column for the ellipsis.
  ghost predicate IsFitted(g: Glyphs, value: string, width: int, shown: string) {
    if TextWidth(g, value) <= width then shown == value
    else if width <= 0 then shown == ""
    else exists k: nat :: IsCut(g, value, width, k) && shown == value[..k] + "\U{2026}"
  }

  lemma FittedIsDetermined(g: Glyphs, value: string, width: int, a: string, b: string)
    requires IsFitted(g, value, width, a) && IsFitted(g, value, width, b)
    ensures a == b
  {
    hide TextWidth;
    if 0 < width < TextWidth(g, value) {
      var j: nat :| IsCut(g, value, width, j) && a == value[..j] + "\U{2026}";
      var k: nat :| IsCut(g, value, width, k) && b == value[..k] + "\U{2026}";
      if j < k {
        LongerIsWider(g, value, j + 1, k);
      } else if k < j {
        LongerIsWider(g, value, k + 1, j);
      }
    }
  }

  lemma LongerIsWider(g: Glyphs, value: string, j: nat, k: nat)
    requires j <= k <= |value|
    ensures TextWidth(g, value[..j]) <= TextWidth(g, value[..k])
  {
    WidthIsSubadditive(g, value[..j], value[j..k]);
    assert value[..j] + value[j..k] == value[..k];
  }

  // What is shown takes no more columns than it was given.
  method TruncateText(g: Glyphs, value: string, width: int) returns (r: string)
    ensures IsFitted(g, value, width, r)
    ensures width >= 0 ==> TextWidth(g, r) <= width
  {
    var total := MeasureText(g, value);
    if total <= width {
      return value;
    }
    if width <= 0 {
      return "";
    }
    var currentWidth := 0;
    var state := new DisplayWidthState();
    var truncated := "";
    var i := 0;
    while i < |value|
      invariant fresh(state)
      invariant 0 <= i <= |value| && truncated == value[..i]
      invariant currentWidth == TextWidth(g, truncated) < width
      invariant state.Value() == CarryAfter(g, FRESH, truncated)
    {
      WidthOfParts(g, FRESH, truncated, [value[i]]);
      assert value[..i + 1] == value[..i] + [value[i]];
      var characterWidth := state.Next(g, value[i]);
      if currentWidth + characterWidth > width - 1 {
        break;
      }
      truncated := truncated + [value[i]];
      currentWidth := currentWidth + characterWidth;
      i := i + 1;
    }
    assert value[..|value|] == value;
    assert IsCut(g, value, width, i);
    WidthOfParts(g, FRESH, truncated, "\U{2026}");
    return truncated + "\U{2026}";
  }
}
