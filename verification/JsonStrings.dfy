// The JSON text of a string (RFC 8259 section 7) as the command line writes
// it, and its size.
module JsonStrings {
  import opened Utf8
  import opened Wrappers

  const QUOTE: Byte := 0x22
  const BACKSLASH: Byte := 0x5c

  function HexDigit(v: nat): Byte
    requires v < 16
  {
    if v < 10 then 0x30 + v else 0x57 + v
  }

  function HexValue(b: Byte): Option<nat> {
    var v: int := b;
    if 0x30 <= v < 0x3a then Some(v - 0x30)
    else if 0x41 <= v < 0x47 then Some(v - 0x37)
    else if 0x61 <= v < 0x67 then Some(v - 0x57)
    else None
  }

  // The letters of the two-character escapes.
  function ShortEscape(r: nat): Option<Byte> {
    if r == 0x22 then Some(0x22)
    else if r == 0x5c then Some(0x5c)
    else if r == 0x08 then Some(0x62)
    else if r == 0x0c then Some(0x66)
    else if r == 0x0a then Some(0x6e)
    else if r == 0x0d then Some(0x72)
    else if r == 0x09 then Some(0x74)
    else None
  }

  function UnicodeEscape(r: nat): (e: seq<Byte>)
    requires r < 0x1_0000
    ensures |e| == 6
  {
    [BACKSLASH, 0x75, HexDigit(r / 0x1000), HexDigit(r / 0x100 % 0x10), HexDigit(r / 0x10 % 0x10), HexDigit(r % 0x10)]
  }

  const REPLACEMENT: seq<Byte> := [0xef, 0xbf, 0xbd]

  // What one decoded piece `raw` of a text is written as.
  function EncodeRune(d: Decoded, raw: seq<Byte>): (e: seq<Byte>)
    ensures raw != [] ==> e != []
  {
    if ShortEscape(d.rune).Some? then [BACKSLASH, ShortEscape(d.rune).value]
    else if d.rune < 0x20 || d.rune == 0x2028 || d.rune == 0x2029 then UnicodeEscape(d.rune)
    else if IsBad(d) then REPLACEMENT
    else raw
  }

  function EncodeBody(s: seq<Byte>): seq<Byte>
    decreases |s|
  {
    if s == [] then []
    else EncodeRune(Decode(s), s[..Decode(s).width]) + EncodeBody(s[Decode(s).width..])
  }

  function EncodeString(s: seq<Byte>): seq<Byte> {
    [QUOTE] + EncodeBody(s) + [QUOTE]
  }

  function BodySize(s: seq<Byte>): nat {
    |EncodeBody(s)|
  }

  lemma FirstSize(s: seq<Byte>)
    requires s != []
    ensures
      var d := Decode(s);
      && BodySize(s) - BodySize(s[d.width..])
         == (if ShortEscape(d.rune).Some? then 2
             else if d.rune < 0x20 || d.rune == 0x2028 || d.rune == 0x2029 then 6
             else if IsBad(d) then 3
             else d.width)
      && (s[0] < 0x80 ==> d == Decoded(s[0], 1))
      && (s[0] >= 0x80 ==> d.rune >= 0x80)
  {
  }

  // jsonStringOutputBytes: the size without the text.
  method JsonStringOutputBytes(value: seq<Byte>) returns (encodedBytes: nat)
    ensures encodedBytes == |EncodeString(value)|
  {
    hide EncodeBody, EncodeRune, Decode;
    encodedBytes := 2;
    var index := 0;
    assert value[0..] == value;
    assert |EncodeString(value)| == 2 + BodySize(value);
    while index < |value|
      invariant index <= |value|
      invariant encodedBytes + BodySize(value[index..]) == 2 + BodySize(value)
    {
      var current := value[index];
      ghost var rest := value[index..];
      FirstSize(rest);
      if current < 0x80 {
        if current == 0x22 || current == 0x5c || current == 0x08 || current == 0x0c || current == 0x0a
           || current == 0x0d || current == 0x09 {
          encodedBytes := encodedBytes + 2;
        } else if current < 0x20 {
          encodedBytes := encodedBytes + 6;
        } else {
          encodedBytes := encodedBytes + 1;
        }
        assert rest[1..] == value[index + 1..];
        index := index + 1;
      } else {
        var d := Decode(value[index..]);
        if d.rune == RUNE_ERROR && d.width == 1 {
          encodedBytes := encodedBytes + 3;
        } else if d.rune == 0x2028 || d.rune == 0x2029 {
          encodedBytes := encodedBytes + 6;
        } else {
          encodedBytes := encodedBytes + d.width;
        }
        assert rest[d.width..] == value[index + d.width..];
        index := index + d.width;
      }
    }
    NothingToWrite(value[index..]);
  }

  lemma NothingToWrite(s: seq<Byte>)
    ensures s == [] ==> BodySize(s) == 0
  {
  }

  // ----- the written text means the string it was made from

  function ShortMeaning(b: Byte): Option<nat> {
    if b == 0x22 then Some(0x22)
    else if b == 0x5c then Some(0x5c)
    else if b == 0x2f then Some(0x2f)
    else if b == 0x62 then Some(0x08)
    else if b == 0x66 then Some(0x0c)
    else if b == 0x6e then Some(0x0a)
    else if b == 0x72 then Some(0x0d)
    else if b == 0x74 then Some(0x09)
    else None
  }

  function HexMeaning(s: seq<Byte>): Option<nat>
    requires |s| >= 4
  {
    var (a, b, c, d) := (HexValue(s[0]), HexValue(s[1]), HexValue(s[2]), HexValue(s[3]));
    if a.None? || b.None? || c.None? || d.None? then None
    else Some(((a.value * 0x10 + b.value) * 0x10 + c.value) * 0x10 + d.value)
  }

  // One character of a JSON string: its rune and how many bytes it takes. The
  // encoder writes no surrogate pairs, so pairs are not joined here.
  function ReadRune(s: seq<Byte>): Option<Decoded>
    requires s != []
  {
    if s[0] == BACKSLASH then
      if |s| >= 6 && s[1] == 0x75 then
        match HexMeaning(s[2..])
        case Some(r) => Some(Decoded(r, 6))
        case None => None
      else if |s| >= 2 then
        match ShortMeaning(s[1])
        case Some(r) => Some(Decoded(r, 2))
        case None => None
      else None
    else if s[0] < 0x20 || IsBad(Decode(s)) then None
    else Some(Decode(s))
  }

  // The runes up to the closing quote, which must end the text.
  function ReadBody(s: seq<Byte>): Option<seq<nat>>
    decreases |s|
  {
    if s == [] then None
    else if s[0] == QUOTE then if |s| == 1 then Some([]) else None
    else
      match ReadRune(s)
      case None => None
      case Some(d) =>
        match ReadBody(s[d.width..])
        case None => None
        case Some(rest) => Some([d.rune] + rest)
  }

  function ReadString(s: seq<Byte>): Option<seq<nat>> {
    if s == [] || s[0] != QUOTE then None else ReadBody(s[1..])
  }

  lemma UnicodeEscapeReads(r: nat, rest: seq<Byte>)
    requires r < 0x1_0000
    ensures ReadRune(UnicodeEscape(r) + rest) == Some(Decoded(r, 6))
  {
    var e := UnicodeEscape(r);
    var (p, q) := (r / 0x100, r / 0x10);
    assert forall i :: 0 <= i < 6 ==> (e + rest)[i] == e[i];
    assert (e + rest)[2..][..4] == e[2..];
    assert q / 0x10 == p && p / 0x10 == r / 0x1000;
  }

  lemma EncodedRuneReads(s: seq<Byte>, rest: seq<Byte>)
    requires s != []
    ensures
      var d := Decode(s);
      var e := EncodeRune(d, s[..d.width]);
      (e + rest)[0] != QUOTE && ReadRune(e + rest) == Some(Decoded(d.rune, |e|))
  {
    var d := Decode(s);
    var raw := s[..d.width];
    var e := EncodeRune(d, raw);
    assert forall i :: 0 <= i < |e| ==> (e + rest)[i] == e[i];
    if ShortEscape(d.rune).Some? {
    } else if d.rune < 0x20 || d.rune == 0x2028 || d.rune == 0x2029 {
      UnicodeEscapeReads(d.rune, rest);
    } else if IsBad(d) {
      DecodeIsLocal(e, rest);
    } else {
      assert raw + s[d.width..] == s;
      DecodeIsLocal(raw, s[d.width..]);
      DecodeIsLocal(raw, rest);
    }
  }

  lemma {:induction false} BodyReads(s: seq<Byte>)
    ensures ReadBody(EncodeBody(s) + [QUOTE]) == Some(Runes(s))
    decreases |s|
  {
    if s != [] {
      var d := Decode(s);
      var e := EncodeRune(d, s[..d.width]);
      var rest := EncodeBody(s[d.width..]) + [QUOTE];
      BodyReads(s[d.width..]);
      EncodedRuneReads(s, rest);
      assert EncodeBody(s) + [QUOTE] == e + rest;
      assert (e + rest)[|e|..] == rest;
    }
  }

  // Reading the encoder's text gives back the runes of the string, a bad byte
  // having become U+FFFD.
  lemma EncodedStringReads(s: seq<Byte>)
    ensures ReadString(EncodeString(s)) == Some(Runes(s))
  {
    BodyReads(s);
    assert EncodeString(s)[1..] == EncodeBody(s) + [QUOTE];
  }

  // ----- sizes of parts

  lemma {:induction false} AlignedSize(a: seq<Byte>, b: seq<Byte>)
    requires IsBoundary(a + b, |a|)
    ensures BodySize(a + b) == BodySize(a) + BodySize(b)
    decreases |a|
  {
    if a == [] {
      assert a + b == b;
    } else {
      DecodeIsLocal(a, b);
      var w := Decode(a).width;
      assert (a + b)[w..] == a[w..] + b && (a + b)[..w] == a[..w];
      AlignedSize(a[w..], b);
    }
  }

  lemma {:induction false} ContinuationsAreBad(q: seq<Byte>, rest: seq<Byte>)
    requires forall b :: b in q ==> IsContinuation(b)
    ensures BodySize(q + rest) == 3 * |q| + BodySize(rest)
    decreases |q|
  {
    if q == [] {
      assert q + rest == rest;
    } else {
      assert IsContinuation(q[0]) && (q + rest)[0] == q[0];
      assert (q + rest)[1..] == q[1..] + rest;
      ContinuationsAreBad(q[1..], rest);
    }
  }

  // A sequence cut short costs three bytes for each of its bytes on either
  // side of the cut, more than it costs whole.
  lemma CutSize(a: seq<Byte>, b: seq<Byte>)
    requires a != [] && Decode(a + b).width > |a|
    ensures BodySize(a + b) < BodySize(a) + BodySize(b)
  {
    var w := Decode(a + b).width;
    var (q, rest) := (b[..w - |a|], b[w - |a|..]);
    hide *;
    CutIsBad(a, b);
    BadSize(a);
    WholeSize(a + b);
    SplitAtCut(a, b, w);
    ContinuationsAreBad(q, rest);
    ContinuationsAreBad(a[1..], []);
    NothingToWrite([]);
  }

  lemma SplitAtCut(a: seq<Byte>, b: seq<Byte>, w: nat)
    requires 0 < |a| < w <= |a + b|
    ensures b[..w - |a|] + b[w - |a|..] == b && a[1..] + [] == a[1..] && (a + b)[w..] == b[w - |a|..]
  {
  }

  lemma BadSize(a: seq<Byte>)
    requires a != [] && IsBad(Decode(a)) && a[0] >= 0x80
    ensures BodySize(a) == 3 + BodySize(a[1..])
  {
    hide EncodeBody, EncodeRune;
    FirstSize(a);
  }

  lemma WholeSize(s: seq<Byte>)
    requires s != [] && Decode(s).width > 1
    ensures BodySize(s) <= BodySize(s[Decode(s).width..]) + if Decode(s).width > 2 then 6 else 2
  {
    hide EncodeBody, EncodeRune;
    FirstSize(s);
  }

  lemma CutIsBad(a: seq<Byte>, b: seq<Byte>)
    requires a != [] && Decode(a + b).width > |a|
    ensures IsBad(Decode(a)) && a[0] >= 0x80
    ensures forall c :: c in a[1..] || c in b[..Decode(a + b).width - |a|] ==> IsContinuation(c)
  {
    var w := Decode(a + b).width;
    assert forall i :: 0 <= i < |a| ==> (a + b)[i] == a[i];
    assert forall i :: 0 <= i < w - |a| ==> b[i] == (a + b)[|a| + i];
    assert forall i :: 0 < i < w ==> IsContinuation((a + b)[i]);
  }

  // Sizes add up, but for one pair of quotes, exactly when the cut lies
  // between two runes.
  lemma {:induction false} SizeIsAdditiveExactlyAtBoundaries(a: seq<Byte>, b: seq<Byte>)
    ensures |EncodeString(a + b)| == |EncodeString(a)| + |EncodeString(b)| - 2 <==> IsBoundary(a + b, |a|)
    ensures |EncodeString(a + b)| <= |EncodeString(a)| + |EncodeString(b)| - 2
    decreases |a|
  {
    if IsBoundary(a + b, |a|) {
      AlignedSize(a, b);
    } else if Decode(a + b).width > |a| {
      CutSize(a, b);
    } else {
      DecodeIsLocal(a, b);
      var w := Decode(a).width;
      assert (a + b)[w..] == a[w..] + b && (a + b)[..w] == a[..w];
      SizeIsAdditiveExactlyAtBoundaries(a[w..], b);
    }
  }

  // A text without bad bytes may be followed by anything.
  lemma {:induction false} WellFormedEndsAtBoundary(a: seq<Byte>, b: seq<Byte>)
    requires WellFormed(a)
    ensures IsBoundary(a + b, |a|)
    decreases |a|
  {
    if a != [] {
      DecodeIsLocal(a, b);
      var w := Decode(a).width;
      assert (a + b)[w..] == a[w..] + b;
      WellFormedEndsAtBoundary(a[w..], b);
    }
  }

  // Nothing in the text has to be escaped or replaced.
  predicate NeedsNoEscape(s: seq<Byte>)
    decreases |s|
  {
    s == [] ||
    (var d := Decode(s);
     && !IsBad(d) && d.rune != 0x22 && d.rune != 0x5c && d.rune >= 0x20 && d.rune != 0x2028 && d.rune != 0x2029
     && NeedsNoEscape(s[d.width..]))
  }

  // A text is written between quotes as it is exactly when nothing in it has
  // to be escaped or replaced; any other takes more bytes.
  lemma {:induction false} OnlyEscapesTakeMore(s: seq<Byte>)
    ensures NeedsNoEscape(s) ==> EncodeString(s) == [QUOTE] + s + [QUOTE]
    ensures !NeedsNoEscape(s) ==> |EncodeString(s)| > |s| + 2
    decreases |s|
  {
    BodyTakesMore(s);
  }

  lemma {:induction false} BodyTakesMore(s: seq<Byte>)
    ensures NeedsNoEscape(s) ==> EncodeBody(s) == s
    ensures !NeedsNoEscape(s) ==> |EncodeBody(s)| > |s|
    decreases |s|
  {
    if s != [] {
      var d := Decode(s);
      FirstSize(s);
      BodyTakesMore(s[d.width..]);
      assert s == s[..d.width] + s[d.width..];
    }
  }
}
